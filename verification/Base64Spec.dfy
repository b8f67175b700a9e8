/** Base64 as section 4 of RFC 4648 describes it: the alphabet, the text of a byte string, and what a
    text stands for.  Bytes and sextets are bit vectors. */
module Base64Spec {

  type Byte = bv8

  type Sextet = bv6

  /** A character, as its ASCII code. */
  type Char = bv8

  type Text = seq<Char>

  const NEW_LINE: Char := 10

  const EQUALS: Char := 61

  const ZERO: Char := 0

  /** The alphabet: A to Z, a to z, 0 to 9, plus and slash. */
  function Symbol(v: Sextet): Char {
    if v < 26 then (v as Char) + 65
    else if v < 52 then (v as Char) - 26 + 97
    else if v < 62 then (v as Char) - 52 + 48
    else if v == 62 then 43
    else 47
  }

  datatype Class = Value(v: Sextet) | LineFeed | Pad | Bad

  /** The decoding table. */
  function Classify(c: Char): Class {
    if 65 <= c <= 90 then Value((c - 65) as Sextet)
    else if 97 <= c <= 122 then Value((c - 97 + 26) as Sextet)
    else if 48 <= c <= 57 then Value((c - 48 + 52) as Sextet)
    else if c == 43 then Value(62)
    else if c == 47 then Value(63)
    else if c == NEW_LINE then LineFeed
    else if c == EQUALS then Pad
    else Bad
  }

  lemma SymbolsAreClassified(v: Sextet)
    ensures Classify(Symbol(v)) == Value(v)
  {
  }

  /** The alphabet of table 1 of RFC 4648: A to Z, a to z, 0 to 9 in ASCII order, plus, slash. */
  lemma AlphabetIsStandard(v: Sextet)
    ensures Symbol(0) == 65 && Symbol(25) == 90 && Symbol(26) == 97 && Symbol(51) == 122
    ensures Symbol(52) == 48 && Symbol(61) == 57 && Symbol(62) == 43 && Symbol(63) == 47
    ensures v < 25 || (26 <= v && v < 51) || (52 <= v && v < 61) ==> Symbol(v + 1) == Symbol(v) + 1
  {
  }

  /** The decoding table has exactly the alphabet, the line feed and the padding character. */
  lemma TableIsExact(c: Char, v: Sextet)
    ensures Classify(c) == Value(v) <==> c == Symbol(v)
    ensures (Classify(c) == LineFeed <==> c == 10) && (Classify(c) == Pad <==> c == 61)
  {
  }

  // ---------------------------------------------------------------------------------------------
  // Three bytes are four sextets

  function FirstSextet(a: Byte): Sextet { (a >> 2) as Sextet }

  function SecondSextet(a: Byte, b: Byte): Sextet { (((a & 3) << 4) | (b >> 4)) as Sextet }

  function ThirdSextet(b: Byte, c: Byte): Sextet { (((b & 15) << 2) | (c >> 6)) as Sextet }

  function FourthSextet(c: Byte): Sextet { (c & 63) as Sextet }

  function FirstByte(p: Sextet, q: Sextet): Byte { ((p as Byte) << 2) | ((q as Byte) >> 4) }

  function SecondByte(q: Sextet, r: Sextet): Byte { ((q as Byte) << 4) | ((r as Byte) >> 2) }

  function ThirdByte(r: Sextet, s: Sextet): Byte { ((r as Byte) << 6) | (s as Byte) }

  /** The 24 bits of three bytes, most significant first, are those of their four sextets (section 4 of RFC 4648). */
  lemma SameBits(a: Byte, b: Byte, c: Byte)
    ensures ((a as bv24) << 16) | ((b as bv24) << 8) | (c as bv24)
         == ((FirstSextet(a) as bv24) << 18) | ((SecondSextet(a, b) as bv24) << 12)
            | ((ThirdSextet(b, c) as bv24) << 6) | (FourthSextet(c) as bv24)
  {
  }

  // ---------------------------------------------------------------------------------------------
  // Bytes to sextets

  /** The sextets of the first group of at most three bytes; missing bytes count as zero. */
  function GroupSextets(b: seq<Byte>): (q: seq<Sextet>)
    requires b != []
    ensures |q| == if |b| == 1 then 2 else if |b| == 2 then 3 else 4
  {
    if |b| == 1 then [FirstSextet(b[0]), SecondSextet(b[0], 0)]
    else if |b| == 2 then [FirstSextet(b[0]), SecondSextet(b[0], b[1]), ThirdSextet(b[1], 0)]
    else [FirstSextet(b[0]), SecondSextet(b[0], b[1]), ThirdSextet(b[1], b[2]), FourthSextet(b[2])]
  }

  /** What follows the first group of n elements. */
  function Rest<T>(s: seq<T>, n: nat): (r: seq<T>)
    ensures |r| == if |s| <= n then 0 else |s| - n
  {
    if |s| <= n then [] else s[n..]
  }

  function Sextets(b: seq<Byte>): seq<Sextet>
    decreases |b|
  {
    if b == [] then [] else GroupSextets(b) + Sextets(Rest(b, 3))
  }

  function Chars(q: seq<Sextet>): (s: Text)
    ensures |s| == |q|
    ensures forall i :: 0 <= i < |q| ==> s[i] == Symbol(q[i])
  {
    seq(|q|, i requires 0 <= i < |q| => Symbol(q[i]))
  }

  function Padding(n: nat): Text {
    if n % 3 == 1 then [EQUALS, EQUALS] else if n % 3 == 2 then [EQUALS] else []
  }

  /** The text of a byte string. */
  function Encoding(b: seq<Byte>): Text {
    Chars(Sextets(b)) + Padding(|b|)
  }

  lemma {:induction false} SextetsLength(b: seq<Byte>)
    ensures |Sextets(b)| == (|b| * 4 + 2) / 3
    decreases |b|
  {
    if b != [] {
      SextetsLength(Rest(b, 3));
    }
  }

  lemma {:induction false} SextetsRemainder(b: seq<Byte>)
    ensures |Sextets(b)| % 4 == if |b| % 3 == 0 then 0 else |b| % 3 + 1
    decreases |b|
  {
    if b != [] {
      SextetsRemainder(Rest(b, 3));
    }
  }

  /** Four symbols for every started group of three bytes. */
  lemma EncodingLength(b: seq<Byte>)
    ensures |Encoding(b)| == 4 * ((|b| + 2) / 3)
  {
    SextetsLength(b);
    PaddedLength(|b|);
  }

  lemma PaddedLength(n: nat)
    ensures (n * 4 + 2) / 3 + |Padding(n)| == 4 * ((n + 2) / 3)
  {
    var g, r := n / 3, n % 3;
    assert n == 3 * g + r;
  }

  // ---------------------------------------------------------------------------------------------
  // Text to sextets to bytes

  /** The sextets before the first padding or invalid character, line feeds skipped. */
  function Scan(s: Text): seq<Sextet> {
    if s == [] then []
    else match Classify(s[0])
      case Value(v) => [v] + Scan(s[1..])
      case LineFeed => Scan(s[1..])
      case Pad => []
      case Bad => []
  }

  /** Every invalid character stands behind a padding character. */
  lemma {:induction false} CleanMeaning(s: Text)
    ensures Clean(s) <==>
              forall i :: 0 <= i < |s| && Classify(s[i]).Bad? ==> exists j :: 0 <= j < i && Classify(s[j]).Pad?
  {
    if s != [] {
      CleanMeaning(s[1..]);
      match Classify(s[0])
      case Pad =>
      case Bad =>
      case _ =>
        CleanShift(s);
    }
  }

  lemma CleanShift(s: Text)
    requires s != [] && !Classify(s[0]).Bad? && !Classify(s[0]).Pad?
    ensures (forall i :: 0 <= i < |s| && Classify(s[i]).Bad? ==> exists j :: 0 <= j < i && Classify(s[j]).Pad?) <==>
            (forall i :: 0 <= i < |s[1..]| && Classify(s[1..][i]).Bad? ==>
               exists j :: 0 <= j < i && Classify(s[1..][j]).Pad?)
  {
    var t := s[1..];
    if forall i :: 0 <= i < |s| && Classify(s[i]).Bad? ==> exists j :: 0 <= j < i && Classify(s[j]).Pad? {
      forall i | 0 <= i < |t| && Classify(t[i]).Bad?
        ensures exists j :: 0 <= j < i && Classify(t[j]).Pad?
      {
        assert s[i + 1] == t[i];
        var j :| 0 <= j < i + 1 && Classify(s[j]).Pad?;
        assert t[j - 1] == s[j];
      }
    }
    if forall i :: 0 <= i < |t| && Classify(t[i]).Bad? ==> exists j :: 0 <= j < i && Classify(t[j]).Pad? {
      forall i | 0 <= i < |s| && Classify(s[i]).Bad?
        ensures exists j :: 0 <= j < i && Classify(s[j]).Pad?
      {
        assert t[i - 1] == s[i];
        var j :| 0 <= j < i - 1 && Classify(t[j]).Pad?;
        assert s[j + 1] == t[j];
      }
    }
  }

  /** No invalid character before the first padding character. */
  predicate Clean(s: Text) {
    s == [] ||
    match Classify(s[0])
    case Value(_) => Clean(s[1..])
    case LineFeed => Clean(s[1..])
    case Pad => true
    case Bad => false
  }

  /** The bytes of the first group of at most four sextets; left-over bits are dropped. */
  function GroupBytes(q: seq<Sextet>): (b: seq<Byte>)
    requires |q| >= 2
    ensures |b| == if |q| == 2 then 1 else if |q| == 3 then 2 else 3
  {
    if |q| == 2 then [FirstByte(q[0], q[1])]
    else if |q| == 3 then [FirstByte(q[0], q[1]), SecondByte(q[1], q[2])]
    else [FirstByte(q[0], q[1]), SecondByte(q[1], q[2]), ThirdByte(q[2], q[3])]
  }

  function Bytes(q: seq<Sextet>): seq<Byte>
    decreases |q|
  {
    if |q| < 2 then [] else GroupBytes(q) + Bytes(Rest(q, 4))
  }

  function DecodedLength(k: nat): nat {
    3 * (k / 4) + (if k % 4 == 2 then 1 else if k % 4 == 3 then 2 else 0)
  }

  lemma Quarters(n: nat, whole: nat, more: nat)
    requires n == 4 * whole + more
    ensures more < 4 ==> n / 4 == whole && n % 4 == more
    ensures more >= 4 ==> n / 4 > whole
  {
  }

  lemma {:induction false} BytesLength(q: seq<Sextet>)
    ensures |Bytes(q)| == DecodedLength(|q|)
    decreases |q|
  {
    if |q| >= 2 {
      BytesLength(Rest(q, 4));
    }
  }

  lemma {:induction false} BytesAppend(a: seq<Sextet>, b: seq<Sextet>)
    requires |a| % 4 == 0
    ensures Bytes(a + b) == Bytes(a) + Bytes(b)
    decreases |a|
  {
    if a == [] {
      assert a + b == b;
    } else {
      var rest := Rest(a, 4);
      assert Rest(a + b, 4) == rest + b;
      BytesAppend(rest, b);
      assert GroupBytes(a + b) == GroupBytes(a);
    }
  }

  // ---------------------------------------------------------------------------------------------
  // Round trips

  lemma BytesOfGroup(b: seq<Byte>)
    requires b != []
    ensures GroupBytes(GroupSextets(b)) == if |b| <= 3 then b else b[..3]
  {
    BytesBack(b[0], if |b| > 1 then b[1] else 0, if |b| > 2 then b[2] else 0);
  }

  lemma BytesBack(a: Byte, b: Byte, c: Byte)
    ensures FirstByte(FirstSextet(a), SecondSextet(a, b)) == a
    ensures SecondByte(SecondSextet(a, b), ThirdSextet(b, c)) == b
    ensures ThirdByte(ThirdSextet(b, c), FourthSextet(c)) == c
  {
  }

  lemma {:induction false} BytesOfSextets(b: seq<Byte>)
    ensures Bytes(Sextets(b)) == b
    decreases |b|
  {
    if b != [] {
      var g, rest := GroupSextets(b), Sextets(Rest(b, 3));
      BytesOfGroup(b);
      BytesOfSextets(Rest(b, 3));
      assert |b| < 3 ==> rest == [];
      assert Rest(g + rest, 4) == rest;
      assert GroupBytes(g + rest) == GroupBytes(g) by {
        assert |b| < 3 ==> g + rest == g;
      }
    }
  }

  lemma {:induction false} ScanSymbols(q: seq<Sextet>, t: Text)
    ensures Scan(Chars(q) + t) == q + Scan(t)
    ensures Clean(Chars(q) + t) == Clean(t)
  {
    if q == [] {
      assert Chars(q) + t == t;
    } else {
      SymbolsAreClassified(q[0]);
      assert Chars(q)[1..] == Chars(q[1..]);
      assert (Chars(q) + t)[1..] == Chars(q[1..]) + t;
      ScanSymbols(q[1..], t);
      assert [q[0]] + (q[1..] + Scan(t)) == q + Scan(t);
    }
  }

  lemma ScanEncoding(b: seq<Byte>)
    ensures Scan(Encoding(b)) == Sextets(b) && Clean(Encoding(b))
  {
    ScanSymbols(Sextets(b), Padding(|b|));
    assert Padding(|b|) != [] ==> Classify(Padding(|b|)[0]) == Pad;
    assert Sextets(b) + [] == Sextets(b);
  }

  function WithoutLineFeeds(s: Text): Text {
    if s == [] then [] else (if s[0] == NEW_LINE then [] else [s[0]]) + WithoutLineFeeds(s[1..])
  }

  lemma {:induction false} LineFeedsDoNotMatter(s: Text)
    ensures Scan(s) == Scan(WithoutLineFeeds(s)) && Clean(s) == Clean(WithoutLineFeeds(s))
  {
    if s != [] {
      var rest := WithoutLineFeeds(s[1..]);
      LineFeedsDoNotMatter(s[1..]);
      if s[0] == NEW_LINE {
        assert [] + rest == rest;
      } else {
        assert ([s[0]] + rest)[1..] == rest;
      }
    }
  }

  lemma {:induction false} LineFeedOrKept(s: Text, i: nat)
    requires i < |s|
    ensures s[i] == NEW_LINE || s[i] in WithoutLineFeeds(s)
  {
    if i > 0 {
      LineFeedOrKept(s[1..], i - 1);
    }
  }

  lemma EncodingIsAscii(b: seq<Byte>, i: nat)
    requires i < |Encoding(b)|
    ensures Encoding(b)[i] < 128
  {
    if i < |Sextets(b)| {
      assert Encoding(b)[i] == Symbol(Sextets(b)[i]);
    } else {
      assert Encoding(b)[i] == Padding(|b|)[i - |Sextets(b)|];
    }
  }

  lemma TextIsAscii(b: seq<Byte>, text: Text)
    requires WithoutLineFeeds(text) == Encoding(b)
    ensures forall i :: 0 <= i < |text| ==> text[i] < 128
  {
    forall i | 0 <= i < |text|
      ensures text[i] < 128
    {
      LineFeedOrKept(text, i);
      if text[i] != NEW_LINE {
        var j :| 0 <= j < |Encoding(b)| && Encoding(b)[j] == text[i];
        EncodingIsAscii(b, j);
      }
    }
  }

  /** Decoding an encoding returns the bytes, wherever line feeds were put into the text. */
  lemma DecodeEncode(b: seq<Byte>, text: Text)
    requires WithoutLineFeeds(text) == Encoding(b)
    ensures Clean(text) && Bytes(Scan(text)) == b
  {
    LineFeedsDoNotMatter(text);
    ScanEncoding(b);
    BytesOfSextets(b);
  }

  // ---------------------------------------------------------------------------------------------
  // Canonical texts (section 3.5 of RFC 4648)

  /** Padding characters at the end of a text, at most two of them. */
  function PadCount(s: Text): (n: nat)
    ensures n <= 2 && n <= |s|
  {
    if |s| >= 1 && s[|s| - 1] == EQUALS then (if |s| >= 2 && s[|s| - 2] == EQUALS then 2 else 1) else 0
  }

  /** Whole groups of four, only symbols before at most two padding characters, unused bits zero. */
  predicate Canonical(s: Text) {
    var n := |s| - PadCount(s);
    && |s| % 4 == 0
    && (forall i :: 0 <= i < n ==> Classify(s[i]).Value?)
    && (PadCount(s) == 1 ==> n > 0 && Classify(s[n - 1]).v & 3 == 0)
    && (PadCount(s) == 2 ==> n > 0 && Classify(s[n - 1]).v & 15 == 0)
  }

  /** The sextets of a text made of symbols. */
  function Values(t: Text): (q: seq<Sextet>)
    requires forall i :: 0 <= i < |t| ==> Classify(t[i]).Value?
    ensures |q| == |t| && Chars(q) == t
    ensures forall i :: 0 <= i < |t| ==> q[i] == Classify(t[i]).v
  {
    var q := seq(|t|, i requires 0 <= i < |t| => Classify(t[i]).v);
    assert forall i :: 0 <= i < |t| ==> Symbol(q[i]) == t[i];
    assert Chars(q) == t;
    q
  }

  /** No information is lost in a sequence of sextets whose left-over bits are zero. */
  predicate Tidy(q: seq<Sextet>) {
    && |q| % 4 != 1
    && (|q| % 4 == 2 ==> q[|q| - 1] & 15 == 0)
    && (|q| % 4 == 3 ==> q[|q| - 1] & 3 == 0)
  }

  lemma SextetsOfGroup(q: seq<Sextet>)
    requires |q| >= 4 || ((|q| == 2 || |q| == 3) && Tidy(q))
    ensures GroupSextets(GroupBytes(q)) == if |q| <= 4 then q else q[..4]
  {
  }

  lemma SextetsOfFirst(g: seq<Byte>, r: seq<Byte>)
    requires 0 < |g| <= 3 && (|g| < 3 ==> r == [])
    ensures Sextets(g + r) == GroupSextets(g) + Sextets(r)
  {
    assert |g| < 3 ==> g + r == g;
    assert Rest(g + r, 3) == r;
  }

  /** One group, given that the others come back. */
  lemma GroupComesBack(q: seq<Sextet>, rest: seq<Byte>)
    requires Tidy(q) && q != [] && rest == Bytes(Rest(q, 4)) && Sextets(rest) == Rest(q, 4)
    ensures Sextets(GroupBytes(q) + rest) == q
  {
    SextetsOfGroup(q);
    SextetsOfFirst(GroupBytes(q), rest);
    assert |q| > 4 ==> q[..4] + q[4..] == q;
  }

  lemma {:induction false} SextetsOfBytes(q: seq<Sextet>)
    requires Tidy(q)
    ensures Sextets(Bytes(q)) == q
    decreases |q|
  {
    if q != [] {
      SextetsOfBytes(Rest(q, 4));
      GroupComesBack(q, Bytes(Rest(q, 4)));
    }
  }

  lemma GroupBeforeTidy(g: seq<Sextet>, rest: seq<Sextet>)
    requires |g| == 4 && rest != [] && Tidy(rest)
    ensures Tidy(g + rest)
  {
    assert (g + rest)[|g + rest| - 1] == rest[|rest| - 1];
  }

  lemma {:induction false} SextetsTidy(b: seq<Byte>)
    ensures Tidy(Sextets(b))
    decreases |b|
  {
    if b != [] {
      var g, rest := GroupSextets(b), Sextets(Rest(b, 3));
      SextetsTidy(Rest(b, 3));
      if rest == [] {
        assert Sextets(b) == g;
      } else {
        GroupBeforeTidy(g, rest);
      }
    }
  }

  lemma EncodingPadCount(b: seq<Byte>)
    ensures PadCount(Encoding(b)) == |Padding(|b|)|
  {
    var q, pad := Sextets(b), Padding(|b|);
    var s := Chars(q) + pad;
    SextetsLength(b);
    assert forall i :: 0 <= i < |q| ==> s[i] == Symbol(q[i]);
    if q != [] {
      SymbolsAreClassified(q[|q| - 1]);
    }
  }

  lemma SymbolsOfEncoding(b: seq<Byte>, i: nat)
    requires i < |Sextets(b)|
    ensures Classify(Encoding(b)[i]) == Value(Sextets(b)[i])
  {
    SymbolsAreClassified(Sextets(b)[i]);
  }

  lemma EncodingSymbols(b: seq<Byte>)
    ensures forall i :: 0 <= i < |Sextets(b)| ==> Classify(Encoding(b)[i]).Value?
  {
    forall i | 0 <= i < |Sextets(b)|
      ensures Classify(Encoding(b)[i]).Value?
    {
      SymbolsOfEncoding(b, i);
    }
  }

  lemma EncodingTail(b: seq<Byte>)
    requires b != []
    ensures var q := Sextets(b);
            && q != []
            && (|Padding(|b|)| == 1 ==> q[|q| - 1] & 3 == 0)
            && (|Padding(|b|)| == 2 ==> q[|q| - 1] & 15 == 0)
  {
    SextetsTidy(b);
    SextetsRemainder(b);
  }

  lemma EncodingQuarters(b: seq<Byte>)
    ensures |Encoding(b)| % 4 == 0
  {
    EncodingLength(b);
    Quarters(|Encoding(b)|, (|b| + 2) / 3, 0);
  }

  lemma EncodingIsCanonical(b: seq<Byte>)
    ensures Canonical(Encoding(b))
  {
    var s, q := Encoding(b), Sextets(b);
    EncodingQuarters(b);
    EncodingPadCount(b);
    EncodingSymbols(b);
    assert |s| - PadCount(s) == |q|;
    if b != [] {
      EncodingTail(b);
      SymbolsOfEncoding(b, |q| - 1);
    }
  }

  lemma DecodedThirds(n: nat)
    ensures n % 4 == 0 ==> DecodedLength(n) % 3 == 0
    ensures n % 4 == 2 ==> DecodedLength(n) % 3 == 1
    ensures n % 4 == 3 ==> DecodedLength(n) % 3 == 2
  {
    assert (3 * (n / 4)) % 3 == 0;
  }

  lemma TakenFromQuarters(n: nat, pad: nat)
    requires pad <= n && pad <= 2 && n % 4 == 0
    ensures (n - pad) % 4 == if pad == 0 then 0 else 4 - pad
  {
    if n > 0 {
      Quarters(n - pad, if pad == 0 then n / 4 else n / 4 - 1, if pad == 0 then 0 else 4 - pad);
    }
  }

  /** The symbols of a canonical text and the padding behind them. */
  lemma CanonicalParts(s: Text)
    requires Canonical(s)
    ensures var n := |s| - PadCount(s);
            && Tidy(Values(s[..n]))
            && s == Chars(Values(s[..n])) + s[n..]
            && s[n..] == Padding(DecodedLength(n))
  {
    var n := |s| - PadCount(s);
    DecodedThirds(n);
    TakenFromQuarters(|s|, PadCount(s));
    assert s == s[..n] + s[n..];
  }

  lemma CanonicalText(s: Text)
    requires Canonical(s)
    ensures Clean(s) && Encoding(Bytes(Scan(s))) == s
  {
    var n := |s| - PadCount(s);
    CanonicalParts(s);
    var q, pad := Values(s[..n]), s[n..];
    ScanSymbols(q, pad);
    assert Scan(pad) == [] && Clean(pad);
    assert q + [] == q;
    SextetsOfBytes(q);
    BytesLength(q);
  }

  /** A text survives decoding and encoding exactly if it is canonical. */
  lemma EncodeDecode(s: Text)
    ensures Canonical(s) <==> Clean(s) && Encoding(Bytes(Scan(s))) == s
  {
    if Canonical(s) {
      CanonicalText(s);
    }
    if Encoding(Bytes(Scan(s))) == s {
      EncodingIsCanonical(Bytes(Scan(s)));
    }
  }
}
