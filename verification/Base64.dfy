/** The Base64 encoder and decoder, with their buffer checks. */
module Base64 {
  import opened Base64Spec

  datatype Error = Success | InvalidData | BufferTooSmall

  function Min(a: nat, b: nat): nat { if a < b then a else b }

  // ---------------------------------------------------------------------------------------------
  // Encoder

  lemma Cut(n: bv32, a: Byte, b: Byte, c: Byte)
    requires n == ((a as bv32) << 16) + ((b as bv32) << 8) + (c as bv32)
    ensures ((n >> 18) & 63) as Sextet == FirstSextet(a)
    ensures ((n >> 12) & 63) as Sextet == SecondSextet(a, b)
    ensures ((n >> 6) & 63) as Sextet == ThirdSextet(b, c)
    ensures (n & 63) as Sextet == FourthSextet(c)
  {
  }

  lemma SymbolsStep(b: seq<Byte>)
    requires b != []
    ensures Chars(Sextets(b)) == Chars(GroupSextets(b)) + Chars(Sextets(Rest(b, 3)))
  {
  }

  /** The first n elements are those of the text, the others are as before. */
  predicate Wrote(now: seq<bv8>, before: seq<bv8>, text: seq<bv8>, n: nat) {
    && |now| == |before| && n <= |text| && n <= |now|
    && now == text[..n] + before[n..]
  }

  lemma WroteOne(now: seq<bv8>, before: seq<bv8>, text: seq<bv8>, n: nat)
    requires Wrote(now, before, text, n) && n < |text| && n < |now|
    ensures Wrote(now[n := text[n]], before, text, n + 1)
  {
  }

  /** Puts down pieces that come next in the text, each after the check that there is room for it. */
  method Put(out: array<bv8>, outSize: nat, at: nat, piece: seq<bv8>, ghost before: seq<bv8>, ghost text: seq<bv8>)
      returns (end: nat, ok: bool)
    requires at <= outSize <= out.Length && Wrote(out[..], before, text, at)
    requires piece <= text[at..]
    modifies out
    ensures Wrote(out[..], before, text, end)
    ensures end == Min(at + |piece|, outSize) && (ok <==> at + |piece| <= outSize)
  {
    for i := 0 to |piece|
      invariant at + i <= outSize && Wrote(out[..], before, text, at + i)
    {
      if at + i >= outSize {
        return at + i, false;
      }
      assert piece[i] == text[at..][i];
      WroteOne(out[..], before, text, at + i);
      out[at + i] := piece[i];
    }
    return at + |piece|, true;
  }

  /** The symbols of the group of bytes at x. */
  method GroupSymbols(input: seq<Byte>, x: nat) returns (s: Text)
    requires x < |input|
    ensures s == Chars(GroupSextets(input[x..]))
  {
    var n := (input[x] as bv32) << 16;
    ghost var b, c := 0, 0;
    if x + 1 < |input| {
      n, b := n + ((input[x + 1] as bv32) << 8), input[x + 1];
    }
    if x + 2 < |input| {
      n, c := n + (input[x + 2] as bv32), input[x + 2];
    }
    Cut(n, input[x], b, c);
    var n0, n1 := ((n >> 18) & 63) as Sextet, ((n >> 12) & 63) as Sextet;
    var n2, n3 := ((n >> 6) & 63) as Sextet, (n & 63) as Sextet;
    var q := [n0, n1] + (if x + 1 < |input| then [n2] else []) + (if x + 2 < |input| then [n3] else []);
    return Chars(q);
  }

  /** The main loop: three bytes at a time become four symbols.  `later` is what follows the symbols. */
  method PutSymbols(input: seq<Byte>, out: array<Char>, outSize: nat, ghost later: Text) returns (index: nat, ok: bool)
    requires outSize <= out.Length
    modifies out
    ensures var n := |Sextets(input)|;
            && Wrote(out[..], old(out[..]), Chars(Sextets(input)) + later, index)
            && index == Min(n, outSize) && (ok <==> n <= outSize)
  {
    ghost var text := Chars(Sextets(input)) + later;
    ghost var before := out[..];
    index, ok := 0, true;
    var x := 0;
    while x < |input|
      invariant index <= outSize && Wrote(out[..], before, text, index)
      invariant text[index..] == Chars(Sextets(From(input, x))) + later
      invariant index + |Sextets(From(input, x))| == |Sextets(input)|
    {
      ghost var rest := From(input, x);
      ghost var start := index;
      var s := GroupSymbols(input, x);
      SymbolsStep(rest);
      PieceNext(text, start, s, Chars(Sextets(Rest(rest, 3))), later);
      index, ok := Put(out, outSize, index, s, before, text);
      if !ok {
        return;
      }
      x := x + 3;
    }
  }

  /** The bytes from x on. */
  function From(input: seq<Byte>, x: nat): seq<Byte> {
    if x < |input| then input[x..] else []
  }

  lemma PieceNext(text: Text, at: nat, piece: Text, more: Text, later: Text)
    requires at <= |text| && text[at..] == piece + more + later
    ensures piece <= text[at..] && at + |piece| <= |text| && text[at + |piece|..] == more + later
  {
    assert piece + more + later == piece + (more + later);
    assert text[at..][|piece|..] == text[at + |piece|..];
  }

  method PutPadding(size: nat, out: array<Char>, outSize: nat, at: nat, ghost before: Text, ghost text: Text)
      returns (index: nat, ok: bool)
    requires at <= outSize <= out.Length && Wrote(out[..], before, text, at)
    requires text[at..] == Padding(size) + [ZERO]
    modifies out
    ensures Wrote(out[..], before, text, index)
    ensures index == Min(|text| - 1, outSize) && (ok <==> |text| - 1 <= outSize)
  {
    index, ok := at, true;
    var padCount := size % 3;
    if padCount > 0 {
      while padCount < 3
        invariant padCount <= 3 && at <= index <= outSize && index + 4 - padCount == |text|
        invariant Wrote(out[..], before, text, index)
      {
        assert text[index] == text[at..][index - at] == EQUALS;
        index, ok := Put(out, outSize, index, [EQUALS], before, text);
        if !ok {
          return;
        }
        padCount := padCount + 1;
      }
    }
  }

  /** Succeeds exactly when the text and its terminating zero fit, and then writes exactly those; otherwise
      it writes as much of them as fits. */
  method Encode(input: seq<Byte>, out: array<Char>, outSize: nat) returns (err: Error)
    requires outSize <= out.Length
    modifies out
    ensures err == if outSize > 4 * ((|input| + 2) / 3) then Success else BufferTooSmall
    ensures var text := Encoding(input) + [ZERO]; Wrote(out[..], old(out[..]), text, Min(|text|, outSize))
  {
    EncodingLength(input);
    ghost var before := out[..];
    ghost var symbols, later := Chars(Sextets(input)), Padding(|input|) + [ZERO];
    ghost var text := symbols + later;
    assert text == Encoding(input) + [ZERO];
    var index, ok := PutSymbols(input, out, outSize, later);
    if !ok {
      return BufferTooSmall;
    }
    index, ok := PutPadding(|input|, out, outSize, index, before, text);
    if !ok {
      return BufferTooSmall;
    }
    index, ok := Put(out, outSize, index, [ZERO], before, text);
    return if ok then Success else BufferTooSmall;
  }

  // ---------------------------------------------------------------------------------------------
  // Decoder

  /** The sextets collected in the decoder's buffer. */
  function Packed(t: seq<Sextet>): bv32 {
    if t == [] then 0 else (Packed(t[..|t| - 1]) << 6) | (t[|t| - 1] as bv32)
  }

  /** A last group, or a full one on its own. */
  lemma OneGroup(t: seq<Sextet>)
    requires 2 <= |t| <= 4
    ensures Bytes(t) == GroupBytes(t)
  {
    assert Rest(t, 4) == [];
    assert GroupBytes(t) + [] == GroupBytes(t);
  }

  lemma PackedTwo(t: seq<Sextet>)
    requires |t| == 2
    ensures Packed(t) == ((t[0] as bv32) << 6) | (t[1] as bv32)
  {
    assert t[..1][..0] == [] && t[..1][0] == t[0];
    assert Packed(t[..1]) == (t[0] as bv32);
  }

  lemma UnpackTwo(t: seq<Sextet>)
    requires |t| == 2
    ensures [((Packed(t) >> 4) & 0xff) as Byte] == Bytes(t)
  {
    PackedTwo(t);
    OneGroup(t);
  }

  lemma PackedThree(t: seq<Sextet>)
    requires |t| == 3
    ensures Packed(t) == ((((t[0] as bv32) << 6) | (t[1] as bv32)) << 6) | (t[2] as bv32)
  {
    PackedTwo(t[..2]);
  }

  lemma UnpackThree(t: seq<Sextet>)
    requires |t| == 3
    ensures [((Packed(t) >> 10) & 0xff) as Byte, ((Packed(t) >> 2) & 0xff) as Byte] == Bytes(t)
  {
    PackedThree(t);
    OneGroup(t);
  }

  lemma UnpackFour(t: seq<Sextet>)
    requires |t| == 4
    ensures var n := Packed(t);
            [((n >> 16) & 0xff) as Byte, ((n >> 8) & 0xff) as Byte, (n & 0xff) as Byte] == Bytes(t)
  {
    PackedThree(t[..3]);
    OneGroup(t);
  }

  /** What decoding reports, in terms of the number k of symbols before the first padding or invalid
      character: full groups are checked against the capacity as they come, the last bytes at the end. */
  function Verdict(s: Text, capacity: nat): Error {
    var k := |Scan(s)|;
    if 3 * (k / 4) > capacity then BufferTooSmall
    else if !Clean(s) then InvalidData
    else if DecodedLength(k) > capacity then BufferTooSmall
    else Success
  }

  lemma Collected(tail: seq<Sextet>, v: Sextet, later: seq<Sextet>)
    ensures tail + ([v] + later) == tail + [v] + later
    ensures Packed(tail + [v]) == (Packed(tail) << 6) | (v as bv32)
  {
    assert (tail + [v])[..|tail|] == tail;
  }

  /** A full buffer gives the next three bytes. */
  lemma GroupDone(bytes: seq<Byte>, len: nat, tail: seq<Sextet>, later: seq<Sextet>)
    requires |tail| == 4 && len <= |bytes| && bytes[len..] == Bytes(tail + later)
    ensures |Bytes(tail)| == 3 && Bytes(tail) <= bytes[len..]
    ensures len + 3 <= |bytes| && bytes[len + 3..] == Bytes(later)
  {
    BytesAppend(tail, later);
    BytesLength(tail);
    assert bytes[len..][3..] == bytes[len + 3..];
  }

  /** Splits a full buffer into three bytes, if they fit. */
  method PutGroup(out: array<Byte>, len: nat, capacity: nat, buf: bv32, ghost tail: seq<Sextet>,
                  ghost later: seq<Sextet>, ghost before: seq<Byte>, ghost bytes: seq<Byte>)
      returns (ok: bool)
    requires len <= capacity <= out.Length && |tail| == 4 && buf == Packed(tail)
    requires Wrote(out[..], before, bytes, len) && bytes[len..] == Bytes(tail + later)
    modifies out
    ensures ok <==> len + 3 <= capacity
    ensures Wrote(out[..], before, bytes, if ok then len + 3 else len)
    ensures len + 3 <= |bytes| && bytes[len + 3..] == Bytes(later)
  {
    GroupDone(bytes, len, tail, later);
    if len + 3 > capacity {
      return false;
    }
    UnpackFour(tail);
    var end;
    end, ok := Put(out, capacity, len,
                   [((buf >> 16) & 0xff) as Byte, ((buf >> 8) & 0xff) as Byte, (buf & 0xff) as Byte],
                   before, bytes);
  }

  /** Takes one value into the buffer, and splits the buffer when it is full. */
  method Collect(v: Sextet, out: array<Byte>, capacity: nat, len0: nat, buf0: bv32, iter0: nat, ghost tail0: seq<Sextet>,
                 ghost later: seq<Sextet>, ghost before: seq<Byte>, ghost bytes: seq<Byte>)
      returns (ok: bool, len: nat, buf: bv32, iter: nat, ghost tail: seq<Sextet>)
    requires len0 <= capacity <= out.Length && |tail0| == iter0 < 4 && buf0 == Packed(tail0)
    requires Wrote(out[..], before, bytes, len0) && bytes[len0..] == Bytes(tail0 + ([v] + later))
    modifies out
    ensures len <= capacity && Wrote(out[..], before, bytes, len)
    ensures !ok ==> iter0 == 3 && len0 + 3 > capacity
    ensures ok ==> |tail| == iter && buf == Packed(tail) && bytes[len..] == Bytes(tail + later)
    ensures ok ==> if iter0 == 3 then iter == 0 && len == len0 + 3 else iter == iter0 + 1 && len == len0
  {
    Collected(tail0, v, later);
    ok, len, buf, iter, tail := true, len0, (buf0 << 6) | (v as bv32), iter0 + 1, tail0 + [v];
    if iter == 4 {
      ok := PutGroup(out, len, capacity, buf, tail, later, before, bytes);
      if ok {
        len, tail, buf, iter := len + 3, [], 0, 0;
        assert [] + later == later;
      }
    }
  }

  lemma InvalidVerdict(input: Text, capacity: nat, groups: nat, more: nat)
    requires !Clean(input) && |Scan(input)| == 4 * groups + more && more < 4 && 3 * groups <= capacity
    ensures Verdict(input, capacity) == InvalidData
  {
    Quarters(|Scan(input)|, groups, more);
  }

  lemma SmallVerdict(input: Text, capacity: nat, groups: nat, i: nat)
    requires Ahead(input, i, 4 * groups + 4) && 3 * groups + 3 > capacity
    ensures Verdict(input, capacity) == BufferTooSmall
  {
    Quarters(|Scan(input)|, groups, 4 + |Scan(input[i..])|);
  }

  /** One character further: what is left to scan is what the rest of the input gives. */
  lemma ScanStep(input: Text, i: nat)
    requires i < |input|
    ensures match Classify(input[i])
            case Value(v) => Scan(input[i..]) == [v] + Scan(input[i + 1..]) && Clean(input[i..]) == Clean(input[i + 1..])
            case LineFeed => Scan(input[i..]) == Scan(input[i + 1..]) && Clean(input[i..]) == Clean(input[i + 1..])
            case Pad => Scan(input[i..]) == [] && Clean(input[i..])
            case Bad => Scan(input[i..]) == [] && !Clean(input[i..])
  {
    assert input[i..][1..] == input[i + 1..];
  }

  /** After i characters, `taken` values have been read and nothing was invalid. */
  ghost predicate Ahead(input: Text, i: nat, taken: nat) {
    i <= |input| && |Scan(input)| == taken + |Scan(input[i..])| && Clean(input) == Clean(input[i..])
  }

  lemma AheadStep(input: Text, i: nat, taken: nat)
    requires i < |input| && Ahead(input, i, taken)
    ensures match Classify(input[i])
            case Value(v) => Scan(input[i..]) == [v] + Scan(input[i + 1..]) && Ahead(input, i + 1, taken + 1)
            case LineFeed => Scan(input[i..]) == Scan(input[i + 1..]) && Ahead(input, i + 1, taken)
            case Pad => Scan(input[i..]) == Scan(input[|input|..]) && Ahead(input, |input|, taken)
            case Bad => !Clean(input) && |Scan(input)| == taken
  {
    ScanStep(input, i);
    assert input[|input|..] == [];
  }

  /** The decoded bytes up to len are written, and the others are those of the buffer and the rest of the input. */
  ghost predicate Progress(now: seq<Byte>, before: seq<Byte>, input: Text, i: nat, len: nat, tail: seq<Sextet>) {
    && i <= |input| && Wrote(now, before, Bytes(Scan(input)), len)
    && Bytes(Scan(input))[len..] == Bytes(tail + Scan(input[i..]))
  }

  lemma ProgressStep(now: seq<Byte>, before: seq<Byte>, input: Text, i: nat, len: nat, tail: seq<Sextet>)
    requires i < |input| && Progress(now, before, input, i, len, tail)
    ensures Classify(input[i]).LineFeed? ==> Progress(now, before, input, i + 1, len, tail)
    ensures Classify(input[i]).Pad? ==> Progress(now, before, input, |input|, len, tail)
  {
    ScanStep(input, i);
    assert input[|input|..] == [];
  }

  /** Between two characters: so many groups are written, `tail` is in the buffer. */
  ghost predicate Decoding(input: Text, capacity: nat, before: seq<Byte>, now: seq<Byte>, i: nat, groups: nat,
                           len: nat, buf: bv32, iter: nat, tail: seq<Sextet>) {
    && len == 3 * groups <= capacity && |tail| == iter < 4 && buf == Packed(tail)
    && Ahead(input, i, 4 * groups + |tail|) && Progress(now, before, input, i, len, tail)
  }

  lemma DecodingStarts(input: Text, capacity: nat, before: seq<Byte>)
    ensures Decoding(input, capacity, before, before, 0, 0, 0, 0, 0, [])
  {
    assert input[0..] == input && [] + Scan(input) == Scan(input);
  }

  lemma DecodingSkips(input: Text, capacity: nat, before: seq<Byte>, now: seq<Byte>, i: nat, groups: nat,
                      len: nat, buf: bv32, iter: nat, tail: seq<Sextet>)
    requires i < |input| && Decoding(input, capacity, before, now, i, groups, len, buf, iter, tail)
    ensures Classify(input[i]).LineFeed? ==> Decoding(input, capacity, before, now, i + 1, groups, len, buf, iter, tail)
    ensures Classify(input[i]).Pad? ==> Decoding(input, capacity, before, now, |input|, groups, len, buf, iter, tail)
    ensures Classify(input[i]).Bad? ==> Verdict(input, capacity) == InvalidData
  {
    AheadStep(input, i, 4 * groups + |tail|);
    ProgressStep(now, before, input, i, len, tail);
    if Classify(input[i]).Bad? {
      InvalidVerdict(input, capacity, groups, |tail|);
    }
  }

  lemma DecodingEnds(input: Text, capacity: nat, before: seq<Byte>, now: seq<Byte>, groups: nat,
                     len: nat, buf: bv32, iter: nat, tail: seq<Sextet>)
    requires Decoding(input, capacity, before, now, |input|, groups, len, buf, iter, tail)
    ensures Clean(input) && len == 3 * (|Scan(input)| / 4) && |Scan(input)| % 4 == |tail|
    ensures Bytes(Scan(input))[len..] == Bytes(tail)
  {
    assert input[|input|..] == [] && tail + [] == tail;
    Quarters(|Scan(input)|, groups, |tail|);
  }

  /** Takes the value at i into the buffer. */
  method CollectAt(input: Text, i: nat, out: array<Byte>, capacity: nat, len0: nat, buf0: bv32, iter0: nat,
                   ghost tail0: seq<Sextet>, ghost before: seq<Byte>, ghost groups0: nat)
      returns (ok: bool, len: nat, buf: bv32, iter: nat, ghost tail: seq<Sextet>, ghost groups: nat)
    requires i < |input| && Classify(input[i]).Value? && capacity <= out.Length
    requires Decoding(input, capacity, before, out[..], i, groups0, len0, buf0, iter0, tail0)
    modifies out
    ensures len <= capacity && Wrote(out[..], before, Bytes(Scan(input)), len)
    ensures ok ==> Decoding(input, capacity, before, out[..], i + 1, groups, len, buf, iter, tail)
    ensures !ok ==> Verdict(input, capacity) == BufferTooSmall
  {
    AheadStep(input, i, 4 * groups0 + |tail0|);
    ok, len, buf, iter, tail :=
      Collect(Classify(input[i]).v, out, capacity, len0, buf0, iter0, tail0, Scan(input[i + 1..]), before, Bytes(Scan(input)));
    groups := if iter0 == 3 then groups0 + 1 else groups0;
    if !ok {
      SmallVerdict(input, capacity, groups0, i + 1);
    }
  }

  /** The decoder's main loop; `tail` are the sextets in the buffer at its end. */
  method DecodeGroups(input: Text, out: array<Byte>, capacity: nat)
      returns (err: Error, len: nat, buf: bv32, iter: nat, ghost tail: seq<Sextet>)
    requires capacity <= out.Length
    modifies out
    ensures len <= capacity && Wrote(out[..], old(out[..]), Bytes(Scan(input)), len)
    ensures err.Success? ==>
              && Clean(input) && len == 3 * (|Scan(input)| / 4) && |Scan(input)| % 4 == |tail|
              && |tail| == iter < 4 && buf == Packed(tail) && Bytes(Scan(input))[len..] == Bytes(tail)
    ensures !err.Success? ==> err == Verdict(input, capacity)
  {
    ghost var before, groups := out[..], 0;
    len, buf, iter, tail := 0, 0, 0, [];
    var i := 0;
    DecodingStarts(input, capacity, before);
    while i < |input|
      invariant i <= |input| && Decoding(input, capacity, before, out[..], i, groups, len, buf, iter, tail)
    {
      DecodingSkips(input, capacity, before, out[..], i, groups, len, buf, iter, tail);
      match Classify(input[i])
      case LineFeed =>
        i := i + 1;
      case Bad =>
        return InvalidData, len, buf, iter, tail;
      case Pad =>
        i := |input|;
      case Value(_) =>
        var ok;
        ok, len, buf, iter, tail, groups := CollectAt(input, i, out, capacity, len, buf, iter, tail, before, groups);
        i := i + 1;
        if !ok {
          return BufferTooSmall, len, buf, iter, tail;
        }
    }
    DecodingEnds(input, capacity, before, out[..], groups, len, buf, iter, tail);
    err := Success;
  }

  /** Writes the bytes of an unfinished group, if they fit. */
  method PutLast(out: array<Byte>, at: nat, capacity: nat, buf: bv32, iter: nat, ghost tail: seq<Sextet>,
                 ghost before: seq<Byte>, ghost bytes: seq<Byte>)
      returns (ok: bool, len: nat)
    requires at <= capacity <= out.Length && |tail| == iter < 4 && buf == Packed(tail)
    requires Wrote(out[..], before, bytes, at) && bytes[at..] == Bytes(tail)
    modifies out
    ensures ok <==> |bytes| <= capacity
    ensures len == (if ok then |bytes| else at) && Wrote(out[..], before, bytes, len)
  {
    len := at;
    if iter == 3 {
      UnpackThree(tail);
      if len + 2 > capacity {
        return false, len;
      }
      len, ok := Put(out, capacity, len, [((buf >> 10) & 0xff) as Byte, ((buf >> 2) & 0xff) as Byte], before, bytes);
    } else if iter == 2 {
      UnpackTwo(tail);
      if len + 1 > capacity {
        return false, len;
      }
      len, ok := Put(out, capacity, len, [((buf >> 4) & 0xff) as Byte], before, bytes);
    }
    return true, len;
  }

  /** On success the output starts with the decoded bytes and the reported size is their number; otherwise
      the caller's size is left alone.  Only decoded bytes are written, and never past the capacity. */
  method Decode(input: Text, out: array<Byte>, capacity: nat) returns (err: Error, size: nat)
    requires capacity <= out.Length
    requires forall i :: 0 <= i < |input| ==> input[i] < 128
    modifies out
    ensures err == Verdict(input, capacity)
    ensures err.Success? <==> Clean(input) && DecodedLength(|Scan(input)|) <= capacity
    ensures err.InvalidData? <==> !Clean(input) && 3 * (|Scan(input)| / 4) <= capacity
    ensures err.Success? ==>
              && size == DecodedLength(|Scan(input)|) <= capacity
              && Wrote(out[..], old(out[..]), Bytes(Scan(input)), size)
    ensures !err.Success? ==>
              && size == capacity
              && exists n: nat :: n <= capacity && Wrote(out[..], old(out[..]), Bytes(Scan(input)), n)
  {
    ghost var before := out[..];
    var len, buf, iter;
    ghost var tail;
    err, len, buf, iter, tail := DecodeGroups(input, out, capacity);
    if !err.Success? {
      return err, capacity;
    }
    BytesLength(Scan(input));
    var ok;
    ok, len := PutLast(out, len, capacity, buf, iter, tail, before, Bytes(Scan(input)));
    return if ok then Success else BufferTooSmall, if ok then len else capacity;
  }

  /** Decoding the text of some bytes, with line feeds put in anywhere, gives the bytes back if they fit. */
  method RoundTrip(input: seq<Byte>, text: Text, capacity: nat) returns (result: seq<Byte>)
    requires WithoutLineFeeds(text) == Encoding(input) && capacity >= |input|
    ensures result == input
  {
    DecodeEncode(input, text);
    TextIsAscii(input, text);
    BytesLength(Scan(text));
    var out := new Byte[capacity](_ => 0);
    var err, size := Decode(text, out, capacity);
    assert err.Success?;
    result := out[..size];
  }
}
