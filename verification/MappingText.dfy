/** Mapping texts: guid, controller type, then items "key:input", separated by commas. */
module MappingText {
  import opened MappingSpec

  // ---------------------------------------------------------------------------------------------
  // Splitting

  function Split(s: string, c: char): (parts: seq<string>)
    ensures parts != []
    ensures forall x :: x in parts ==> c !in x
  {
    if s == [] then [[]]
    else
      var rest := Split(s[1..], c);
      if s[0] == c then [[]] + rest
      else
        assert rest[0] in rest;
        [[s[0]] + rest[0]] + rest[1..]
  }

  lemma {:induction false} SplitKeepsOut(s: string, c: char, d: char)
    requires d !in s
    ensures forall x :: x in Split(s, c) ==> d !in x
  {
    if s != [] {
      var rest := Split(s[1..], c);
      SplitKeepsOut(s[1..], c, d);
      assert rest[0] in rest;
    }
  }

  lemma {:induction false} SplitOne(s: string, c: char)
    requires c !in s
    ensures Split(s, c) == [s]
  {
    if s != [] {
      SplitOne(s[1..], c);
      assert [s[0]] + s[1..] == s;
    }
  }

  lemma {:induction false} SplitLast(s: string, c: char, last: string)
    requires c !in last
    ensures Split(s + [c] + last, c) == Split(s, c) + [last]
  {
    var t := s + [c] + last;
    if s == [] {
      assert t[1..] == last;
      SplitOne(last, c);
    } else {
      assert t[1..] == s[1..] + [c] + last;
      SplitLast(s[1..], c, last);
    }
  }

  // ---------------------------------------------------------------------------------------------
  // Parsing

  datatype Item = Item(key: string, inputs: seq<string>)

  /** The item a piece of the text stands for; a piece without a colon is skipped. */
  function ItemsOfPiece(piece: string): seq<Item> {
    var parts := Split(piece, ':');
    if |parts| < 2 then [] else [Item(parts[0], parts[1..])]
  }

  function ItemsOf(pieces: seq<string>): seq<Item> {
    if pieces == [] then []
    else ItemsOf(pieces[..|pieces| - 1]) + ItemsOfPiece(pieces[|pieces| - 1])
  }

  function AllOwnedBy(inverse: Inverse, inputs: seq<string>, key: string): Inverse {
    inverse + map p | p in inputs :: key
  }

  /** An item extends the list of its key, and unless the key is a property of the mapping all inputs in
      the list now belong to it. */
  function Absorb(m: Maps, item: Item): Maps {
    var list := ListAt(m.forward, item.key) + item.inputs;
    Maps(m.forward[item.key := list],
         if IsMeta(item.key) then m.inverse else AllOwnedBy(m.inverse, list, item.key))
  }

  function Absorbed(m: Maps, items: seq<Item>): Maps {
    if items == [] then m else Absorb(Absorbed(m, items[..|items| - 1]), items[|items| - 1])
  }

  const NO_MAPS: Maps := Maps(map[], map[])

  /** All inputs a text binds, as often as it binds them. */
  function Inputs(items: seq<Item>): seq<string> {
    if items == [] then []
    else
      var last := items[|items| - 1];
      Inputs(items[..|items| - 1]) + if IsMeta(last.key) then [] else last.inputs
  }

  lemma NoRepeatsAppend(a: seq<string>, b: seq<string>)
    ensures NoRepeats(a + b) <==> NoRepeats(a) && NoRepeats(b) && (forall p :: p in a ==> p !in b)
  {
    NoRepeatsCount(a);
    NoRepeatsCount(b);
    NoRepeatsCount(a + b);
    forall p
      ensures multiset(a + b)[p] == multiset(a)[p] + multiset(b)[p]
      ensures (p in a <==> multiset(a)[p] > 0) && (p in b <==> multiset(b)[p] > 0)
    {
    }
  }

  /** What the parser builds is exact up to inputs that occur twice. */
  ghost predicate Faithful(m: Maps) {
    && NoEmptyList(m.forward)
    && (forall k, p :: Binds(m.forward, k, p) ==> p in m.inverse)
    && (forall p :: p in m.inverse ==> Binds(m.forward, m.inverse[p], p))
  }

  lemma AbsorbBinds(m: Maps, item: Item)
    ensures forall k, p :: Binds(Absorb(m, item).forward, k, p) <==>
              Binds(m.forward, k, p) || (k == item.key && !IsMeta(k) && p in item.inputs)
  {
  }

  lemma AbsorbIsFaithful(m: Maps, item: Item)
    requires Faithful(m) && item.inputs != []
    ensures Faithful(Absorb(m, item))
  {
    var r := Absorb(m, item);
    AbsorbBinds(m, item);
    forall k, p | Binds(r.forward, k, p)
      ensures p in r.inverse
    {
      assert k != item.key ==> Binds(m.forward, k, p);
    }
    forall p | p in r.inverse
      ensures Binds(r.forward, r.inverse[p], p)
    {
      if p in m.inverse {
        assert Binds(m.forward, m.inverse[p], p);
      }
    }
  }

  lemma FaithfulIsExact(m: Maps)
    requires Faithful(m)
    ensures Exact(m) <==> Unique(m.forward)
  {
    if Unique(m.forward) {
      forall k, p | Binds(m.forward, k, p)
        ensures Owner(m.inverse, p) == k
      {
        assert Binds(m.forward, m.inverse[p], p);
      }
    }
  }

  /** Neither brings an input twice nor one that is bound. */
  ghost predicate Fresh(m: Maps, item: Item) {
    && item.key != ""
    && (!IsMeta(item.key) ==> NoRepeats(item.inputs) && forall k, p :: Binds(m.forward, k, p) ==> p !in item.inputs)
  }

  lemma AbsorbStaysUnique(m: Maps, item: Item)
    requires Unique(m.forward) && Fresh(m, item)
    ensures Unique(Absorb(m, item).forward)
  {
    AbsorbBinds(m, item);
    var old_ := ListAt(m.forward, item.key);
    NoRepeatsAppend(old_, item.inputs);
    assert !IsMeta(item.key) ==> forall p :: p in old_ ==> Binds(m.forward, item.key, p);
  }

  lemma AbsorbNeedsFresh(m: Maps, item: Item)
    requires Unique(Absorb(m, item).forward)
    ensures Unique(m.forward) && Fresh(m, item)
  {
    var r := Absorb(m, item);
    AbsorbBinds(m, item);
    NoRepeatsAppend(ListAt(m.forward, item.key), item.inputs);
    forall k | k in m.forward && !IsMeta(k)
      ensures NoRepeats(m.forward[k])
    {
      assert NoRepeats(r.forward[k]);
    }
    if !IsMeta(item.key) {
      forall k, p | Binds(m.forward, k, p)
        ensures p !in item.inputs
      {
        if p in item.inputs {
          assert Binds(r.forward, item.key, p) && Binds(r.forward, k, p);
        }
      }
    }
  }

  ghost predicate NoEmptyKey(items: seq<Item>) {
    forall i :: 0 <= i < |items| ==> items[i].key != ""
  }

  ghost predicate NoEmptyItem(items: seq<Item>) {
    forall i :: 0 <= i < |items| ==> items[i].inputs != []
  }

  ghost predicate HasInput(f: Forward, p: string) {
    exists k :: Binds(f, k, p)
  }

  lemma AbsorbHasInput(m: Maps, item: Item, p: string)
    ensures HasInput(Absorb(m, item).forward, p) <==>
              HasInput(m.forward, p) || (!IsMeta(item.key) && p in item.inputs)
  {
    var r := Absorb(m, item);
    AbsorbBinds(m, item);
    if HasInput(m.forward, p) {
      var k :| Binds(m.forward, k, p);
      assert Binds(r.forward, k, p);
    }
    if !IsMeta(item.key) && p in item.inputs {
      assert Binds(r.forward, item.key, p);
    }
  }

  lemma {:induction false} AbsorbedHasInput(items: seq<Item>, p: string)
    ensures p in Inputs(items) <==> HasInput(Absorbed(NO_MAPS, items).forward, p)
  {
    if items != [] {
      var init, last := items[..|items| - 1], items[|items| - 1];
      AbsorbedHasInput(init, p);
      AbsorbHasInput(Absorbed(NO_MAPS, init), last, p);
    }
  }

  lemma InputsOnce(items: seq<Item>)
    requires items != []
    ensures var init, last := items[..|items| - 1], items[|items| - 1];
            var m := Absorbed(NO_MAPS, init);
            NoRepeats(Inputs(items)) && last.key != "" <==> NoRepeats(Inputs(init)) && Fresh(m, last)
  {
    var init, last := items[..|items| - 1], items[|items| - 1];
    var m := Absorbed(NO_MAPS, init);
    if IsMeta(last.key) {
      assert Inputs(items) == Inputs(init) + [] == Inputs(init);
    } else {
      NoRepeatsAppend(Inputs(init), last.inputs);
      forall p
        ensures p in Inputs(init) <==> HasInput(m.forward, p)
      {
        AbsorbedHasInput(init, p);
      }
    }
  }

  lemma {:induction false} AbsorbedIsFaithful(items: seq<Item>)
    requires NoEmptyItem(items)
    ensures Faithful(Absorbed(NO_MAPS, items))
  {
    if items != [] {
      AbsorbedIsFaithful(items[..|items| - 1]);
      AbsorbIsFaithful(Absorbed(NO_MAPS, items[..|items| - 1]), items[|items| - 1]);
    }
  }

  lemma EmptyKeys(init: seq<Item>, last: Item)
    ensures NoEmptyKey(init + [last]) <==> NoEmptyKey(init) && last.key != ""
  {
    assert (init + [last])[|init|] == last;
    assert NoEmptyKey(init + [last]) ==> forall i :: 0 <= i < |init| ==> (init + [last])[i] == init[i];
  }

  lemma AbsorbUnique(m: Maps, item: Item)
    ensures Unique(Absorb(m, item).forward) <==> Unique(m.forward) && Fresh(m, item)
  {
    if Unique(Absorb(m, item).forward) {
      AbsorbNeedsFresh(m, item);
    } else if Unique(m.forward) && Fresh(m, item) {
      AbsorbStaysUnique(m, item);
    }
  }

  lemma {:induction false} AbsorbedUnique(items: seq<Item>)
    ensures Unique(Absorbed(NO_MAPS, items).forward) <==> NoEmptyKey(items) && NoRepeats(Inputs(items))
  {
    if items != [] {
      var init, last := items[..|items| - 1], items[|items| - 1];
      assert items == init + [last];
      AbsorbedUnique(init);
      InputsOnce(items);
      EmptyKeys(init, last);
      AbsorbUnique(Absorbed(NO_MAPS, init), last);
    }
  }

  /** A parsed mapping is exact if and only if no input occurs twice and no key is empty. */
  lemma ParsedIsExact(items: seq<Item>)
    requires NoEmptyItem(items)
    ensures Exact(Absorbed(NO_MAPS, items)) <==> NoEmptyKey(items) && NoRepeats(Inputs(items))
  {
    AbsorbedIsFaithful(items);
    AbsorbedUnique(items);
    FaithfulIsExact(Absorbed(NO_MAPS, items));
  }

  lemma {:induction false} ItemsHaveInputs(pieces: seq<string>)
    ensures NoEmptyItem(ItemsOf(pieces))
  {
    if pieces != [] {
      ItemsHaveInputs(pieces[..|pieces| - 1]);
    }
  }

  /** The mapping that a list of pieces describes. */
  function Built(pieces: seq<string>): Maps {
    Absorbed(NO_MAPS, ItemsOf(pieces))
  }

  // ---------------------------------------------------------------------------------------------
  // Printing

  function Field(key: string, input: string): string {
    key + ":" + input
  }

  function KeyFields(key: string, list: seq<string>): (fields: seq<string>)
    ensures |fields| == |list|
  {
    if list == [] then [] else KeyFields(key, list[..|list| - 1]) + [Field(key, list[|list| - 1])]
  }

  function Fields(f: Forward, order: seq<string>): seq<string> {
    if order == [] then []
    else
      var last := order[|order| - 1];
      Fields(f, order[..|order| - 1]) + KeyFields(last, ListAt(f, last))
  }

  function Tail(fields: seq<string>): string {
    if fields == [] then "" else Tail(fields[..|fields| - 1]) + "," + fields[|fields| - 1]
  }

  /** The text the editor saves when it walks the keys in the given order. */
  function Printed(kind: string, f: Forward, order: seq<string>): string {
    kind + Tail(Fields(f, order))
  }

  /** Saved texts get their guid in front before they are handed on. */
  function WithGuid(guid: string, text: string): string {
    guid + "," + text
  }

  // ---------------------------------------------------------------------------------------------
  // Round trip

  predicate Plain(s: string) {
    ',' !in s && ':' !in s
  }

  ghost predicate PlainLists(f: Forward) {
    forall k :: k in f ==> Plain(k) && forall p :: p in f[k] ==> Plain(p)
  }

  lemma BehindComma(s: string, t: string, x: string)
    ensures s + (t + "," + x) == s + t + [','] + x
  {
  }

  lemma {:induction false} SplitTail(s: string, fields: seq<string>)
    requires forall x :: x in fields ==> ',' !in x
    ensures Split(s + Tail(fields), ',') == Split(s, ',') + fields
  {
    if fields == [] {
      assert s + Tail(fields) == s;
    } else {
      var init, last := fields[..|fields| - 1], fields[|fields| - 1];
      assert last in fields;
      SplitTail(s, init);
      BehindComma(s, Tail(init), last);
      SplitLast(s + Tail(init), ',', last);
      assert init + [last] == fields;
    }
  }

  lemma PieceOfField(key: string, input: string)
    requires Plain(key) && Plain(input)
    ensures ItemsOfPiece(Field(key, input)) == [Item(key, [input])]
  {
    SplitOne(key, ':');
    SplitLast(key, ':', input);
  }

  lemma {:induction false} KeyFieldsPlain(key: string, list: seq<string>)
    requires Plain(key) && forall p :: p in list ==> Plain(p)
    ensures forall x :: x in KeyFields(key, list) ==> ',' !in x && ':' in x
  {
    if list != [] {
      assert list[|list| - 1] in list;
      KeyFieldsPlain(key, list[..|list| - 1]);
    }
  }

  lemma {:induction false} FieldsPlain(f: Forward, order: seq<string>)
    requires PlainLists(f) && forall k :: k in order ==> k in f
    ensures forall x :: x in Fields(f, order) ==> ',' !in x && ':' in x
  {
    if order != [] {
      var last := order[|order| - 1];
      FieldsPlain(f, order[..|order| - 1]);
      assert last in order;
      KeyFieldsPlain(last, f[last]);
    }
  }

  /** A list of inputs added to what a key has. */
  function Extended(f: Forward, key: string, list: seq<string>): Forward {
    if list == [] then f else f[key := ListAt(f, key) + list]
  }

  lemma ExtendedByOne(m: Maps, f: Forward, key: string, init: seq<string>, last: string)
    requires m.forward == Extended(f, key, init)
    ensures Absorb(m, Item(key, [last])).forward == Extended(f, key, init + [last])
  {
    assert ListAt(f, key) + init + [last] == ListAt(f, key) + (init + [last]);
    assert init == [] ==> init + [last] == [last];
  }

  lemma OneMoreField(before: seq<string>, key: string, list: seq<string>)
    requires list != []
    ensures before + KeyFields(key, list)
         == before + KeyFields(key, list[..|list| - 1]) + [Field(key, list[|list| - 1])]
  {
  }

  lemma BuiltOneMore(f: Forward, before: seq<string>, key: string, init: seq<string>, last: string)
    requires Plain(key) && Plain(last) && Built(before + KeyFields(key, init)).forward == Extended(f, key, init)
    ensures Built(before + KeyFields(key, init + [last])).forward == Extended(f, key, init + [last])
  {
    OneMoreField(before, key, init + [last]);
    assert (init + [last])[..|init|] == init;
    BuiltNext(before + KeyFields(key, init), key, last);
    ExtendedByOne(Built(before + KeyFields(key, init)), f, key, init, last);
  }

  lemma {:induction false} BuiltOneKey(before: seq<string>, key: string, list: seq<string>)
    requires Plain(key) && forall p :: p in list ==> Plain(p)
    ensures Built(before + KeyFields(key, list)).forward == Extended(Built(before).forward, key, list)
  {
    if list == [] {
      assert before + [] == before;
    } else {
      var init, last := list[..|list| - 1], list[|list| - 1];
      assert last in list && init + [last] == list;
      BuiltOneKey(before, key, init);
      BuiltOneMore(Built(before).forward, before, key, init, last);
    }
  }

  lemma BuiltNext(pieces: seq<string>, key: string, input: string)
    requires Plain(key) && Plain(input)
    ensures Built(pieces + [Field(key, input)]) == Absorb(Built(pieces), Item(key, [input]))
  {
    var more := pieces + [Field(key, input)];
    assert more[..|more| - 1] == pieces;
    PieceOfField(key, input);
    AbsorbedLast(more, Item(key, [input]));
  }

  lemma AbsorbedLast(pieces: seq<string>, item: Item)
    requires pieces != [] && ItemsOfPiece(pieces[|pieces| - 1]) == [item]
    ensures Built(pieces) == Absorb(Built(pieces[..|pieces| - 1]), item)
  {
    var items := ItemsOf(pieces);
    assert items[..|items| - 1] == ItemsOf(pieces[..|pieces| - 1]);
  }

  function Listed(f: Forward, order: seq<string>): Forward {
    map k | k in order && ListAt(f, k) != [] :: ListAt(f, k)
  }

  lemma ListedByOne(f: Forward, init: seq<string>, last: string)
    requires last !in init
    ensures Listed(f, init + [last]) == Extended(Listed(f, init), last, ListAt(f, last))
  {
    var l, r := Listed(f, init + [last]), Extended(Listed(f, init), last, ListAt(f, last));
    assert last !in Listed(f, init);
    assert ListAt(Listed(f, init), last) + ListAt(f, last) == ListAt(f, last);
    assert forall k :: k in l <==> k in r;
    assert forall k :: k in l ==> l[k] == r[k];
  }

  lemma {:induction false} BuiltFields(f: Forward, order: seq<string>)
    requires PlainLists(f) && NoRepeats(order) && forall k :: k in order ==> k in f
    ensures Built(Fields(f, order)).forward == Listed(f, order)
  {
    if order != [] {
      var init, last := order[..|order| - 1], order[|order| - 1];
      BuiltFields(f, init);
      assert last in order && last !in init;
      BuiltOneKey(Fields(f, init), last, f[last]);
      ListedByOne(f, init, last);
      assert init + [last] == order;
    }
  }

  /** Every key once. */
  ghost predicate Enumerates(order: seq<string>, f: Forward) {
    NoRepeats(order) && forall k :: k in order <==> k in f
  }

  lemma ListedIsAll(f: Forward, order: seq<string>)
    requires Enumerates(order, f)
    ensures Listed(f, order) == f <==> NoEmptyList(f)
  {
    if NoEmptyList(f) {
      assert forall k :: k in f ==> k in order && ListAt(f, k) == f[k];
    }
  }

  // The editor walks the keys in ascending order, which makes the printed text unique.

  predicate Before(a: string, b: string) {
    b != [] && (a == [] || a[0] < b[0] || (a[0] == b[0] && Before(a[1..], b[1..])))
  }

  lemma {:induction false} BeforeIsTotal(a: string, b: string)
    ensures a == b || Before(a, b) || Before(b, a)
    ensures !(Before(a, b) && Before(b, a)) && !Before(a, a)
  {
    if a != [] && b != [] {
      BeforeIsTotal(a[1..], b[1..]);
      assert a == [a[0]] + a[1..] && b == [b[0]] + b[1..];
    }
    if a != [] {
      BeforeIsTotal(a[1..], a[1..]);
    }
  }

  lemma {:induction false} BeforeIsTransitive(a: string, b: string, c: string)
    requires Before(a, b) && Before(b, c)
    ensures Before(a, c)
  {
    if a != [] && a[0] == b[0] == c[0] {
      BeforeIsTransitive(a[1..], b[1..], c[1..]);
    }
  }

  ghost predicate Ascending(order: seq<string>) {
    forall i, j :: 0 <= i < j < |order| ==> Before(order[i], order[j])
  }

  /** Ascending sequences of the same keys start with the same key, and so on. */
  lemma {:induction false} AscendingIsUnique(a: seq<string>, b: seq<string>)
    requires Ascending(a) && Ascending(b) && forall k :: k in a <==> k in b
    ensures a == b
  {
    assert b != [] ==> b[0] in b;
    if a != [] {
      assert a[0] in b;
      SameFirst(a, b);
      RestOfAscending(a);
      RestOfAscending(b);
      AscendingIsUnique(a[1..], b[1..]);
      assert a == [a[0]] + a[1..] && b == [b[0]] + b[1..];
    }
  }

  lemma RestOfAscending(a: seq<string>)
    requires Ascending(a) && a != []
    ensures forall k :: k in a[1..] <==> k in a && k != a[0]
  {
    BeforeIsTotal(a[0], a[0]);
    assert a == [a[0]] + a[1..];
  }

  lemma SameFirst(a: seq<string>, b: seq<string>)
    requires Ascending(a) && Ascending(b) && a != [] && b != [] && a[0] in b && b[0] in a
    ensures a[0] == b[0]
  {
    BeforeIsTotal(a[0], b[0]);
  }

  lemma AscendingNoRepeats(order: seq<string>)
    requires Ascending(order)
    ensures NoRepeats(order)
  {
    forall i, j | 0 <= i < j < |order|
      ensures order[i] != order[j]
    {
      BeforeIsTotal(order[i], order[j]);
    }
  }

  lemma AscendingAppend(order: seq<string>, key: string)
    requires Ascending(order) && forall j :: j in order ==> Before(j, key)
    ensures Ascending(order + [key])
  {
  }

  /** The text is the mapping's, keys in ascending order. */
  ghost predicate PrintedInOrder(text: string, kind: string, f: Forward) {
    exists order :: Ascending(order) && Enumerates(order, f) && text == Printed(kind, f, order)
  }

  /** There is only one such text. */
  lemma PrintedTextIsUnique(a: string, b: string, kind: string, f: Forward)
    requires PrintedInOrder(a, kind, f) && PrintedInOrder(b, kind, f)
    ensures a == b
  {
    var x :| Ascending(x) && Enumerates(x, f) && a == Printed(kind, f, x);
    var y :| Ascending(y) && Enumerates(y, f) && b == Printed(kind, f, y);
    AscendingIsUnique(x, y);
  }

  /** Different texts have different pieces. */
  lemma {:induction false} SplitIsInjective(a: string, b: string, c: char)
    requires Split(a, c) == Split(b, c)
    ensures a == b
  {
    if a != [] && b != [] {
      SplitHead(a, c);
      SplitHead(b, c);
      SplitIsInjective(a[1..], b[1..], c);
      assert a == [a[0]] + a[1..] && b == [b[0]] + b[1..];
    } else if a != [] {
      SplitHead(a, c);
    } else if b != [] {
      SplitHead(b, c);
    }
  }

  /** The first character and the pieces of the rest can be read off the pieces. */
  lemma SplitHead(s: string, c: char)
    requires s != []
    ensures var parts, rest := Split(s, c), Split(s[1..], c);
            if s[0] == c then parts[0] == [] && |parts| > 1 && parts[1..] == rest
            else parts[0] != [] && parts[0][0] == s[0] && [parts[0][1..]] + parts[1..] == rest
  {
  }

  /** The editor compares what it prints with the controller's first text, to take its own mapping back when it
      is the original one again.  The two are equal exactly if the first text consists of the type and the fields
      of the mapping, without a guid in front. */
  lemma OriginalIsPrintedExactlyWhen(original: string, kind: string, f: Forward, order: seq<string>)
    requires PlainLists(f) && forall k :: k in order ==> k in f
    ensures Printed(kind, f, order) == original <==> Split(original, ',') == Split(kind, ',') + Fields(f, order)
  {
    FieldsPlain(f, order);
    SplitTail(kind, Fields(f, order));
    if Split(original, ',') == Split(kind, ',') + Fields(f, order) {
      SplitIsInjective(Printed(kind, f, order), original, ',');
    }
  }

  /** So they differ for every text a session can begin with whose type has no colon, which every field has. */
  lemma OriginalIsNeverPrinted(original: string, kind: string, f: Forward, order: seq<string>)
    requires PlainLists(f) && (forall k :: k in order ==> k in f) && ',' !in kind
    requires |Split(original, ',')| >= 2 && ':' !in Split(original, ',')[1]
    ensures Printed(kind, f, order) != original
  {
    OriginalIsPrintedExactlyWhen(original, kind, f, order);
    SplitOne(kind, ',');
    FieldsPlain(f, order);
    if Fields(f, order) != [] {
      assert Fields(f, order)[0] in Fields(f, order);
    }
  }

  /** With a colon in it they can be equal: a session that begins with "a:b,a:b", in which the cross button is
      bound to the input "b", prints the text it began with. */
  lemma OriginalCanBePrinted()
    ensures var original := "a:b,a:b";
            var pieces := Split(original, ',');
            && |pieces| >= 2
            && var s := AfterPress(Session(Built(pieces[2..]), Built(pieces[2..]).forward, false), Press(1, "b", 0));
            PrintedInOrder(original, pieces[1], s.maps.forward)
  {
    var field := Field("a", "b");
    assert field == "a:b";
    SplitTwo(field, field);
    assert field + [','] + field == "a:b,a:b";
    PrintOne(field, "a", "b");
    PressFirst(1, "b");
  }

  lemma SplitTwo(a: string, b: string)
    requires ',' !in a && ',' !in b
    ensures Split(a + [','] + b, ',') == [a, b]
  {
    SplitOne(a, ',');
    SplitLast(a, ',', b);
  }

  lemma PressFirst(code: int, input: string)
    requires ButtonName(code) != ""
    ensures AfterPress(Session(Built([]), Built([]).forward, false), Press(code, input, 0)).maps.forward
         == map[ButtonName(code) := [input]]
  {
    assert Built([]) == NO_MAPS;
    assert Placed([], 0, input) == [input];
  }

  lemma PrintOne(kind: string, key: string, input: string)
    ensures PrintedInOrder(kind + [','] + Field(key, input), kind, map[key := [input]])
  {
    var f: Forward := map[key := [input]];
    var order, field := [key], Field(key, input);
    assert [input][..0] == [] && order[..0] == [] && [field][..0] == [];
    assert KeyFields(key, [input]) == [field];
    assert Fields(f, order) == [field];
    assert Tail([field]) == "," + field;
    assert Ascending(order) && Enumerates(order, f);
  }

  /** Parsing what was printed gives back guid, type and mapping, if and only if no list was empty. */
  lemma RoundTrip(guid: string, kind: string, f: Forward, order: seq<string>)
    requires ',' !in guid && ',' !in kind && PlainLists(f) && Enumerates(order, f)
    ensures var pieces := Split(WithGuid(guid, Printed(kind, f, order)), ',');
            && |pieces| >= 2 && pieces[0] == guid && pieces[1] == kind
            && (Built(pieces[2..]).forward == f <==> NoEmptyList(f))
  {
    PiecesOfText(guid, kind, f, order);
    assert ([guid, kind] + Fields(f, order))[2..] == Fields(f, order);
    BuiltFields(f, order);
    ListedIsAll(f, order);
  }

  lemma PiecesOfText(guid: string, kind: string, f: Forward, order: seq<string>)
    requires ',' !in guid && ',' !in kind && PlainLists(f) && forall k :: k in order ==> k in f
    ensures Split(WithGuid(guid, Printed(kind, f, order)), ',') == [guid, kind] + Fields(f, order)
  {
    var fields := Fields(f, order);
    FieldsPlain(f, order);
    SplitTwo(guid, kind);
    SplitTail(guid + [','] + kind, fields);
    BehindGuid(guid, kind, Tail(fields));
  }

  lemma BehindGuid(guid: string, kind: string, tail: string)
    ensures WithGuid(guid, kind + tail) == guid + [','] + kind + tail
  {
  }

  // ---------------------------------------------------------------------------------------------
  // From a text through the editor back to a text

  lemma {:induction false} BuiltPlain(pieces: seq<string>)
    requires forall x :: x in pieces ==> ',' !in x
    ensures PlainLists(Built(pieces).forward)
  {
    if pieces != [] {
      var init, last := pieces[..|pieces| - 1], pieces[|pieces| - 1];
      assert last in pieces;
      BuiltPlain(init);
      SplitKeepsOut(last, ':', ',');
      if ItemsOfPiece(last) == [] {
        assert ItemsOf(init) + [] == ItemsOf(init);
      } else {
        AbsorbedLast(pieces, ItemsOfPiece(last)[0]);
      }
    }
  }

  lemma FirstButtonsPlain(code: int)
    requires code <= 0x200
    ensures Plain(ButtonName(code))
  {
  }

  lemma ButtonsPlain(code: int)
    ensures Plain(ButtonName(code))
  {
    if code <= 0x200 {
      FirstButtonsPlain(code);
    }
  }

  lemma PlacedPlain(list: seq<string>, index: nat, p: string)
    ensures forall q :: q in Placed(list, index, p) ==> q == p || q in list
  {
  }

  lemma UnboundPlain(f: Forward, key: string, p: string)
    requires PlainLists(f)
    ensures PlainLists(Unbound(f, key, p))
  {
    if |ListAt(f, key)| > 1 {
      forall q | q in RemoveOne(f[key], p)
        ensures q in f[key]
      {
        assert multiset(RemoveOne(f[key], p))[q] <= multiset(f[key])[q];
      }
    }
  }

  lemma PressKeepsPlain(s: Session, e: Press)
    requires PlainLists(s.maps.forward) && Plain(e.input)
    ensures PlainLists(AfterPress(s, e).maps.forward)
  {
    var old_, key := Owner(s.maps.inverse, e.input), ButtonName(e.code);
    var f := Unbound(s.maps.forward, old_, e.input);
    UnboundPlain(s.maps.forward, old_, e.input);
    PlacedPlain(ListAt(f, key), e.index, e.input);
    ButtonsPlain(e.code);
  }

  lemma {:induction false} PressesKeepPlain(s: Session, es: seq<Press>)
    requires PlainLists(s.maps.forward) && forall e :: e in es ==> Plain(e.input)
    ensures PlainLists(AfterPresses(s, es).maps.forward)
    decreases es
  {
    if es != [] {
      assert es[0] in es;
      PressKeepsPlain(s, es[0]);
      PressesKeepPlain(AfterPress(s, es[0]), es[1..]);
    }
  }

  lemma SameOwners(a: Maps, b: Maps)
    requires Exact(a) && Exact(b) && a.forward == b.forward
    ensures forall p :: Owner(a.inverse, p) == Owner(b.inverse, p)
  {
    forall p
      ensures Owner(a.inverse, p) == Owner(b.inverse, p)
    {
      if Owner(a.inverse, p) != "" {
        assert Binds(a.forward, Owner(a.inverse, p), p);
      }
      if Owner(b.inverse, p) != "" {
        assert Binds(b.forward, Owner(b.inverse, p), p);
      }
    }
  }

  /** Whatever known buttons are pressed on a mapping that was read from a text without repeated inputs:
      saving it and reading it again gives the same mapping with the same owner for every input. */
  lemma SavedMappingSurvives(text: string, es: seq<Press>, guid: string, kind: string, order: seq<string>)
    requires var pieces := Split(text, ',');
             |pieces| >= 2 && NoEmptyKey(ItemsOf(pieces[2..])) && NoRepeats(Inputs(ItemsOf(pieces[2..])))
    requires forall e :: e in es ==> ButtonName(e.code) != "" && Plain(e.input)
    requires ',' !in guid && ',' !in kind
    requires var maps := Built(Split(text, ',')[2..]);
             Enumerates(order, AfterPresses(Session(maps, maps.forward, false), es).maps.forward)
    ensures var maps := Built(Split(text, ',')[2..]);
            var edited := AfterPresses(Session(maps, maps.forward, false), es).maps;
            var again := Split(WithGuid(guid, Printed(kind, edited.forward, order)), ',');
            && |again| >= 2 && again[0] == guid && again[1] == kind
            && Built(again[2..]).forward == edited.forward
            && (forall p :: Owner(Built(again[2..]).inverse, p) == Owner(edited.inverse, p))
  {
    var pieces := Split(text, ',')[2..];
    var maps := Built(pieces);
    ItemsHaveInputs(pieces);
    ParsedIsExact(ItemsOf(pieces));
    BuiltPlain(pieces);
    var s := Session(maps, maps.forward, false);
    PressesKeepExact(s, es);
    PressesKeepPlain(s, es);
    var edited := AfterPresses(s, es).maps;
    RoundTrip(guid, kind, edited.forward, order);
    var again := Split(WithGuid(guid, Printed(kind, edited.forward, order)), ',');
    ItemsHaveInputs(again[2..]);
    AbsorbedIsFaithful(ItemsOf(again[2..]));
    FaithfulIsExact(Built(again[2..]));
    SameOwners(Built(again[2..]), edited);
  }
}
