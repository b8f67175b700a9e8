/** The controller mapping being edited: for every SDL key the list of physical inputs bound to it, and
    the inverse map from a physical input to its key. */
module MappingSpec {

  type Forward = map<string, seq<string>>

  type Inverse = map<string, string>

  datatype Maps = Maps(forward: Forward, inverse: Inverse)

  /** Keys that describe the mapping instead of binding inputs. */
  predicate IsMeta(key: string) {
    key == "crc" || key == "platform" || key == "type" || key == "hint" || StartsWithSdk(key)
  }

  predicate StartsWithSdk(key: string) {
    |key| >= 3 && key[0] == 's' && key[1] == 'd' && key[2] == 'k'
  }

  function ListAt(f: Forward, key: string): seq<string> {
    if key in f then f[key] else []
  }

  /** The key of a physical input; empty if it has none. */
  function Owner(inverse: Inverse, p: string): string {
    if p in inverse then inverse[p] else ""
  }

  predicate Binds(f: Forward, key: string, p: string) {
    key in f && !IsMeta(key) && p in f[key]
  }

  ghost predicate NoRepeats(s: seq<string>) {
    forall i, j :: 0 <= i < j < |s| ==> s[i] != s[j]
  }

  /** Every input is bound at most once, under a proper key. */
  ghost predicate Unique(f: Forward) {
    && "" !in f
    && (forall k :: k in f && !IsMeta(k) ==> NoRepeats(f[k]))
    && (forall j, k, p :: Binds(f, j, p) && Binds(f, k, p) ==> j == k)
  }

  ghost predicate NoEmptyList(f: Forward) {
    forall k :: k in f ==> f[k] != []
  }

  ghost predicate Inverts(m: Maps) {
    && (forall k, p :: Binds(m.forward, k, p) ==> Owner(m.inverse, p) == k)
    && (forall p :: Owner(m.inverse, p) != "" ==> Binds(m.forward, Owner(m.inverse, p), p))
  }

  /** The two maps are exact inverses of each other on all keys that bind inputs. */
  ghost predicate Exact(m: Maps) {
    Unique(m.forward) && NoEmptyList(m.forward) && Inverts(m)
  }

  // ---------------------------------------------------------------------------------------------
  // Editing

  /** The SDL key of a console button. */
  function ButtonName(code: int): (name: string)
    ensures !IsMeta(name)
  {
    if code == 0x1 then "a"
    else if code == 0x2 then "b"
    else if code == 0x4 then "x"
    else if code == 0x8 then "y"
    else if code == 0x10 then "dpleft"
    else if code == 0x20 then "dpright"
    else if code == 0x40 then "dpup"
    else if code == 0x80 then "dpdown"
    else if code == 0x100 then "leftshoulder"
    else if code == 0x200 then "rightshoulder"
    else if code == 0x400 then "leftstick"
    else if code == 0x800 then "rightstick"
    else if code == 0x1000 then "start"
    else if code == 0x2000 then "back"
    else if code == 0x4000 then "touchpad"
    else if code == 0x8000 then "guide"
    else if code == 0x10000 then "lefttrigger"
    else if code == 0x20000 then "righttrigger"
    else if code == 0x400_0000 then "leftx"
    else if code == 0x800_0000 then "lefty"
    else if code == 0x1000_0000 then "rightx"
    else if code == 0x2000_0000 then "righty"
    else if code == 0x4000_0000 then "misc1"
    else ""
  }

  /** The keys of the console buttons in the order of their bits, and from bit 26 on. */
  const BUTTON_KEYS: seq<string> := ["a", "b", "x", "y", "dpleft", "dpright", "dpup", "dpdown", "leftshoulder",
    "rightshoulder", "leftstick", "rightstick", "start", "back", "touchpad", "guide", "lefttrigger", "righttrigger"]

  const EXTENDED_KEYS: seq<string> := ["leftx", "lefty", "rightx", "righty", "misc1"]

  function Bit(n: nat): nat {
    if n == 0 then 1 else 2 * Bit(n - 1)
  }

  lemma BitsDouble(n: nat)
    ensures Bit(n + 4) == 16 * Bit(n)
  {
    assert Bit(n + 4) == 2 * Bit(n + 3) && Bit(n + 3) == 2 * Bit(n + 2);
    assert Bit(n + 2) == 2 * Bit(n + 1) && Bit(n + 1) == 2 * Bit(n);
  }

  lemma FirstBits()
    ensures Bit(0) == 0x1 && Bit(1) == 0x2 && Bit(2) == 0x4 && Bit(3) == 0x8
    ensures Bit(4) == 0x10 && Bit(5) == 0x20 && Bit(6) == 0x40 && Bit(7) == 0x80
    ensures Bit(8) == 0x100 && Bit(9) == 0x200 && Bit(10) == 0x400 && Bit(11) == 0x800
    ensures Bit(12) == 0x1000 && Bit(13) == 0x2000 && Bit(14) == 0x4000 && Bit(15) == 0x8000
    ensures Bit(16) == 0x1_0000 && Bit(17) == 0x2_0000
  {
    BitsDouble(0);
    BitsDouble(1);
    BitsDouble(2);
    BitsDouble(3);
    BitsDouble(4);
    BitsDouble(5);
    BitsDouble(6);
    BitsDouble(7);
    BitsDouble(8);
    BitsDouble(9);
    BitsDouble(10);
    BitsDouble(11);
    BitsDouble(12);
    BitsDouble(13);
  }

  lemma LastBits()
    ensures Bit(26) == 0x400_0000 && Bit(27) == 0x800_0000 && Bit(28) == 0x1000_0000
    ensures Bit(29) == 0x2000_0000 && Bit(30) == 0x4000_0000
  {
    FirstBits();
    BitsDouble(14);
    BitsDouble(15);
    BitsDouble(16);
    BitsDouble(17);
    BitsDouble(18);
    BitsDouble(19);
    BitsDouble(20);
    BitsDouble(21);
    BitsDouble(22);
    BitsDouble(23);
    BitsDouble(24);
    BitsDouble(25);
    BitsDouble(26);
  }

  /** Every button bit has its key. */
  lemma ButtonBits(i: nat)
    requires i < 18
    ensures ButtonName(Bit(i)) == BUTTON_KEYS[i]
  {
    FirstBits();
  }

  lemma ExtendedBits(i: nat)
    requires i < 5
    ensures ButtonName(Bit(26 + i)) == EXTENDED_KEYS[i]
  {
    LastBits();
  }

  /** Properties of the mapping and SDL's own options bind nothing, everything else does. */
  lemma MetaKeys(key: string)
    ensures IsMeta(key) <==> key in ["crc", "platform", "type", "hint"] || "sdk" <= key
  {
    if StartsWithSdk(key) {
      assert key[..3] == "sdk";
    }
  }

  /** A list without the first occurrence of an element. */
  function RemoveOne(s: seq<string>, p: string): (r: seq<string>)
    ensures multiset(r) == multiset(s) - multiset{p}
  {
    if s == [] then []
    else if s[0] == p then
      assert s == [p] + s[1..];
      s[1..]
    else
      assert s == [s[0]] + s[1..];
      [s[0]] + RemoveOne(s[1..], p)
  }

  function RemoveAt(s: seq<string>, index: nat): (r: seq<string>) {
    if index < |s| then s[..index] + s[index + 1..] else s
  }

  /** A list after an input is bound at a position: it replaces what was there. */
  function Placed(s: seq<string>, index: nat, p: string): seq<string> {
    if index == 0 then [p] + RemoveAt(s, index) else RemoveAt(s, index) + [p]
  }

  function Unbound(f: Forward, key: string, p: string): Forward {
    if key == "" then f
    else if |ListAt(f, key)| > 1 then f[key := RemoveOne(f[key], p)]
    else f - {key}
  }

  function Bound(m: Maps, key: string, p: string, index: nat): Maps {
    var list := ListAt(m.forward, key);
    var inverse := if index < |list| then m.inverse[list[index] := ""] else m.inverse;
    Maps(m.forward[key := Placed(list, index, p)], inverse[p := key])
  }

  /** Binding a physical input to a key takes it away from its old key and replaces the input that is
      bound at the chosen position. */
  function Edit(m: Maps, key: string, p: string, index: nat): Maps {
    var old_ := Owner(m.inverse, p);
    if key == old_ then m
    else Bound(Maps(Unbound(m.forward, old_, p), m.inverse), key, p, index)
  }

  /** Where an input ends up in the list of its new key: at the front or at the end, as chosen; the others keep
      their order, without the one that is replaced. */
  lemma EditPlaces(m: Maps, key: string, p: string, index: nat)
    requires Owner(m.inverse, p) != key
    ensures var list := ListAt(m.forward, key);
            var others := if index < |list| then list[..index] + list[index + 1..] else list;
            Edit(m, key, p, index).forward[key] == if index == 0 then [p] + others else others + [p]
  {
  }

  /** Taking an input from its old key leaves the others in order. */
  lemma {:induction false} RemoveOneInOrder(s: seq<string>, p: string)
    ensures p !in s ==> RemoveOne(s, p) == s
    ensures p in s ==> exists i :: 0 <= i < |s| && s[i] == p && RemoveOne(s, p) == s[..i] + s[i + 1..]
  {
    if s != [] && s[0] != p {
      var rest := s[1..];
      RemoveOneInOrder(rest, p);
      if p in rest {
        var i :| 0 <= i < |rest| && rest[i] == p && RemoveOne(rest, p) == rest[..i] + rest[i + 1..];
        CutBehind(s, i);
        assert s[i + 1] == p;
      } else {
        assert [s[0]] + rest == s;
      }
    } else if s != [] {
      assert RemoveOne(s, p) == s[..0] + s[1..];
    }
  }

  lemma CutBehind(s: seq<string>, i: nat)
    requires i + 1 < |s|
    ensures [s[0]] + (s[1..][..i] + s[1..][i + 1..]) == s[..i + 1] + s[i + 2..]
  {
  }

  /** Binding an input to the key it has changes nothing, whatever position is chosen. */
  lemma EditAgain(m: Maps, key: string, p: string, index: nat)
    requires Owner(m.inverse, p) == key
    ensures Edit(m, key, p, index) == m
  {
  }

  // What lists keep

  lemma NoRepeatsCount(s: seq<string>)
    ensures NoRepeats(s) <==> forall p :: multiset(s)[p] <= 1
  {
    if NoRepeats(s) {
      forall p
        ensures multiset(s)[p] <= 1
      {
        CountAtMostOne(s, p);
      }
    } else {
      var i, j :| 0 <= i < j < |s| && s[i] == s[j];
      assert s == s[..j] + [s[j]] + s[j + 1..];
      assert s[..j][i] == s[i];
      assert multiset(s)[s[i]] >= 2;
    }
  }

  lemma {:induction false} CountAtMostOne(s: seq<string>, p: string)
    requires NoRepeats(s)
    ensures multiset(s)[p] <= 1
  {
    if s != [] {
      assert s == [s[0]] + s[1..];
      CountAtMostOne(s[1..], p);
      if s[0] == p {
        assert p !in s[1..];
      }
    }
  }

  lemma RemoveOneElements(s: seq<string>, p: string)
    requires NoRepeats(s)
    ensures NoRepeats(RemoveOne(s, p))
    ensures forall q :: q in RemoveOne(s, p) <==> q in s && q != p
    ensures |s| > 1 ==> RemoveOne(s, p) != []
  {
    NoRepeatsCount(s);
    NoRepeatsCount(RemoveOne(s, p));
    forall q
      ensures q in RemoveOne(s, p) <==> q in s && q != p
    {
      assert q in RemoveOne(s, p) <==> multiset(RemoveOne(s, p))[q] > 0;
      assert q in s <==> multiset(s)[q] > 0;
    }
    if |s| > 1 {
      assert |multiset(s)| == |s|;
      assert s[0] in RemoveOne(s, p) || s[1] in RemoveOne(s, p);
    }
  }

  lemma PlacedElements(s: seq<string>, index: nat, p: string)
    requires NoRepeats(s) && p !in s
    ensures NoRepeats(Placed(s, index, p))
    ensures forall q :: q in Placed(s, index, p) <==> q == p || (q in s && !(index < |s| && q == s[index]))
  {
    RemoveAtElements(s, index);
  }

  lemma RemoveAtElements(s: seq<string>, index: nat)
    requires NoRepeats(s)
    ensures NoRepeats(RemoveAt(s, index))
    ensures forall q :: q in RemoveAt(s, index) <==> q in s && !(index < |s| && q == s[index])
  {
    if index < |s| {
      assert s == s[..index] + [s[index]] + s[index + 1..];
      NoRepeatsCount(s);
      NoRepeatsCount(RemoveAt(s, index));
      forall q
        ensures q in RemoveAt(s, index) <==> q in s && q != s[index]
      {
        assert q in RemoveAt(s, index) <==> multiset(RemoveAt(s, index))[q] > 0;
        assert q in s <==> multiset(s)[q] > 0;
      }
    }
  }

  // ---------------------------------------------------------------------------------------------
  // What an edit means

  /** Taking an input away from its key leaves it bound nowhere and every other binding alone. */
  lemma UnboundMeaning(m: Maps, p: string)
    requires Exact(m)
    ensures var f := Unbound(m.forward, Owner(m.inverse, p), p);
            && Unique(f) && NoEmptyList(f)
            && (forall k, q :: Binds(f, k, q) <==> Binds(m.forward, k, q) && q != p)
  {
    var key := Owner(m.inverse, p);
    if key != "" {
      assert Binds(m.forward, key, p);
      var list := m.forward[key];
      var f := Unbound(m.forward, key, p);
      RemoveOneElements(list, p);
      if |list| <= 1 {
        assert list == [p];
      }
      forall k, q
        ensures Binds(f, k, q) <==> Binds(m.forward, k, q) && q != p
      {
        if Binds(m.forward, k, p) {
          assert k == key;
        }
      }
    } else {
      assert forall k :: Binds(m.forward, k, p) ==> k == key;
    }
  }

  /** Exactly one input changes its key, and at most the replaced one loses it. */
  lemma EditMeaning(m: Maps, key: string, p: string, index: nat)
    requires Exact(m) && !IsMeta(key) && key != ""
    ensures var r := Edit(m, key, p, index);
            var list := ListAt(m.forward, key);
            var moved := Owner(m.inverse, p) != key;
            forall k, q :: Binds(r.forward, k, q) <==>
              if q == p then k == key
              else Binds(m.forward, k, q) && !(moved && k == key && index < |list| && q == list[index])
  {
    var old_ := Owner(m.inverse, p);
    if old_ == key {
      assert Binds(m.forward, key, p);
    } else {
      MovedMeaning(m, key, p, index);
    }
  }

  lemma MovedMeaning(m: Maps, key: string, p: string, index: nat)
    requires Exact(m) && !IsMeta(key) && key != "" && Owner(m.inverse, p) != key
    ensures var r := Edit(m, key, p, index).forward;
            var list := ListAt(m.forward, key);
            && r == Unbound(m.forward, Owner(m.inverse, p), p)[key := Placed(list, index, p)]
            && NoRepeats(r[key]) && r[key] != []
            && (forall k, q :: Binds(r, k, q) <==>
                 if q == p then k == key
                 else Binds(m.forward, k, q) && !(k == key && index < |list| && q == list[index]))
  {
    var f, list := Unbound(m.forward, Owner(m.inverse, p), p), ListAt(m.forward, key);
    var r := Edit(m, key, p, index).forward;
    UnboundMeaning(m, p);
    assert ListAt(f, key) == list;
    assert !Binds(m.forward, key, p);
    PlacedElements(list, index, p);
    forall k, q
      ensures Binds(r, k, q) <==>
                if q == p then k == key
                else Binds(m.forward, k, q) && !(k == key && index < |list| && q == list[index])
    {
      if k != key {
        assert Binds(r, k, q) <==> Binds(f, k, q);
      } else {
        assert Binds(m.forward, k, q) <==> q in list;
      }
    }
  }

  lemma MovedIsUnique(m: Maps, key: string, p: string, index: nat)
    requires Exact(m) && !IsMeta(key) && key != "" && Owner(m.inverse, p) != key
    ensures var r := Edit(m, key, p, index); Unique(r.forward) && NoEmptyList(r.forward)
  {
    UnboundMeaning(m, p);
    MovedMeaning(m, key, p, index);
  }

  lemma MovedOwners(m: Maps, key: string, p: string, index: nat)
    requires Owner(m.inverse, p) != key
    ensures var r, list := Edit(m, key, p, index), ListAt(m.forward, key);
            forall q :: Owner(r.inverse, q) ==
              if q == p then key else if index < |list| && q == list[index] then "" else Owner(m.inverse, q)
  {
    assert ListAt(Unbound(m.forward, Owner(m.inverse, p), p), key) == ListAt(m.forward, key);
  }

  lemma MovedInverts(m: Maps, key: string, p: string, index: nat)
    requires Exact(m) && !IsMeta(key) && key != "" && Owner(m.inverse, p) != key
    ensures Inverts(Edit(m, key, p, index))
  {
    var r, list := Edit(m, key, p, index), ListAt(m.forward, key);
    MovedMeaning(m, key, p, index);
    MovedOwners(m, key, p, index);
    if index < |list| {
      assert Binds(m.forward, key, list[index]);
    }
    forall q | Owner(r.inverse, q) != ""
      ensures Binds(r.forward, Owner(r.inverse, q), q)
    {
      assert q != p ==> Binds(m.forward, Owner(m.inverse, q), q);
    }
  }

  /** One edit keeps the maps exact inverses, exactly if the button is known or the input is unbound. */
  lemma EditKeepsExact(m: Maps, key: string, p: string, index: nat)
    requires Exact(m) && !IsMeta(key)
    ensures Exact(Edit(m, key, p, index)) <==> key != "" || Owner(m.inverse, p) == ""
  {
    if key != "" && Owner(m.inverse, p) != key {
      MovedIsUnique(m, key, p, index);
      MovedInverts(m, key, p, index);
    }
  }

  // ---------------------------------------------------------------------------------------------
  // Editing sessions

  datatype Session = Session(maps: Maps, applied: Forward, altered: bool)

  datatype Press = Press(code: int, input: string, index: nat)

  function AfterPress(s: Session, e: Press): Session {
    var key := ButtonName(e.code);
    if key == Owner(s.maps.inverse, e.input) then s
    else
      var maps := Edit(s.maps, key, e.input, e.index);
      s.(maps := maps, altered := maps.forward != s.applied)
  }

  function AfterPresses(s: Session, es: seq<Press>): Session
    decreases es
  {
    if es == [] then s else AfterPresses(AfterPress(s, es[0]), es[1..])
  }

  /** Whatever is pressed, `altered` says whether the mapping differs from the applied one. */
  lemma {:induction false} AlteredMeansDifferent(s: Session, es: seq<Press>)
    requires s.altered <==> s.maps.forward != s.applied
    ensures var r := AfterPresses(s, es); r.applied == s.applied && (r.altered <==> r.maps.forward != s.applied)
    decreases es
  {
    if es != [] {
      AlteredMeansDifferent(AfterPress(s, es[0]), es[1..]);
    }
  }

  /** Any presses of known buttons keep the maps exact inverses and every list non-empty. */
  lemma {:induction false} PressesKeepExact(s: Session, es: seq<Press>)
    requires Exact(s.maps)
    requires forall e :: e in es ==> ButtonName(e.code) != ""
    ensures Exact(AfterPresses(s, es).maps)
    decreases es
  {
    if es != [] {
      assert es[0] in es;
      EditKeepsExact(s.maps, ButtonName(es[0].code), es[0].input, es[0].index);
      PressesKeepExact(AfterPress(s, es[0]), es[1..]);
    }
  }
}
