/** Decoded frames and the abstract pending store.

    The window keeps pending frames in a primary slot backed by a small overflow deque.  Everything
    here talks about the single sequence the two form together, oldest frame first. */
module FrameSpec {

  /** Two time stamps closer than this, in seconds, count as equal. */
  const EPS: real := 0.000001

  /** A frame handed over by the decoder: `frame` identifies the owned AVFrame. */
  datatype Entry = Entry(frame: nat, pts: real, duration: real, origin: real, storedUs: nat, warmup: bool)

  /** The decoder never delivers a negative time stamp and the warm-up frame is stamped zero. */
  predicate WellStamped(e: Entry) {
    e.pts >= 0.0 && (e.warmup ==> e.pts == 0.0)
  }

  /** How many entries of `s` own the AVFrame `id`. */
  function Count(s: seq<Entry>, id: nat): nat {
    if s == [] then 0 else (if s[0].frame == id then 1 else 0) + Count(s[1..], id)
  }

  lemma {:induction false} CountAppend(a: seq<Entry>, b: seq<Entry>, id: nat)
    ensures Count(a + b, id) == Count(a, id) + Count(b, id)
  {
    if a == [] {
      assert a + b == b;
    } else {
      assert (a + b)[1..] == a[1..] + b;
      CountAppend(a[1..], b, id);
    }
  }

  lemma {:induction false} CountSplit(s: seq<Entry>, n: nat, id: nat)
    requires n <= |s|
    ensures Count(s, id) == Count(s[..n], id) + Count(s[n..], id)
  {
    assert s[..n] + s[n..] == s;
    CountAppend(s[..n], s[n..], id);
  }

  // ---------------------------------------------------------------------------------------------
  // Cutting frames off the old end

  /** A roll-back to `cutoff` makes a frame obsolete when it is older; a warm-up frame also when it
      carries the same time stamp. */
  predicate Prunable(e: Entry, cutoff: real) {
    e.pts + EPS < cutoff || (e.warmup && e.pts <= cutoff + EPS)
  }

  datatype Cut =
    | Before(cutoff: real)  // roll-back to a time stamp
    | UpTo(pts: real)       // a newer frame went straight to the queue
  {
    predicate Covers(e: Entry) {
      match this
      case Before(cutoff) => Prunable(e, cutoff)
      case UpTo(pts) => e.pts <= pts + EPS
    }
  }

  /** Length of the longest prefix covered by `cut`. */
  function Covered(h: seq<Entry>, cut: Cut): (n: nat)
    ensures n <= |h|
    ensures n < |h| ==> !cut.Covers(h[n])
  {
    if h != [] && cut.Covers(h[0]) then 1 + Covered(h[1..], cut) else 0
  }

  lemma {:induction false} CoveredPrefix(h: seq<Entry>, cut: Cut)
    ensures forall i :: 0 <= i < Covered(h, cut) ==> cut.Covers(h[i])
  {
    if h != [] && cut.Covers(h[0]) {
      CoveredPrefix(h[1..], cut);
      forall i | 0 <= i < Covered(h, cut)
        ensures cut.Covers(h[i])
      {
        assert i > 0 ==> h[i] == h[1..][i - 1];
      }
    }
  }

  /** What prunePendingFramesBeforeLocked removes: the primary slot and the head of the overflow deque
      are tested separately, so there are two runs. */
  function Pruned(h: seq<Entry>, cutoff: real): seq<Entry> {
    if cutoff < 0.0 || h == [] then []
    else (if Prunable(h[0], cutoff) then [h[0]] else []) + h[1..][..Covered(h[1..], Before(cutoff))]
  }

  /** ... and what it leaves. */
  function Prune(h: seq<Entry>, cutoff: real): seq<Entry> {
    if cutoff < 0.0 || h == [] then h
    else (if Prunable(h[0], cutoff) then [] else [h[0]]) + h[1..][Covered(h[1..], Before(cutoff))..]
  }

  /** Pruning in terms of the primary slot `p` and the overflow deque behind it. */
  lemma {:induction false} PruneParts(p: seq<Entry>, over: seq<Entry>, cutoff: real)
    requires |p| <= 1 && (p == [] ==> over == []) && cutoff >= 0.0
    ensures var n := Covered(over, Before(cutoff));
            var cut := p != [] && Prunable(p[0], cutoff);
            && Prune(p + over, cutoff) == (if cut then [] else p) + over[n..]
            && Pruned(p + over, cutoff) == (if cut then p else []) + over[..n]
  {
    if p != [] {
      assert (p + over)[1..] == over;
      assert p == [p[0]];
    }
  }

  lemma {:induction false} PruneCounts(h: seq<Entry>, cutoff: real, id: nat)
    ensures Count(h, id) == Count(Prune(h, cutoff), id) + Count(Pruned(h, cutoff), id)
    ensures |h| == |Prune(h, cutoff)| + |Pruned(h, cutoff)|
  {
    if cutoff >= 0.0 && h != [] {
      var n := Covered(h[1..], Before(cutoff));
      CountSplit(h[1..], n, id);
      CountAppend([h[0]], h[1..][..n], id);
      CountAppend([h[0]], h[1..][n..], id);
      CountAppend([], h[1..][..n], id);
      CountAppend([], h[1..][n..], id);
      assert [h[0]] + h[1..] == h;
      CountAppend([h[0]], h[1..], id);
    }
  }

  /** The frames a filter for obsolete frames would keep. */
  function Kept(h: seq<Entry>, cutoff: real): seq<Entry> {
    if h == [] then []
    else if Prunable(h[0], cutoff) then Kept(h[1..], cutoff)
    else [h[0]] + Kept(h[1..], cutoff)
  }

  // ---------------------------------------------------------------------------------------------
  // Storing a frame

  /** Position of a new overflow entry: after every entry that is not newer. */
  function Insert(q: seq<Entry>, e: Entry): (r: seq<Entry>)
    ensures |r| == |q| + 1
  {
    if q == [] || q[0].pts > e.pts + EPS then [e] + q else [q[0]] + Insert(q[1..], e)
  }

  /** An entry that is not newer stays in front. */
  lemma InsertBehind(q: seq<Entry>, pos: nat, e: Entry)
    requires pos < |q| && q[pos].pts <= e.pts + EPS
    ensures q[..pos] + Insert(q[pos..], e) == q[..pos + 1] + Insert(q[pos + 1..], e)
  {
    var rest := q[pos..];
    assert rest[1..] == q[pos + 1..];
    assert q[..pos] + [rest[0]] == q[..pos + 1];
  }

  lemma {:induction false} InsertCount(q: seq<Entry>, e: Entry, id: nat)
    ensures Count(Insert(q, e), id) == Count(q, id) + Count([e], id)
  {
    if q == [] || q[0].pts > e.pts + EPS {
      CountAppend([e], q, id);
    } else {
      InsertCount(q[1..], e, id);
      CountAppend([q[0]], Insert(q[1..], e), id);
    }
  }

  /** `dropped` frames are freed and counted as dropped, `released` frames are freed silently. */
  datatype Stored = Stored(held: seq<Entry>, accepted: bool, dropped: seq<Entry>, released: seq<Entry>)

  /** What storePendingFrame does with `e`; `limit` is the overflow limit, 0 when overflow is off. */
  function Store(limit: nat, held: seq<Entry>, e: Entry): Stored {
    var kept := if limit == 0 && held != [] then held[..1] else held;
    var drained := held[|kept|..];
    var tail := StoreTail(limit, kept, e);
    tail.(dropped := drained + tail.dropped)
  }

  /** ... once a disabled overflow deque has been drained. */
  function StoreTail(limit: nat, kept: seq<Entry>, e: Entry): Stored {
    if kept == [] then
      Stored([e], true, [], [])
    else if kept[0].warmup && !e.warmup then
      Stored([e] + kept[1..], true, [], [kept[0]])
    else if e.pts <= kept[|kept| - 1].pts + EPS then
      Stored(kept, false, [e], [])
    else if limit == 0 then
      Stored([e] + kept[1..], true, [kept[0]], [])
    else if |kept| - 1 >= limit then
      Stored([kept[0]] + Insert(kept[2..], e), true, [kept[1]], [])
    else
      Stored([kept[0]] + Insert(kept[1..], e), true, [], [])
  }

  lemma {:induction false} StoreTailCounts(limit: nat, kept: seq<Entry>, e: Entry, id: nat)
    ensures var s := StoreTail(limit, kept, e);
            Count(kept, id) + Count([e], id) == Count(s.held, id) + Count(s.dropped, id) + Count(s.released, id)
  {
    if kept != [] {
      var first := [kept[0]];
      assert kept == first + kept[1..];
      CountAppend(first, kept[1..], id);
      CountAppend([e], kept[1..], id);
      StoreBehindCounts(kept, e, id);
    }
  }

  lemma {:induction false} StoreBehindCounts(kept: seq<Entry>, e: Entry, id: nat)
    requires kept != []
    ensures Count([kept[0]] + Insert(kept[1..], e), id) == Count(kept, id) + Count([e], id)
    ensures |kept| > 1 ==>
              Count([kept[0]] + Insert(kept[2..], e), id) + Count([kept[1]], id) == Count(kept, id) + Count([e], id)
  {
    var first := [kept[0]];
    assert kept == first + kept[1..];
    CountAppend(first, kept[1..], id);
    InsertCount(kept[1..], e, id);
    CountAppend(first, Insert(kept[1..], e), id);
    if |kept| > 1 {
      assert kept[1..] == [kept[1]] + kept[2..];
      CountAppend([kept[1]], kept[2..], id);
      InsertCount(kept[2..], e, id);
      CountAppend(first, Insert(kept[2..], e), id);
    }
  }

  /** Every frame involved in a store ends up in exactly one place, whatever the store holds. */
  lemma {:induction false} StoreConserves(limit: nat, held: seq<Entry>, e: Entry, id: nat)
    ensures var s := Store(limit, held, e);
            Count(held, id) + Count([e], id) == Count(s.held, id) + Count(s.dropped, id) + Count(s.released, id)
  {
    var kept := if limit == 0 && held != [] then held[..1] else held;
    CountSplit(held, |kept|, id);
    assert held[..|kept|] == kept;
    StoreTailCounts(limit, kept, e, id);
    CountAppend(held[|kept|..], StoreTail(limit, kept, e).dropped, id);
  }

  // ---------------------------------------------------------------------------------------------
  // Nothing appears out of nowhere

  lemma {:induction false} InsertMembers(q: seq<Entry>, e: Entry)
    ensures forall x :: x in Insert(q, e) ==> x == e || x in q
  {
    if q != [] && !(q[0].pts > e.pts + EPS) {
      InsertMembers(q[1..], e);
    }
  }

  lemma StoreMembers(limit: nat, held: seq<Entry>, e: Entry)
    ensures forall x :: x in Store(limit, held, e).held ==> x == e || x in held
  {
    if |held| > 1 {
      InsertMembers(held[1..], e);
      InsertMembers(held[2..], e);
    }
    InsertMembers([], e);
  }

  lemma PruneMembers(h: seq<Entry>, cutoff: real)
    ensures forall x :: x in Prune(h, cutoff) ==> x in h
  {
  }

  // ---------------------------------------------------------------------------------------------
  // Good stores

  /** Oldest first and at least the tolerance apart. */
  predicate Spaced(h: seq<Entry>) {
    |h| > 1 ==> h[0].pts + EPS < h[1].pts && Spaced(h[1..])
  }

  predicate Real(h: seq<Entry>) {
    h != [] ==> !h[0].warmup && h[0].pts >= 0.0 && Real(h[1..])
  }

  /** A warm-up frame only ever waits alone. */
  predicate Good(h: seq<Entry>) {
    Spaced(h) && (Real(h) || (|h| == 1 && WellStamped(h[0])))
  }

  lemma {:induction false} SpacedAt(h: seq<Entry>, i: nat, j: nat)
    requires Spaced(h) && i < j < |h|
    ensures h[i].pts + EPS < h[j].pts
  {
    if i > 0 {
      SpacedAt(h[1..], i - 1, j - 1);
    } else if j > 1 {
      SpacedAt(h[1..], 0, j - 1);
    }
  }

  lemma {:induction false} RealAt(h: seq<Entry>, i: nat)
    requires Real(h) && i < |h|
    ensures !h[i].warmup && h[i].pts >= 0.0
  {
    if i > 0 {
      RealAt(h[1..], i - 1);
    }
  }

  lemma {:induction false} GoodSuffix(h: seq<Entry>, n: nat)
    requires Good(h) && n <= |h|
    ensures Good(h[n..])
  {
    if n == 0 {
      assert h[0..] == h;
    } else {
      assert h[1..][n - 1..] == h[n..];
      GoodSuffix(h[1..], n - 1);
    }
  }

  lemma {:induction false} AppendGood(h: seq<Entry>, e: Entry)
    requires Spaced(h) && Real(h) && !e.warmup && e.pts >= 0.0
    requires h != [] ==> h[|h| - 1].pts + EPS < e.pts
    ensures Spaced(h + [e]) && Real(h + [e])
  {
    if h != [] {
      AppendGood(h[1..], e);
      assert (h + [e])[1..] == h[1..] + [e];
    }
  }

  /** Inserting a frame that is newer than the whole deque appends it. */
  lemma {:induction false} InsertNewest(q: seq<Entry>, e: Entry)
    requires Spaced(q) && (q != [] ==> q[|q| - 1].pts + EPS < e.pts)
    ensures Insert(q, e) == q + [e]
  {
    if q != [] {
      if |q| > 1 {
        SpacedAt(q, 0, |q| - 1);
      }
      InsertNewest(q[1..], e);
      assert q == [q[0]] + q[1..];
    }
  }

  /** Storing into a good store, in terms of frames: it never holds more than 1 + limit frames, an
      accepted frame is the newest one held, a rejected one is not newer than what is already there,
      at most one frame is dropped, and only a warm-up frame that waits alone is freed silently. */
  lemma {:induction false} StoreOnGood(limit: nat, held: seq<Entry>, e: Entry)
    requires Good(held) && |held| <= 1 + limit && WellStamped(e)
    ensures var s := Store(limit, held, e);
            && Good(s.held) && |s.held| <= 1 + limit
            && (s.accepted ==> s.held != [] && s.held[|s.held| - 1] == e)
            && (!s.accepted <==> held != [] && !(held[0].warmup && !e.warmup) && e.pts <= held[|held| - 1].pts + EPS)
            && (!s.accepted ==> s.held == held && s.dropped == [e] && s.released == [])
            && (s.released != [] ==> s.released == held && held[0].warmup && !e.warmup)
            && |s.dropped| <= 1
  {
    var kept := if limit == 0 && held != [] then held[..1] else held;
    assert kept == held;
    assert [] + StoreTail(limit, kept, e).dropped == StoreTail(limit, kept, e).dropped;
    if held == [] {
    } else if held[0].warmup {
      assert [e] + held[1..] == [e];
    } else if limit > 0 && e.pts > held[|held| - 1].pts + EPS {
      StoreAppends(limit, held, e);
    } else {
      assert limit == 0 ==> [e] + held[1..] == [e];
    }
  }

  lemma {:induction false} StoreAppends(limit: nat, held: seq<Entry>, e: Entry)
    requires limit > 0 && Spaced(held) && Real(held) && held != [] && WellStamped(e)
    requires held[|held| - 1].pts + EPS < e.pts
    ensures var s := StoreTail(limit, held, e);
            && s.held == (if |held| - 1 >= limit then [held[0]] + held[2..] else held) + [e]
            && Spaced(s.held) && Real(s.held)
  {
    RealAt(held, |held| - 1);
    if |held| - 1 >= limit {
      var base := [held[0]] + held[2..];
      assert held[1..][1..] == held[2..];
      if |held| > 2 {
        SpacedAt(held, 0, 2);
      }
      assert base[1..] == held[2..];
      InsertNewest(held[2..], e);
      assert [held[0]] + (held[2..] + [e]) == base + [e];
      AppendGood(base, e);
    } else {
      InsertNewest(held[1..], e);
      assert [held[0]] + (held[1..] + [e]) == held + [e];
      AppendGood(held, e);
    }
  }

  // ---------------------------------------------------------------------------------------------
  // Pruning a prefix is filtering

  lemma {:induction false} CutIsKept(h: seq<Entry>, cutoff: real)
    requires Spaced(h) && Real(h)
    ensures h[Covered(h, Before(cutoff))..] == Kept(h, cutoff)
  {
    if h != [] {
      CutIsKept(h[1..], cutoff);
      if Prunable(h[0], cutoff) {
        assert h[1..][Covered(h[1..], Before(cutoff))..] == h[Covered(h, Before(cutoff))..];
      } else {
        assert Covered(h[1..], Before(cutoff)) == 0 by {
          assert |h| > 1 ==> !Prunable(h[1..][0], cutoff) by {
            if |h| > 1 { assert Real(h[1..]); }
          }
        }
        assert h[1..][0..] == h[1..];
        assert h == [h[0]] + h[1..];
      }
    }
  }

  /** On every good store, cutting prefixes leaves exactly the frames a filter would leave, in order. */
  lemma {:induction false} PruneIsFilter(h: seq<Entry>, cutoff: real)
    requires Good(h) && cutoff >= 0.0
    ensures Prune(h, cutoff) == Kept(h, cutoff)
  {
    if h != [] {
      CutIsKept(h[1..], cutoff);
    }
  }

  lemma {:induction false} KeptMembers(h: seq<Entry>, cutoff: real)
    ensures forall x :: x in Kept(h, cutoff) <==> x in h && !Prunable(x, cutoff)
  {
    if h != [] {
      KeptMembers(h[1..], cutoff);
      assert forall x :: x in h <==> x == h[0] || x in h[1..];
    }
  }

  /** Pruning keeps a good store good and keeps every frame that is not obsolete. */
  lemma {:induction false} PruneKeepsGood(h: seq<Entry>, cutoff: real)
    requires Good(h)
    ensures Good(Prune(h, cutoff))
    ensures cutoff >= 0.0 ==> forall x :: x in Prune(h, cutoff) <==> x in h && !Prunable(x, cutoff)
  {
    if cutoff >= 0.0 && h != [] {
      PruneIsFilter(h, cutoff);
      KeptMembers(h, cutoff);
      KeptGood(h, cutoff);
    }
  }

  lemma {:induction false} KeptGood(h: seq<Entry>, cutoff: real)
    requires Good(h)
    ensures Good(Kept(h, cutoff)) && (Real(h) ==> Real(Kept(h, cutoff)))
    ensures Kept(h, cutoff) != [] && h != [] ==> h[0].pts <= Kept(h, cutoff)[0].pts
  {
    if h != [] {
      GoodSuffix(h, 1);
      KeptGood(h[1..], cutoff);
      var k := Kept(h[1..], cutoff);
      assert ([h[0]] + k)[1..] == k;
    }
  }

  /** Cutting everything up to a time stamp keeps a good store good and leaves exactly the newer frames. */
  lemma {:induction false} CutUpToGood(h: seq<Entry>, pts: real)
    requires Good(h)
    ensures Good(h[Covered(h, UpTo(pts))..])
    ensures forall x :: x in h && x.pts > pts + EPS <==> x in h[Covered(h, UpTo(pts))..]
  {
    var n := Covered(h, UpTo(pts));
    GoodSuffix(h, n);
    CoveredPrefix(h, UpTo(pts));
    forall x | x in h && x.pts > pts + EPS
      ensures x in h[n..]
    {
      var i :| 0 <= i < |h| && h[i] == x;
      assert h[n..][i - n] == x;
    }
    forall x | x in h[n..]
      ensures x in h && x.pts > pts + EPS
    {
      var i :| 0 <= i < |h| - n && h[n..][i] == x;
      assert h[n + i] == x;
      if i > 0 {
        SpacedAt(h, n, n + i);
      }
    }
  }

  // ---------------------------------------------------------------------------------------------
  // The newest pending frame

  /** The frame cloneNewestPendingFrameLocked picks: the last overflow entry when it is newer than
      the primary one (or equally old and stored later), the primary one otherwise. */
  function Newest(h: seq<Entry>): Entry
    requires h != []
  {
    var last := h[|h| - 1];
    if |h| > 1 && (last.pts > h[0].pts + EPS || (-EPS <= last.pts - h[0].pts <= EPS && last.storedUs > h[0].storedUs))
    then last else h[0]
  }

  /** On a good store every other frame is older than the one that is cloned. */
  lemma {:induction false} NewestIsNewest(h: seq<Entry>, i: nat)
    requires Good(h) && i < |h|
    ensures Newest(h) == h[|h| - 1]
    ensures i < |h| - 1 ==> h[i].pts + EPS < Newest(h).pts
  {
    if |h| > 1 {
      SpacedAt(h, 0, |h| - 1);
      if i < |h| - 1 {
        SpacedAt(h, i, |h| - 1);
      }
    }
  }
}
