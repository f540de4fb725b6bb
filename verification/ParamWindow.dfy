/** A ring whose buckets only approximate what their events add up to, and whose old buckets can change on being
    read: what the hot-parameter counters need beyond the plain ring. */
module ParamWindow {
  import opened Options
  import opened Ring

  /** The weight of the events of one bucket id. */
  function WeightOf<E>(sh: Shape, h: seq<Stamped<E>>, id: int, w: E -> int): int
    requires IsShape(sh)
  {
    if h == [] then 0
    else
      var e := h[|h| - 1];
      WeightOf(sh, h[..|h| - 1], id, w) + if Id(sh, e.time) == id then w(e.event) else 0
  }

  /** Buckets in sight weigh at most, or exactly, what their events weigh. */
  ghost predicate AtMost<B, E>(sh: Shape, h: seq<Stamped<E>>, lo: int, m: B -> int, w: E -> int, empty: B,
                               apply: (B, E) -> B)
    requires IsShape(sh)
  {
    forall id: nat :: id > lo ==> m(BucketOf(sh, h, id, empty, apply)) <= WeightOf(sh, h, id, w)
  }

  ghost predicate Exactly<B, E>(sh: Shape, h: seq<Stamped<E>>, lo: int, m: B -> int, w: E -> int, empty: B,
                                apply: (B, E) -> B)
    requires IsShape(sh)
  {
    forall id: nat :: id > lo ==> m(BucketOf(sh, h, id, empty, apply)) == WeightOf(sh, h, id, w)
  }

  lemma {:induction false} LatestWeighsSlot<E>(sh: Shape, h: seq<Stamped<E>>, lo: int, id: nat, w: E -> int)
    requires IsShape(sh) && NoneAbove(sh, h, id % sh.samples, id) && id - sh.samples <= lo < id
    ensures WeightOf(sh, h, id, w) == InSightOfSlot(sh, h, lo, id % sh.samples, w)
  {
    if h != [] {
      var e := h[|h| - 1];
      NoneAbovePrefix(sh, h, id % sh.samples, id);
      LatestWeighsSlot(sh, h[..|h| - 1], lo, id, w);
      if IndexOf(sh, e.time) == id % sh.samples && Id(sh, e.time) < id {
        SameResidue(Id(sh, e.time), id, sh.samples);
      }
    }
  }

  lemma SlotBound<B, E>(sh: Shape, r: Slots<B>, i: nat, h: seq<Stamped<E>>, last: nat, t: nat, m: B -> int, w: E -> int,
                        empty: B, apply: (B, E) -> B)
    requires IsExact(sh) && Tracks(sh, r, h, last, empty, apply) && Recycled(sh, r, last) && last <= Id(sh, t)
    requires i < |r|
    ensures var s := if IsLive(sh, t, r[i]) then m(r[i].value.value) else 0;
      var v := InSightOfSlot(sh, h, Horizon(sh, last, t), i, w);
      && (AtMost(sh, h, Horizon(sh, last, t), m, w, empty, apply) ==> s <= v)
      && (Exactly(sh, h, Horizon(sh, last, t), m, w, empty, apply) ==> s == v)
  {
    var lo := Horizon(sh, last, t);
    assert SlotTracks(sh, r[i], i, h, last, empty, apply);
    if r[i].None? {
      OldSlotWeighsNothing(sh, h, lo, i, -1, w);
    } else {
      var id := r[i].value.start / Length(sh);
      SlotLiveIff(sh, r, i, h, last, t, empty, apply);
      if IsLive(sh, t, r[i]) {
        LatestWeighsSlot(sh, h, lo, id, w);
      } else {
        OldSlotWeighsNothing(sh, h, lo, i, id, w);
      }
    }
  }

  lemma {:induction false} SumBoundFrom<B, E>(sh: Shape, r: Slots<B>, i: nat, h: seq<Stamped<E>>, last: nat, t: nat,
                                              m: B -> int, w: E -> int, empty: B, apply: (B, E) -> B)
    requires IsExact(sh) && Tracks(sh, r, h, last, empty, apply) && Recycled(sh, r, last) && last <= Id(sh, t)
    requires i <= |r|
    ensures var s, v := SumOfLive(sh, r[i..], t, m), InSightOfSlots(sh, h, Horizon(sh, last, t), i, w);
      && (AtMost(sh, h, Horizon(sh, last, t), m, w, empty, apply) ==> s <= v)
      && (Exactly(sh, h, Horizon(sh, last, t), m, w, empty, apply) ==> s == v)
    decreases |r| - i
  {
    if i < |r| {
      SlotBound(sh, r, i, h, last, t, m, w, empty, apply);
      SumBoundFrom(sh, r, i + 1, h, last, t, m, w, empty, apply);
      assert r[i..][0] == r[i] && r[i..][1..] == r[i + 1..];
    }
  }

  /** The live buckets sum up to at most, or exactly, the weight of the events in sight. */
  lemma LiveSumBound<B, E>(sh: Shape, r: Slots<B>, h: seq<Stamped<E>>, last: nat, t: nat, m: B -> int, w: E -> int,
                           empty: B, apply: (B, E) -> B)
    requires IsExact(sh) && Tracks(sh, r, h, last, empty, apply) && Recycled(sh, r, last) && last <= Id(sh, t)
    ensures var s, v := SumOfLive(sh, r, t, m), InSight(sh, h, Horizon(sh, last, t), w);
      && (AtMost(sh, h, Horizon(sh, last, t), m, w, empty, apply) ==> s <= v)
      && (Exactly(sh, h, Horizon(sh, last, t), m, w, empty, apply) ==> s == v)
  {
    SumBoundFrom(sh, r, 0, h, last, t, m, w, empty, apply);
    assert r[0..] == r;
    SlotsPartitionEvents(sh, h, Horizon(sh, last, t), w);
  }

  // ---------------------------------------------------------------- shapes that are not exact

  /** Buckets weigh 0 or more, and those in sight at least what their events weigh. */
  ghost predicate AtLeast<B, E>(sh: Shape, h: seq<Stamped<E>>, lo: int, m: B -> int, w: E -> int, empty: B,
                                apply: (B, E) -> B)
    requires IsShape(sh)
  {
    forall id: nat ::
      var v := m(BucketOf(sh, h, id, empty, apply)); v >= 0 && (id > lo ==> v >= WeightOf(sh, h, id, w))
  }

  lemma LatestAreLive<B>(sh: Shape, slot: Wrap<B>, id: nat, t: nat)
    requires IsShape(sh) && slot.start == id * Length(sh) && id > Id(sh, t) - sh.samples
    ensures IsLive(sh, t, Some(slot))
  {
    StartIsIdTimesLength(sh, t);
    assert (Id(sh, t) - id) * Length(sh) <= (sh.samples - 1) * Length(sh) by {
      MulOrder(sh.samples - 1, Id(sh, t) - id, Length(sh));
    }
    IntervalParts(sh);
  }

  lemma SlotAtLeast<B, E>(sh: Shape, r: Slots<B>, i: nat, h: seq<Stamped<E>>, last: nat, t: nat, m: B -> int,
                          w: E -> int, empty: B, apply: (B, E) -> B)
    requires Tracks(sh, r, h, last, empty, apply) && last <= Id(sh, t) && i < |r|
    requires AtLeast(sh, h, Id(sh, t) - sh.samples, m, w, empty, apply)
    ensures (if IsLive(sh, t, r[i]) then m(r[i].value.value) else 0)
         >= InSightOfSlot(sh, h, Id(sh, t) - sh.samples, i, w)
  {
    var lo := Id(sh, t) - sh.samples;
    assert SlotTracks(sh, r[i], i, h, last, empty, apply);
    if r[i].None? {
      OldSlotWeighsNothing(sh, h, lo, i, -1, w);
    } else {
      var id := r[i].value.start / Length(sh);
      assert r[i].value.value == BucketOf(sh, h, id, empty, apply);
      if id > lo {
        LatestAreLive(sh, r[i].value, id, t);
        LatestWeighsSlot(sh, h, lo, id, w);
      } else {
        OldSlotWeighsNothing(sh, h, lo, i, id, w);
      }
    }
  }

  lemma {:induction false} SumAtLeastFrom<B, E>(sh: Shape, r: Slots<B>, i: nat, h: seq<Stamped<E>>, last: nat, t: nat,
                                                m: B -> int, w: E -> int, empty: B, apply: (B, E) -> B)
    requires Tracks(sh, r, h, last, empty, apply) && last <= Id(sh, t) && i <= |r|
    requires AtLeast(sh, h, Id(sh, t) - sh.samples, m, w, empty, apply)
    ensures SumOfLive(sh, r[i..], t, m) >= InSightOfSlots(sh, h, Id(sh, t) - sh.samples, i, w)
    decreases |r| - i
  {
    if i < |r| {
      SlotAtLeast(sh, r, i, h, last, t, m, w, empty, apply);
      SumAtLeastFrom(sh, r, i + 1, h, last, t, m, w, empty, apply);
      assert r[i..][0] == r[i] && r[i..][1..] == r[i + 1..];
    }
  }

  /** Whatever the shape, the live buckets hold the latest `samples` ids, and so sum up to what happened there or
      more. */
  lemma LiveSumAtLeast<B, E>(sh: Shape, r: Slots<B>, h: seq<Stamped<E>>, last: nat, t: nat, m: B -> int, w: E -> int,
                             empty: B, apply: (B, E) -> B)
    requires Tracks(sh, r, h, last, empty, apply) && last <= Id(sh, t)
    requires AtLeast(sh, h, Id(sh, t) - sh.samples, m, w, empty, apply)
    ensures SumOfLive(sh, r, t, m) >= InSight(sh, h, Id(sh, t) - sh.samples, w)
  {
    SumAtLeastFrom(sh, r, 0, h, last, t, m, w, empty, apply);
    assert r[0..] == r;
    SlotsPartitionEvents(sh, h, Id(sh, t) - sh.samples, w);
  }

  // ---------------------------------------------------------------- reading a bucket in place

  function Poke<B>(slot: Wrap<B>, f: B -> B): Wrap<B> {
    slot.(value := f(slot.value))
  }

  /** Every live bucket updated where it is. */
  function PokeLive<B>(sh: Shape, r: Slots<B>, t: int, f: B -> B): (p: Slots<B>)
    ensures |p| == |r|
    ensures forall i :: 0 <= i < |r| ==> p[i] == if IsLive(sh, t, r[i]) then Some(Poke(r[i].value, f)) else r[i]
  {
    seq(|r|, i requires 0 <= i < |r| => if IsLive(sh, t, r[i]) then Some(Poke(r[i].value, f)) else r[i])
  }

  /** The events that leaves behind: one for each live bucket, stamped with its start. */
  function PokeEvents<B, E>(sh: Shape, r: Slots<B>, t: int, e: E): seq<Stamped<E>>
    requires forall i :: 0 <= i < |r| && r[i].Some? ==> r[i].value.start >= 0
  {
    if r == [] then []
    else
      PokeEvents(sh, r[..|r| - 1], t, e)
      + if IsLive(sh, t, r[|r| - 1]) then [Stamped(r[|r| - 1].value.start, e)] else []
  }

  predicate Started<B>(r: Slots<B>) {
    forall i :: 0 <= i < |r| && r[i].Some? ==> r[i].value.start >= 0
  }

  lemma TracksStarted<B, E>(sh: Shape, r: Slots<B>, h: seq<Stamped<E>>, last: int, empty: B, apply: (B, E) -> B)
    requires Tracks(sh, r, h, last, empty, apply)
    ensures Started(r)
  {
    forall i | 0 <= i < |r| && r[i].Some? ensures r[i].value.start >= 0 {
      assert SlotTracks(sh, r[i], i, h, last, empty, apply);
    }
  }

  lemma PokeOne<B, E>(sh: Shape, r: Slots<B>, i: nat, h: seq<Stamped<E>>, last: int, e: E, empty: B, apply: (B, E) -> B)
    requires Tracks(sh, r, h, last, empty, apply) && i < |r| && r[i].Some? && r[i].value.start >= 0
    ensures Tracks(sh, r[i := Some(Poke(r[i].value, b => apply(b, e)))], h + [Stamped(r[i].value.start, e)], last,
                   empty, apply)
  {
    var w := r[i].value;
    var p, g := r[i := Some(Poke(w, b => apply(b, e)))], h + [Stamped(w.start, e)];
    assert SlotTracks(sh, r[i], i, h, last, empty, apply);
    StartIsIdTimesLength(sh, w.start);
    assert IndexOf(sh, w.start) == i && Id(sh, w.start) == w.start / Length(sh);
    assert g[..|g| - 1] == h;
    forall j | 0 <= j < |p| ensures SlotTracks(sh, p[j], j, g, last, empty, apply) {
      assert SlotTracks(sh, r[j], j, h, last, empty, apply);
    }
  }

  /** The first n slots poked, the others not yet. */
  function Partly<B>(sh: Shape, r: Slots<B>, t: int, f: B -> B, n: nat): (p: Slots<B>)
    requires n <= |r|
    ensures |p| == |r|
  {
    PokeLive(sh, r, t, f)[..n] + r[n..]
  }

  lemma PartlyNext<B>(sh: Shape, r: Slots<B>, t: int, f: B -> B, n: nat)
    requires n < |r|
    ensures Partly(sh, r, t, f, n)[n] == r[n]
    ensures Partly(sh, r, t, f, n + 1)
         == if IsLive(sh, t, r[n]) then Partly(sh, r, t, f, n)[n := Some(Poke(r[n].value, f))]
            else Partly(sh, r, t, f, n)
  {
    var p := PokeLive(sh, r, t, f);
    assert p[..n + 1] == p[..n] + [p[n]] && r[n..] == [r[n]] + r[n + 1..];
  }

  lemma EventsNext<B, E>(sh: Shape, r: Slots<B>, t: int, e: E, n: nat, h: seq<Stamped<E>>)
    requires n < |r| && Started(r)
    ensures h + PokeEvents(sh, r[..n + 1], t, e)
         == (h + PokeEvents(sh, r[..n], t, e)) + if IsLive(sh, t, r[n]) then [Stamped(r[n].value.start, e)] else []
  {
    assert r[..n + 1][..n] == r[..n];
  }

  lemma {:induction false} PokeFirst<B, E>(sh: Shape, r: Slots<B>, n: nat, h: seq<Stamped<E>>, last: int, t: int, e: E,
                                           empty: B, apply: (B, E) -> B)
    requires Tracks(sh, r, h, last, empty, apply) && Started(r) && n <= |r|
    ensures Tracks(sh, Partly(sh, r, t, b => apply(b, e), n), h + PokeEvents(sh, r[..n], t, e), last, empty, apply)
  {
    var f := b => apply(b, e);
    if n == 0 {
      assert Partly(sh, r, t, f, 0) == r;
      assert h + PokeEvents(sh, r[..0], t, e) == h;
    } else {
      PokeFirst(sh, r, n - 1, h, last, t, e, empty, apply);
      var g := h + PokeEvents(sh, r[..n - 1], t, e);
      PartlyNext(sh, r, t, f, n - 1);
      EventsNext(sh, r, t, e, n - 1, h);
      if IsLive(sh, t, r[n - 1]) {
        PokeOne(sh, Partly(sh, r, t, f, n - 1), n - 1, g, last, e, empty, apply);
      } else {
        assert g + [] == g;
      }
    }
  }

  lemma PokeTracks<B, E>(sh: Shape, r: Slots<B>, h: seq<Stamped<E>>, last: int, t: int, e: E, empty: B,
                         apply: (B, E) -> B)
    requires Tracks(sh, r, h, last, empty, apply) && Started(r)
    ensures Tracks(sh, PokeLive(sh, r, t, b => apply(b, e)), h + PokeEvents(sh, r, t, e), last, empty, apply)
  {
    var f := b => apply(b, e);
    PokeFirst(sh, r, |r|, h, last, t, e, empty, apply);
    assert r[..|r|] == r;
    assert Partly(sh, r, t, f, |r|) == PokeLive(sh, r, t, f);
  }

  /** Events without weight do not show. */
  lemma {:induction false} PokesWeighNothing<B, E>(sh: Shape, h: seq<Stamped<E>>, r: Slots<B>, t: int, e: E, lo: int,
                                                   w: E -> int)
    requires IsShape(sh) && Started(r) && w(e) == 0
    ensures InSight(sh, h + PokeEvents(sh, r, t, e), lo, w) == InSight(sh, h, lo, w)
  {
    if r == [] {
      assert h + [] == h;
    } else {
      var n := |r| - 1;
      PokesWeighNothing(sh, h, r[..n], t, e, lo, w);
      var g := h + PokeEvents(sh, r[..n], t, e);
      if IsLive(sh, t, r[n]) {
        var s := Stamped(r[n].value.start, e);
        assert h + PokeEvents(sh, r, t, e) == g + [s];
        assert (g + [s])[..|g + [s]| - 1] == g;
      } else {
        assert h + PokeEvents(sh, r, t, e) == g;
      }
    }
  }
}
