/** A ring of time buckets standing in for the log of events that were put into it. */
module Ring {
  import opened Options

  /** `samples` buckets over `interval` milliseconds. */
  datatype Shape = Shape(samples: nat, interval: nat)

  datatype Wrap<B> = Wrap(start: int, value: B)

  type Slots<B> = seq<Option<Wrap<B>>>

  predicate IsShape(sh: Shape) {
    1 <= sh.samples <= sh.interval
  }

  function Length(sh: Shape): (r: nat)
    requires IsShape(sh)
    ensures r >= 1
  {
    sh.interval / sh.samples
  }

  function Id(sh: Shape, t: nat): nat
    requires IsShape(sh)
  {
    t / Length(sh)
  }

  /** CalculateTimeIdx. */
  function IndexOf(sh: Shape, t: nat): (r: nat)
    requires IsShape(sh)
    ensures r < sh.samples
  {
    Id(sh, t) % sh.samples
  }

  /** CalculateWindowStart. */
  function StartOf(sh: Shape, t: nat): int
    requires IsShape(sh)
  {
    t - t % Length(sh)
  }

  function Empty<B>(sh: Shape): (r: Slots<B>)
    ensures |r| == sh.samples
  {
    seq(sh.samples, _ => None)
  }

  /** What CurrentWindow leaves in the slots: a fresh bucket in place of none or of an older one. */
  function Current<B>(sh: Shape, r: Slots<B>, t: nat, empty: B): (c: Slots<B>)
    requires IsShape(sh) && |r| == sh.samples
    ensures |c| == sh.samples && c[IndexOf(sh, t)].Some?
  {
    var i := IndexOf(sh, t);
    if r[i].None? || r[i].value.start < StartOf(sh, t) then r[i := Some(Wrap(StartOf(sh, t), empty))] else r
  }

  /** An update of the current bucket; when the slot is ahead of t the update goes to a bucket nobody sees. */
  function Modify<B>(sh: Shape, r: Slots<B>, t: nat, empty: B, f: B -> B): (c: Slots<B>)
    requires IsShape(sh) && |r| == sh.samples
    ensures |c| == sh.samples
  {
    var i, c := IndexOf(sh, t), Current(sh, r, t, empty);
    if c[i].value.start == StartOf(sh, t) then c[i := Some(c[i].value.(value := f(c[i].value.value)))] else c
  }

  /** !IsBucketDeprecated. */
  predicate IsLive<B>(sh: Shape, t: int, slot: Option<Wrap<B>>) {
    slot.Some? && t - slot.value.start <= sh.interval
  }

  /** Buckets(t), in slot order. */
  function Live<B>(sh: Shape, r: Slots<B>, t: int): seq<Wrap<B>> {
    if r == [] then []
    else (if IsLive(sh, t, r[0]) then [r[0].value] else []) + Live(sh, r[1..], t)
  }

  // ---------------------------------------------------------------- the log of events

  datatype Stamped<E> = Stamped(time: nat, event: E)

  /** The bucket that the events of one bucket id add up to. */
  function BucketOf<B, E>(sh: Shape, h: seq<Stamped<E>>, id: int, empty: B, apply: (B, E) -> B): B
    requires IsShape(sh)
  {
    if h == [] then empty
    else
      var before := BucketOf(sh, h[..|h| - 1], id, empty, apply);
      var e := h[|h| - 1];
      if Id(sh, e.time) == id then apply(before, e.event) else before
  }

  ghost predicate NoneAbove<E>(sh: Shape, h: seq<Stamped<E>>, i: nat, id: int)
    requires IsShape(sh)
  {
    forall j :: 0 <= j < |h| && IndexOf(sh, h[j].time) == i ==> Id(sh, h[j].time) <= id
  }

  /** Slot i holds the latest bucket id of its residue that was in use, with all the events of that id. */
  ghost predicate SlotTracks<B, E>(sh: Shape, slot: Option<Wrap<B>>, i: nat, h: seq<Stamped<E>>, last: int,
                                   empty: B, apply: (B, E) -> B)
    requires IsShape(sh)
  {
    match slot
    case None => NoneAbove(sh, h, i, -1)
    case Some(w) =>
      var id := w.start / Length(sh);
      0 <= id <= last && w.start == id * Length(sh) && id % sh.samples == i
      && NoneAbove(sh, h, i, id) && w.value == BucketOf(sh, h, id, empty, apply)
  }

  /** The ring after sequential use up to bucket id `last`. */
  ghost predicate Tracks<B, E>(sh: Shape, r: Slots<B>, h: seq<Stamped<E>>, last: int, empty: B, apply: (B, E) -> B) {
    && IsShape(sh) && |r| == sh.samples
    && forall i :: 0 <= i < |r| ==> SlotTracks(sh, r[i], i, h, last, empty, apply)
  }

  /** The current slot holds the bucket `last`. */
  ghost predicate Recycled<B>(sh: Shape, r: Slots<B>, last: int)
    requires IsShape(sh) && |r| == sh.samples
  {
    last >= 0 && r[last % sh.samples].Some? && r[last % sh.samples].value.start == last * Length(sh)
  }

  lemma MulOrder(a: int, b: int, l: nat)
    requires l >= 1
    ensures a < b <==> a * l < b * l
    ensures a < b ==> a * l + l <= b * l
    ensures a == b <==> a * l == b * l
  {
    if a < b {
      assert (a + 1) * l <= b * l;
    } else if b < a {
      assert (b + 1) * l <= a * l;
    }
  }

  lemma DivisionIsUnique(a: nat, q: int, r: nat, n: nat)
    requires r < n && a == q * n + r
    ensures a / n == q && a % n == r
  {
    var x := a / n;
    assert a == x * n + a % n;
    MulOrder(q, x, n);
    MulOrder(x, q, n);
  }

  lemma DivOfProduct(a: nat, l: nat)
    requires l >= 1
    ensures a * l / l == a
  {
    assert a * l >= 0;
    DivisionIsUnique(a * l, a, 0, l);
  }

  lemma StartIsIdTimesLength(sh: Shape, t: nat)
    requires IsShape(sh)
    ensures StartOf(sh, t) == Id(sh, t) * Length(sh) && StartOf(sh, t) / Length(sh) == Id(sh, t)
    ensures Id(sh, t) * Length(sh) <= t < Id(sh, t) * Length(sh) + Length(sh)
  {
    DivOfProduct(Id(sh, t), Length(sh));
  }

  lemma EmptyTracks<B, E>(sh: Shape, empty: B, apply: (B, E) -> B)
    requires IsShape(sh)
    ensures Tracks(sh, Empty(sh), [], -1, empty, apply)
  {
  }

  /** No event has the id, so its bucket is empty. */
  lemma {:induction false} UnusedBucket<B, E>(sh: Shape, h: seq<Stamped<E>>, id: nat, bound: int, empty: B,
                                              apply: (B, E) -> B)
    requires IsShape(sh) && NoneAbove(sh, h, id % sh.samples, bound) && bound < id
    ensures BucketOf(sh, h, id, empty, apply) == empty
  {
    if h != [] {
      var n := |h| - 1;
      assert IndexOf(sh, h[n].time) == id % sh.samples ==> Id(sh, h[n].time) <= bound;
      assert NoneAbove(sh, h[..n], id % sh.samples, bound);
      UnusedBucket(sh, h[..n], id, bound, empty, apply);
    }
  }

  /** Refreshing the current bucket with a clock that does not go back. */
  lemma CurrentTracks<B, E>(sh: Shape, r: Slots<B>, h: seq<Stamped<E>>, last: int, t: nat, empty: B, apply: (B, E) -> B)
    requires Tracks(sh, r, h, last, empty, apply) && last <= Id(sh, t)
    ensures Tracks(sh, Current(sh, r, t, empty), h, Id(sh, t), empty, apply)
    ensures Recycled(sh, Current(sh, r, t, empty), Id(sh, t))
  {
    var i, id, c := IndexOf(sh, t), Id(sh, t), Current(sh, r, t, empty);
    StartIsIdTimesLength(sh, t);
    assert SlotTracks(sh, r[i], i, h, last, empty, apply);
    if r[i].Some? {
      MulOrder(r[i].value.start / Length(sh), id, Length(sh));
    }
    if c != r {
      var bound := if r[i].None? then -1 else r[i].value.start / Length(sh);
      UnusedBucket(sh, h, id, bound, empty, apply);
      assert NoneAbove(sh, h, i, id);
    }
    forall j | 0 <= j < |c| ensures SlotTracks(sh, c[j], j, h, id, empty, apply) {
      assert SlotTracks(sh, r[j], j, h, last, empty, apply);
    }
  }

  /** Recording an event with a clock that does not go back. */
  lemma ModifyTracks<B, E>(sh: Shape, r: Slots<B>, h: seq<Stamped<E>>, last: int, t: nat, e: E, empty: B,
                           apply: (B, E) -> B)
    requires Tracks(sh, r, h, last, empty, apply) && last <= Id(sh, t)
    ensures var m := Modify(sh, r, t, empty, b => apply(b, e));
      Tracks(sh, m, h + [Stamped(t, e)], Id(sh, t), empty, apply) && Recycled(sh, m, Id(sh, t))
  {
    var i, id, c := IndexOf(sh, t), Id(sh, t), Current(sh, r, t, empty);
    CurrentTracks(sh, r, h, last, t, empty, apply);
    StartIsIdTimesLength(sh, t);
    var m, g := Modify(sh, r, t, empty, b => apply(b, e)), h + [Stamped(t, e)];
    assert g[..|g| - 1] == h;
    forall j | 0 <= j < |m| ensures SlotTracks(sh, m[j], j, g, id, empty, apply) {
      assert SlotTracks(sh, c[j], j, h, id, empty, apply);
    }
  }

  // ---------------------------------------------------------------- what is live

  /** The largest bucket id that is out of sight at time t for a ring last refreshed in bucket `last`. */
  function Horizon(sh: Shape, last: int, t: nat): int
    requires IsShape(sh)
  {
    var id := Id(sh, t);
    if id > last && t % Length(sh) <= sh.interval % sh.samples then id - sh.samples - 1 else id - sh.samples
  }

  /** The shapes for which no stale bucket is ever counted; all those whose samples divide the interval. */
  predicate IsExact(sh: Shape) {
    IsShape(sh) && sh.interval % sh.samples < Length(sh)
  }

  lemma IntervalParts(sh: Shape)
    requires IsShape(sh)
    ensures sh.interval == sh.samples * Length(sh) + sh.interval % sh.samples
  {
  }

  lemma SameResidue(a: nat, b: nat, n: nat)
    requires n >= 1 && a % n == b % n && a < b
    ensures a <= b - n
  {
    var x, y := a / n, b / n;
    assert a == n * x + a % n && b == n * y + b % n;
    assert x < y by {
      if y <= x {
        MulOrder(y, x, n);
      }
    }
    MulOrder(x, y, n);
  }

  /** An age of d buckets and s milliseconds against an interval of n buckets and rem milliseconds. */
  lemma AgeWithin(d: nat, s: nat, n: nat, rem: nat, l: nat)
    requires s < l && rem < l
    ensures d * l + s <= n * l + rem <==> d < n || (d == n && s <= rem)
  {
    MulOrder(d, n, l);
    MulOrder(n, d, l);
  }

  lemma NextOfResidue(a: nat, n: nat)
    requires n >= 1
    ensures (a + n) % n == a % n
  {
    var q := a / n;
    assert (q + 1) * n == q * n + n;
    DivisionIsUnique(a + n, q + 1, a % n, n);
  }

  lemma LiveIff(sh: Shape, last: nat, t: nat, id: nat)
    requires IsExact(sh) && id <= last <= Id(sh, t) && (id == last || id % sh.samples != last % sh.samples)
    ensures t - id * Length(sh) <= sh.interval <==> id > Horizon(sh, last, t)
    ensures id - sh.samples <= Horizon(sh, last, t)
  {
    var now, l, n := Id(sh, t), Length(sh), sh.samples;
    IntervalParts(sh);
    StartIsIdTimesLength(sh, t);
    NextOfResidue(id, n);
    var d, s := now - id, t % l;
    assert d * l + s == t - id * l;
    AgeWithin(d, s, n, sh.interval % n, l);
  }

  /** Told from the times alone: a window refreshed at t1 and read at t2 shows what happened at `time` when the start of
      its bucket lies no more than the interval back and its slot has not been taken for t1's bucket. */
  predicate IsShown(sh: Shape, time: nat, t1: nat, t2: nat)
    requires IsShape(sh)
  {
    var length := sh.interval / sh.samples;
    t2 - (time - time % length) <= sh.interval && time / length + sh.samples > t1 / length
  }

  /** That is what the horizon separates. */
  lemma HorizonShows(sh: Shape, time: nat, t1: nat, t2: nat)
    requires IsExact(sh) && time <= t1 <= t2
    ensures IsShown(sh, time, t1, t2) <==> Id(sh, time) > Horizon(sh, Id(sh, t1), t2)
  {
    var id, last, n := Id(sh, time), Id(sh, t1), sh.samples;
    StartIsIdTimesLength(sh, time);
    StartIsIdTimesLength(sh, t1);
    StartIsIdTimesLength(sh, t2);
    MulOrder(last, id, Length(sh));
    MulOrder(Id(sh, t2), last, Length(sh));
    if id + n > last {
      if id != last && id % n == last % n {
        SameResidue(id, last, n);
      }
      LiveIff(sh, last, t2, id);
    }
  }

  /** One slot: live exactly when its bucket id is in sight, and then it speaks for its whole residue. */
  lemma SlotLiveIff<B, E>(sh: Shape, r: Slots<B>, i: nat, h: seq<Stamped<E>>, last: nat, t: nat, empty: B,
                          apply: (B, E) -> B)
    requires IsExact(sh) && Tracks(sh, r, h, last, empty, apply) && Recycled(sh, r, last) && last <= Id(sh, t)
    requires i < |r| && r[i].Some?
    ensures var id := r[i].value.start / Length(sh);
      && (IsLive(sh, t, r[i]) <==> id > Horizon(sh, last, t))
      && id - sh.samples <= Horizon(sh, last, t)
  {
    assert SlotTracks(sh, r[i], i, h, last, empty, apply);
    DivOfProduct(last, Length(sh));
    LiveIff(sh, last, t, r[i].value.start / Length(sh));
  }

  // ---------------------------------------------------------------- sums

  /** The weight of the events with bucket ids beyond `lo`. */
  function InSight<E>(sh: Shape, h: seq<Stamped<E>>, lo: int, w: E -> int): int
    requires IsShape(sh)
  {
    if h == [] then 0
    else
      var e := h[|h| - 1];
      InSight(sh, h[..|h| - 1], lo, w) + if Id(sh, e.time) > lo then w(e.event) else 0
  }

  function InSightOfSlot<E>(sh: Shape, h: seq<Stamped<E>>, lo: int, i: nat, w: E -> int): int
    requires IsShape(sh)
  {
    if h == [] then 0
    else
      var e := h[|h| - 1];
      InSightOfSlot(sh, h[..|h| - 1], lo, i, w)
      + if Id(sh, e.time) > lo && IndexOf(sh, e.time) == i then w(e.event) else 0
  }

  function InSightOfSlots<E>(sh: Shape, h: seq<Stamped<E>>, lo: int, i: nat, w: E -> int): int
    requires IsShape(sh) && i <= sh.samples
    decreases sh.samples - i
  {
    if i == sh.samples then 0 else InSightOfSlot(sh, h, lo, i, w) + InSightOfSlots(sh, h, lo, i + 1, w)
  }

  function SumOfLive<B>(sh: Shape, r: Slots<B>, t: int, m: B -> int): int {
    if r == [] then 0
    else (if IsLive(sh, t, r[0]) then m(r[0].value.value) else 0) + SumOfLive(sh, r[1..], t, m)
  }

  lemma {:induction false} NoEventsNoWeight<E>(sh: Shape, lo: int, i: nat, w: E -> int)
    requires IsShape(sh) && i <= sh.samples
    ensures InSightOfSlots<E>(sh, [], lo, i, w) == 0
    decreases sh.samples - i
  {
    if i < sh.samples {
      NoEventsNoWeight<E>(sh, lo, i + 1, w);
    }
  }

  lemma {:induction false} LastEventInOneSlot<E>(sh: Shape, h: seq<Stamped<E>>, lo: int, i: nat, w: E -> int)
    requires IsShape(sh) && i <= sh.samples && h != []
    ensures var e := h[|h| - 1];
      InSightOfSlots(sh, h, lo, i, w) == InSightOfSlots(sh, h[..|h| - 1], lo, i, w)
        + if Id(sh, e.time) > lo && IndexOf(sh, e.time) >= i then w(e.event) else 0
    decreases sh.samples - i
  {
    if i < sh.samples {
      LastEventInOneSlot(sh, h, lo, i + 1, w);
    }
  }

  /** Every event in sight belongs to one slot. */
  lemma {:induction false} SlotsPartitionEvents<E>(sh: Shape, h: seq<Stamped<E>>, lo: int, w: E -> int)
    requires IsShape(sh)
    ensures InSightOfSlots(sh, h, lo, 0, w) == InSight(sh, h, lo, w)
  {
    if h == [] {
      NoEventsNoWeight<E>(sh, lo, 0, w);
    } else {
      LastEventInOneSlot(sh, h, lo, 0, w);
      SlotsPartitionEvents(sh, h[..|h| - 1], lo, w);
    }
  }

  /** `m` measures a bucket by the weights of the events in it. */
  ghost predicate Measures<B(!new), E(!new)>(m: B -> int, w: E -> int, empty: B, apply: (B, E) -> B) {
    m(empty) == 0 && forall b, e :: m(apply(b, e)) == m(b) + w(e)
  }

  lemma NoneAbovePrefix<E>(sh: Shape, h: seq<Stamped<E>>, i: nat, id: int)
    requires IsShape(sh) && h != [] && NoneAbove(sh, h, i, id)
    ensures NoneAbove(sh, h[..|h| - 1], i, id)
    ensures var e := h[|h| - 1]; IndexOf(sh, e.time) == i ==> Id(sh, e.time) <= id
  {
  }

  /** The bucket of the latest id of a slot weighs what the slot's events in sight weigh. */
  lemma {:induction false} BucketWeighsSlot<B(!new), E(!new)>(sh: Shape, h: seq<Stamped<E>>, lo: int, id: nat,
                                                              m: B -> int, w: E -> int, empty: B, apply: (B, E) -> B)
    requires IsShape(sh) && Measures(m, w, empty, apply)
    requires NoneAbove(sh, h, id % sh.samples, id) && id - sh.samples <= lo < id
    ensures m(BucketOf(sh, h, id, empty, apply)) == InSightOfSlot(sh, h, lo, id % sh.samples, w)
  {
    if h != [] {
      var e := h[|h| - 1];
      NoneAbovePrefix(sh, h, id % sh.samples, id);
      BucketWeighsSlot(sh, h[..|h| - 1], lo, id, m, w, empty, apply);
      if IndexOf(sh, e.time) == id % sh.samples && Id(sh, e.time) < id {
        SameResidue(Id(sh, e.time), id, sh.samples);
      }
    }
  }

  lemma {:induction false} OldSlotWeighsNothing<E>(sh: Shape, h: seq<Stamped<E>>, lo: int, i: nat, bound: int,
                                                   w: E -> int)
    requires IsShape(sh) && NoneAbove(sh, h, i, bound) && (bound <= lo || bound == -1)
    ensures InSightOfSlot(sh, h, lo, i, w) == 0
  {
    if h != [] {
      NoneAbovePrefix(sh, h, i, bound);
      OldSlotWeighsNothing(sh, h[..|h| - 1], lo, i, bound, w);
    }
  }

  lemma SlotSum<B(!new), E(!new)>(sh: Shape, r: Slots<B>, i: nat, h: seq<Stamped<E>>, last: nat, t: nat,
                                  m: B -> int, w: E -> int, empty: B, apply: (B, E) -> B)
    requires IsExact(sh) && Tracks(sh, r, h, last, empty, apply) && Recycled(sh, r, last) && last <= Id(sh, t)
    requires Measures(m, w, empty, apply) && i < |r|
    ensures (if IsLive(sh, t, r[i]) then m(r[i].value.value) else 0)
         == InSightOfSlot(sh, h, Horizon(sh, last, t), i, w)
  {
    var lo := Horizon(sh, last, t);
    assert SlotTracks(sh, r[i], i, h, last, empty, apply);
    if r[i].None? {
      OldSlotWeighsNothing(sh, h, lo, i, -1, w);
    } else {
      var id := r[i].value.start / Length(sh);
      SlotLiveIff(sh, r, i, h, last, t, empty, apply);
      if IsLive(sh, t, r[i]) {
        BucketWeighsSlot(sh, h, lo, id, m, w, empty, apply);
      } else {
        OldSlotWeighsNothing(sh, h, lo, i, id, w);
      }
    }
  }

  lemma {:induction false} SumFromSlot<B(!new), E(!new)>(sh: Shape, r: Slots<B>, i: nat, h: seq<Stamped<E>>, last: nat,
                                                         t: nat, m: B -> int, w: E -> int, empty: B, apply: (B, E) -> B)
    requires IsExact(sh) && Tracks(sh, r, h, last, empty, apply) && Recycled(sh, r, last) && last <= Id(sh, t)
    requires Measures(m, w, empty, apply) && i <= |r|
    ensures SumOfLive(sh, r[i..], t, m) == InSightOfSlots(sh, h, Horizon(sh, last, t), i, w)
    decreases |r| - i
  {
    if i < |r| {
      SlotSum(sh, r, i, h, last, t, m, w, empty, apply);
      SumFromSlot(sh, r, i + 1, h, last, t, m, w, empty, apply);
      assert r[i..][0] == r[i] && r[i..][1..] == r[i + 1..];
    }
  }

  /** The live buckets of a ring weigh what the events in sight weigh. */
  lemma LiveSumIsEventSum<B(!new), E(!new)>(sh: Shape, r: Slots<B>, h: seq<Stamped<E>>, last: nat, t: nat,
                                            m: B -> int, w: E -> int, empty: B, apply: (B, E) -> B)
    requires IsExact(sh) && Tracks(sh, r, h, last, empty, apply) && Recycled(sh, r, last) && last <= Id(sh, t)
    requires Measures(m, w, empty, apply)
    ensures SumOfLive(sh, r, t, m) == InSight(sh, h, Horizon(sh, last, t), w)
  {
    SumFromSlot(sh, r, 0, h, last, t, m, w, empty, apply);
    assert r[0..] == r;
    SlotsPartitionEvents(sh, h, Horizon(sh, last, t), w);
  }

  // ---------------------------------------------------------------- each live bucket

  /** The bucket ids in sight, each with all of its events. */
  ghost predicate IsBucketInSight<B, E>(sh: Shape, w: Wrap<B>, h: seq<Stamped<E>>, lo: int, empty: B,
                                        apply: (B, E) -> B)
    requires IsShape(sh)
  {
    var id := w.start / Length(sh);
    id > lo && id >= 0 && w.start == id * Length(sh) && w.value == BucketOf(sh, h, id, empty, apply)
  }

  lemma {:induction false} LiveMember<B>(sh: Shape, r: Slots<B>, t: int, w: Wrap<B>)
    ensures w in Live(sh, r, t) <==> Some(w) in r && IsLive(sh, t, Some(w))
  {
    if r != [] {
      LiveMember(sh, r[1..], t, w);
      assert r == [r[0]] + r[1..];
    }
  }

  lemma LiveIsInSight<B, E>(sh: Shape, r: Slots<B>, h: seq<Stamped<E>>, last: nat, t: nat, w: Wrap<B>, empty: B,
                            apply: (B, E) -> B)
    requires IsExact(sh) && Tracks(sh, r, h, last, empty, apply) && Recycled(sh, r, last) && last <= Id(sh, t)
    requires w in Live(sh, r, t)
    ensures IsBucketInSight(sh, w, h, Horizon(sh, last, t), empty, apply)
  {
    LiveMember(sh, r, t, w);
    var i :| 0 <= i < |r| && r[i] == Some(w);
    assert SlotTracks(sh, r[i], i, h, last, empty, apply);
    SlotLiveIff(sh, r, i, h, last, t, empty, apply);
  }

  /** Every event in sight is in a live bucket. */
  lemma InSightIsLive<B, E>(sh: Shape, r: Slots<B>, h: seq<Stamped<E>>, last: nat, t: nat, j: nat, empty: B,
                            apply: (B, E) -> B)
    requires IsExact(sh) && Tracks(sh, r, h, last, empty, apply) && Recycled(sh, r, last) && last <= Id(sh, t)
    requires j < |h| && Id(sh, h[j].time) > Horizon(sh, last, t)
    ensures var id := Id(sh, h[j].time);
      Wrap(id * Length(sh), BucketOf(sh, h, id, empty, apply)) in Live(sh, r, t)
  {
    var i, id := IndexOf(sh, h[j].time), Id(sh, h[j].time);
    assert SlotTracks(sh, r[i], i, h, last, empty, apply);
    SlotLiveIff(sh, r, i, h, last, t, empty, apply);
    var k := r[i].value.start / Length(sh);
    if id < k {
      SameResidue(id, k, sh.samples);
      assert false;
    }
    assert id == k;
    LiveMember(sh, r, t, r[i].value);
  }

  // ---------------------------------------------------------------- other shapes

  lemma StaleAge(sh: Shape, t: nat)
    requires IsShape(sh) && !IsExact(sh) && t == (sh.samples + 1) * Length(sh)
    ensures sh.samples >= 2 && t <= sh.interval
  {
    IntervalParts(sh);
    assert t == sh.samples * Length(sh) + Length(sh);
  }

  lemma StartOfMultiple(sh: Shape, t: nat, q: nat)
    requires IsShape(sh) && t == q * Length(sh)
    ensures StartOf(sh, t) == t && Id(sh, t) == q
  {
    DivisionIsUnique(t, q, 0, Length(sh));
  }

  lemma ShapeOfStale(sh: Shape, t: nat)
    requires IsShape(sh) && !IsExact(sh) && t == (sh.samples + 1) * Length(sh)
    ensures sh.samples >= 2 && t <= sh.interval && StartOf(sh, t) == t
    ensures Id(sh, t) == sh.samples + 1 && IndexOf(sh, t) == 1 && IndexOf(sh, 0) == 0 && StartOf(sh, 0) == 0
  {
    StaleAge(sh, t);
    StartOfMultiple(sh, t, sh.samples + 1);
    StartOfMultiple(sh, 0, 0);
    DivisionIsUnique(sh.samples + 1, 1, 1, sh.samples);
  }

  /** Whenever the shape is not exact, some run counts a bucket that has left the window. */
  lemma StaleBucketIsLive<B, E>(sh: Shape, e: E, empty: B, apply: (B, E) -> B)
    requires IsShape(sh) && !IsExact(sh)
    ensures var t := (sh.samples + 1) * Length(sh);
      var r := Current(sh, Modify(sh, Empty(sh), 0, empty, b => apply(b, e)), t, empty);
      Wrap(0, apply(empty, e)) in Live(sh, r, t) && 0 <= Id(sh, t) - sh.samples
  {
    var t := (sh.samples + 1) * Length(sh);
    ShapeOfStale(sh, t);
    var first := Modify(sh, Empty(sh), 0, empty, b => apply(b, e));
    assert first[0] == Some(Wrap(0, apply(empty, e)));
    var r := Current(sh, first, t, empty);
    assert r[0] == first[0];
    LiveMember(sh, r, t, Wrap(0, apply(empty, e)));
  }
}
