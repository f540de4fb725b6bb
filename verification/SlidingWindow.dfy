/** Counters over a sliding window: every total equals a fold over the events still in sight. */
module SlidingWindow {
  import opened Ring
  import opened LeapArray

  const MAX_ALLOWED_RT := 4900

  datatype MetricEvent = PASS | BLOCK | EXCEPTION | COMPLETE | RT

  datatype MetricBucket = MetricBucket(pass: int, block: int, exception: int, complete: int, rt: int, minRt: int)

  /** One Add call. */
  datatype Event = Count(event: MetricEvent, n: int) | Elapsed(rt: int)

  const EMPTY := MetricBucket(0, 0, 0, 0, 0, MAX_ALLOWED_RT)

  function Get(b: MetricBucket, event: MetricEvent): int {
    match event
    case PASS => b.pass
    case BLOCK => b.block
    case EXCEPTION => b.exception
    case COMPLETE => b.complete
    case RT => b.rt
  }

  function Add(b: MetricBucket, event: MetricEvent, n: int): MetricBucket {
    match event
    case PASS => b.(pass := b.pass + n)
    case BLOCK => b.(block := b.block + n)
    case EXCEPTION => b.(exception := b.exception + n)
    case COMPLETE => b.(complete := b.complete + n)
    case RT => b.(rt := b.rt + n)
  }

  function Apply(b: MetricBucket, e: Event): MetricBucket {
    match e
    case Count(event, n) => Add(b, event, n)
    case Elapsed(rt) =>
      var added := Add(b, RT, rt);
      if rt < added.minRt then added.(minRt := rt) else added
  }

  /** What an event adds to a total. */
  function Weight(event: MetricEvent): Event -> int {
    (e: Event) => match e
      case Count(ev, n) => if ev == event then n else 0
      case Elapsed(rt) => if event == RT then rt else 0
  }

  function Counter(event: MetricEvent): MetricBucket -> int {
    b => Get(b, event)
  }

  lemma CountersMeasure(event: MetricEvent)
    ensures Measures(Counter(event), Weight(event), EMPTY, Apply)
  {
  }

  type History = seq<Stamped<Event>>

  // ---------------------------------------------------------------- response times and completions

  /** The shortest response time among the events of bucket ids beyond lo, or the longest allowed one. */
  function ShortestRt(sh: Shape, h: History, lo: int): int
    requires IsShape(sh)
  {
    if h == [] then MAX_ALLOWED_RT
    else
      var e, before := h[|h| - 1], ShortestRt(sh, h[..|h| - 1], lo);
      if e.event.Elapsed? && Id(sh, e.time) > lo && e.event.rt < before then e.event.rt else before
  }

  lemma {:induction false} ShortestIsLeast(sh: Shape, h: History, lo: int, j: nat)
    requires IsShape(sh) && j < |h| && h[j].event.Elapsed? && Id(sh, h[j].time) > lo
    ensures ShortestRt(sh, h, lo) <= h[j].event.rt
  {
    if j < |h| - 1 {
      ShortestIsLeast(sh, h[..|h| - 1], lo, j);
    }
  }

  /** The event that the shortest response time comes from. */
  lemma {:induction false} ShortestIsAttained(sh: Shape, h: History, lo: int) returns (j: nat)
    requires IsShape(sh) && ShortestRt(sh, h, lo) != MAX_ALLOWED_RT
    ensures j < |h| && h[j].event == Elapsed(ShortestRt(sh, h, lo)) && Id(sh, h[j].time) > lo
  {
    var n := |h| - 1;
    if h[n].event == Elapsed(ShortestRt(sh, h, lo)) && Id(sh, h[n].time) > lo {
      j := n;
    } else {
      j := ShortestIsAttained(sh, h[..n], lo);
    }
  }

  lemma {:induction false} ShortestIsAllowed(sh: Shape, h: History, lo: int)
    requires IsShape(sh)
    ensures ShortestRt(sh, h, lo) <= MAX_ALLOWED_RT
  {
    if h != [] {
      ShortestIsAllowed(sh, h[..|h| - 1], lo);
    }
  }

  /** A bucket's shortest response time is that of its events. */
  lemma {:induction false} BucketMinRt(sh: Shape, h: History, id: int)
    requires IsShape(sh)
    ensures var b := BucketOf(sh, h, id, EMPTY, Apply);
      && b.minRt <= MAX_ALLOWED_RT
      && (forall j :: 0 <= j < |h| && Id(sh, h[j].time) == id && h[j].event.Elapsed? ==> b.minRt <= h[j].event.rt)
      && (b.minRt == MAX_ALLOWED_RT
          || exists j :: 0 <= j < |h| && Id(sh, h[j].time) == id && h[j].event == Elapsed(b.minRt))
  {
    if h != [] {
      var n := |h| - 1;
      BucketMinRt(sh, h[..n], id);
      var before, b := BucketOf(sh, h[..n], id, EMPTY, Apply), BucketOf(sh, h, id, EMPTY, Apply);
      if b.minRt != before.minRt {
        assert h[n].event == Elapsed(b.minRt);
      } else if before.minRt != MAX_ALLOWED_RT {
        var j :| 0 <= j < n && Id(sh, h[..n][j].time) == id && h[..n][j].event == Elapsed(before.minRt);
        assert h[j] == h[..n][j];
      }
      forall j | 0 <= j < |h| && Id(sh, h[j].time) == id && h[j].event.Elapsed? ensures b.minRt <= h[j].event.rt {
        if j < n {
          assert h[j] == h[..n][j];
        }
      }
    }
  }

  /** What the loop of MinRt computes. */
  function LeastMinRt(values: seq<MetricBucket>): int {
    if values == [] then MAX_ALLOWED_RT
    else
      var before := LeastMinRt(values[..|values| - 1]);
      var m := values[|values| - 1].minRt;
      if m < before then m else before
  }

  lemma {:induction false} LeastOfValues(values: seq<MetricBucket>)
    ensures LeastMinRt(values) <= MAX_ALLOWED_RT
    ensures forall i :: 0 <= i < |values| ==> LeastMinRt(values) <= values[i].minRt
    ensures LeastMinRt(values) == MAX_ALLOWED_RT
      || exists i :: 0 <= i < |values| && values[i].minRt == LeastMinRt(values)
  {
    if values != [] {
      LeastOfValues(values[..|values| - 1]);
    }
  }

  /** What the loop of MaxComplete computes. */
  function MostComplete(values: seq<MetricBucket>): int {
    if values == [] then 0
    else
      var before := MostComplete(values[..|values| - 1]);
      var c := values[|values| - 1].complete;
      if c > before then c else before
  }

  lemma {:induction false} MostOfValues(values: seq<MetricBucket>)
    ensures MostComplete(values) >= 0
    ensures forall i :: 0 <= i < |values| ==> MostComplete(values) >= values[i].complete
    ensures MostComplete(values) == 0 || exists i :: 0 <= i < |values| && values[i].complete == MostComplete(values)
  {
    if values != [] {
      MostOfValues(values[..|values| - 1]);
    }
  }

  /** The completions of one bucket id. */
  function Completed(sh: Shape, h: History, id: int): int
    requires IsShape(sh)
  {
    BucketOf(sh, h, id, EMPTY, Apply).complete
  }

  /** v is the largest number of completions of any bucket in sight, and at least 1. */
  ghost predicate IsMostCompleted(sh: Shape, h: History, lo: int, v: int)
    requires IsShape(sh)
  {
    && v >= 1
    && (forall j :: 0 <= j < |h| && Id(sh, h[j].time) > lo ==> Completed(sh, h, Id(sh, h[j].time)) <= v)
    && (v == 1 || exists j :: 0 <= j < |h| && Id(sh, h[j].time) > lo && Completed(sh, h, Id(sh, h[j].time)) == v)
  }

  /** The values in sight of a ring that tracks its history: those of the bucket ids beyond lo. */
  ghost predicate Shows(sh: Shape, live: seq<Wrap<MetricBucket>>, h: History, lo: int)
    requires IsShape(sh)
  {
    && (forall w :: w in live ==> IsBucketInSight(sh, w, h, lo, EMPTY, Apply))
    && (forall j :: 0 <= j < |h| && Id(sh, h[j].time) > lo ==>
          var id := Id(sh, h[j].time); Wrap(id * Length(sh), BucketOf(sh, h, id, EMPTY, Apply)) in live)
  }

  lemma TracksShows(sh: Shape, r: Slots<MetricBucket>, h: History, last: nat, t: nat)
    requires IsExact(sh) && Tracks(sh, r, h, last, EMPTY, Apply) && Recycled(sh, r, last) && last <= Id(sh, t)
    ensures Shows(sh, Live(sh, r, t), h, Horizon(sh, last, t))
  {
    forall w | w in Live(sh, r, t) ensures IsBucketInSight(sh, w, h, Horizon(sh, last, t), EMPTY, Apply) {
      LiveIsInSight(sh, r, h, last, t, w, EMPTY, Apply);
    }
    forall j | 0 <= j < |h| && Id(sh, h[j].time) > Horizon(sh, last, t)
      ensures var id := Id(sh, h[j].time);
        Wrap(id * Length(sh), BucketOf(sh, h, id, EMPTY, Apply)) in Live(sh, r, t)
    {
      InSightIsLive(sh, r, h, last, t, j, EMPTY, Apply);
    }
  }

  lemma {:induction false} BucketHasEvent(sh: Shape, h: History, id: int) returns (j: int)
    requires IsShape(sh) && BucketOf(sh, h, id, EMPTY, Apply) != EMPTY
    ensures 0 <= j < |h| && Id(sh, h[j].time) == id
  {
    if Id(sh, h[|h| - 1].time) == id {
      j := |h| - 1;
    } else {
      j := BucketHasEvent(sh, h[..|h| - 1], id);
    }
  }

  lemma MinRtIsShortest(sh: Shape, live: seq<Wrap<MetricBucket>>, h: History, lo: int)
    requires IsShape(sh) && Shows(sh, live, h, lo)
    ensures LeastMinRt(ValuesOf(live)) == ShortestRt(sh, h, lo)
  {
    var values, v, s := ValuesOf(live), LeastMinRt(ValuesOf(live)), ShortestRt(sh, h, lo);
    LeastOfValues(values);
    ShortestIsAllowed(sh, h, lo);
    if v != MAX_ALLOWED_RT {
      var i :| 0 <= i < |values| && values[i].minRt == v;
      assert live[i] in live;
      var id := live[i].start / Length(sh);
      BucketMinRt(sh, h, id);
      var j :| 0 <= j < |h| && Id(sh, h[j].time) == id && h[j].event == Elapsed(v);
      ShortestIsLeast(sh, h, lo, j);
    }
    if s != MAX_ALLOWED_RT {
      var j := ShortestIsAttained(sh, h, lo);
      var id := Id(sh, h[j].time);
      BucketMinRt(sh, h, id);
      var w := Wrap(id * Length(sh), BucketOf(sh, h, id, EMPTY, Apply));
      assert w in live;
      var i :| 0 <= i < |live| && live[i] == w;
      assert values[i] == w.value;
    }
  }

  lemma MaxCompleteIsMost(sh: Shape, live: seq<Wrap<MetricBucket>>, h: History, lo: int)
    requires IsShape(sh) && Shows(sh, live, h, lo)
    ensures var c := MostComplete(ValuesOf(live)); IsMostCompleted(sh, h, lo, if c < 1 then 1 else c)
  {
    var values := ValuesOf(live);
    var c := MostComplete(values);
    MostOfValues(values);
    forall j | 0 <= j < |h| && Id(sh, h[j].time) > lo ensures Completed(sh, h, Id(sh, h[j].time)) <= c {
      var id := Id(sh, h[j].time);
      var w := Wrap(id * Length(sh), BucketOf(sh, h, id, EMPTY, Apply));
      assert w in live;
      var i :| 0 <= i < |live| && live[i] == w;
      assert values[i] == w.value;
    }
    if c > 1 {
      var i :| 0 <= i < |values| && values[i].complete == c;
      assert live[i] in live;
      var id := live[i].start / Length(sh);
      var j := BucketHasEvent(sh, h, id);
      assert Completed(sh, h, Id(sh, h[j].time)) == c;
    }
  }

  // ---------------------------------------------------------------- totals told from the events and their times

  ghost predicate UpTo(h: History, t: nat) {
    forall i :: 0 <= i < |h| ==> h[i].time <= t
  }

  /** What has been added for an event at times that a window refreshed at t1 and read at t2 shows. */
  function Shown(sh: Shape, h: History, event: MetricEvent, t1: nat, t2: nat): int
    requires IsShape(sh)
  {
    if h == [] then 0
    else
      var e := h[|h| - 1];
      var n := match e.event
        case Count(ev, n) => if ev == event then n else 0
        case Elapsed(rt) => if event == RT then rt else 0;
      Shown(sh, h[..|h| - 1], event, t1, t2) + if IsShown(sh, e.time, t1, t2) then n else 0
  }

  lemma {:induction false} ShownIsInSight(sh: Shape, h: History, event: MetricEvent, t1: nat, t2: nat)
    requires IsExact(sh) && UpTo(h, t1) && t1 <= t2
    ensures InSight(sh, h, Horizon(sh, Id(sh, t1), t2), Weight(event)) == Shown(sh, h, event, t1, t2)
  {
    if h != [] {
      ShownIsInSight(sh, h[..|h| - 1], event, t1, t2);
      HorizonShows(sh, h[|h| - 1].time, t1, t2);
    }
  }

  // ---------------------------------------------------------------- the object

  datatype Detail = Detail(timestamp: int, pass: int, block: int, exception: int, complete: int, rt: int)

  /** The average response time, truncated toward zero; the sum when nothing completed. */
  function AverageRt(rt: int, complete: int): int {
    if complete <= 0 then rt else if rt >= 0 then rt / complete else -((-rt) / complete)
  }

  function DetailOf(w: Wrap<MetricBucket>): Detail {
    var b := w.value;
    Detail(w.start, b.pass, b.block, b.exception, b.complete, AverageRt(b.rt, b.complete))
  }

  /** The sum of the n of all Count(event, n) of one bucket id. */
  function Counted(sh: Shape, h: History, id: int, event: MetricEvent): int
    requires IsShape(sh)
  {
    if h == [] then 0
    else
      var e := h[|h| - 1];
      Counted(sh, h[..|h| - 1], id, event)
      + if Id(sh, e.time) == id && e.event.Count? && e.event.event == event then e.event.n else 0
  }

  /** The sum of all response times of one bucket id. */
  function Spent(sh: Shape, h: History, id: int): int
    requires IsShape(sh)
  {
    if h == [] then 0
    else
      var e := h[|h| - 1];
      Spent(sh, h[..|h| - 1], id) + if Id(sh, e.time) == id && e.event.Elapsed? then e.event.rt else 0
  }

  /** q is a divided by n, rounded toward zero. */
  predicate IsQuotient(q: int, a: int, n: int) {
    if a >= 0 then q * n <= a < q * n + n else q * n - n < a <= q * n
  }

  /** What an item says about a bucket id, told from the events. RT is not an event of its own. */
  ghost predicate IsTally(sh: Shape, h: History, id: int, d: Detail)
    requires IsShape(sh)
  {
    && d.timestamp == id * Length(sh)
    && d.pass == Counted(sh, h, id, PASS) && d.block == Counted(sh, h, id, BLOCK)
    && d.exception == Counted(sh, h, id, EXCEPTION) && d.complete == Counted(sh, h, id, COMPLETE)
    && var rt := Spent(sh, h, id) + Counted(sh, h, id, RT);
       if d.complete <= 0 then d.rt == rt else IsQuotient(d.rt, rt, d.complete)
  }

  lemma {:induction false} BucketCounts(sh: Shape, h: History, id: int)
    requires IsShape(sh)
    ensures var b := BucketOf(sh, h, id, EMPTY, Apply);
      && b.pass == Counted(sh, h, id, PASS) && b.block == Counted(sh, h, id, BLOCK)
      && b.exception == Counted(sh, h, id, EXCEPTION) && b.complete == Counted(sh, h, id, COMPLETE)
      && b.rt == Spent(sh, h, id) + Counted(sh, h, id, RT)
  {
    if h != [] {
      BucketCounts(sh, h[..|h| - 1], id);
    }
  }

  lemma AverageIsQuotient(rt: int, n: int)
    requires n > 0
    ensures IsQuotient(AverageRt(rt, n), rt, n)
  {
    var a := if rt >= 0 then rt else -rt;
    assert a == a / n * n + a % n;
    assert -(a / n) * n == -(a / n * n);
  }

  /** The item made from a bucket tallies its events. */
  lemma DetailIsTally(sh: Shape, h: History, id: int)
    requires IsShape(sh)
    ensures IsTally(sh, h, id, DetailOf(Wrap(id * Length(sh), BucketOf(sh, h, id, EMPTY, Apply))))
  {
    var b := BucketOf(sh, h, id, EMPTY, Apply);
    BucketCounts(sh, h, id);
    if b.complete > 0 {
      AverageIsQuotient(b.rt, b.complete);
    }
  }

  /** The items of the buckets in sight: each tallies a bucket id beyond lo, and each such id with events has one. */
  ghost predicate Tallies(sh: Shape, items: seq<Detail>, h: History, lo: int)
    requires IsShape(sh)
  {
    && (forall d :: d in items ==> d.timestamp / Length(sh) > lo && IsTally(sh, h, d.timestamp / Length(sh), d))
    && (forall j :: 0 <= j < |h| && Id(sh, h[j].time) > lo ==>
          exists d :: d in items && IsTally(sh, h, Id(sh, h[j].time), d))
  }

  lemma ShowsTallies(sh: Shape, live: seq<Wrap<MetricBucket>>, h: History, lo: int)
    requires IsShape(sh) && Shows(sh, live, h, lo)
    ensures Tallies(sh, DetailsOf(live), h, lo)
  {
    var items := DetailsOf(live);
    forall d | d in items ensures d.timestamp / Length(sh) > lo && IsTally(sh, h, d.timestamp / Length(sh), d) {
      var i :| 0 <= i < |items| && items[i] == d;
      assert live[i] in live && IsBucketInSight(sh, live[i], h, lo, EMPTY, Apply);
      DetailIsTally(sh, h, live[i].start / Length(sh));
    }
    forall j | 0 <= j < |h| && Id(sh, h[j].time) > lo
      ensures exists d :: d in items && IsTally(sh, h, Id(sh, h[j].time), d)
    {
      var id := Id(sh, h[j].time);
      var w := Wrap(id * Length(sh), BucketOf(sh, h, id, EMPTY, Apply));
      assert w in live;
      var i :| 0 <= i < |live| && live[i] == w;
      DetailIsTally(sh, h, id);
      assert items[i] == DetailOf(w) && items[i] in items;
    }
  }

  function DetailsOf(ws: seq<Wrap<MetricBucket>>): (r: seq<Detail>)
    ensures |r| == |ws|
  {
    seq(|ws|, i requires 0 <= i < |ws| => DetailOf(ws[i]))
  }

  function SumOf(values: seq<MetricBucket>, event: MetricEvent): int {
    if values == [] then 0 else SumOf(values[..|values| - 1], event) + Get(values[|values| - 1], event)
  }

  lemma {:induction false} SumCons(b: MetricBucket, values: seq<MetricBucket>, event: MetricEvent)
    ensures SumOf([b] + values, event) == Get(b, event) + SumOf(values, event)
  {
    var all := [b] + values;
    if values == [] {
      assert all[..|all| - 1] == [];
    } else {
      SumCons(b, values[..|values| - 1], event);
      assert all[..|all| - 1] == [b] + values[..|values| - 1];
    }
  }

  lemma {:induction false} SumOfValues(sh: Shape, r: Slots<MetricBucket>, t: int, event: MetricEvent)
    ensures SumOf(ValuesOf(Live(sh, r, t)), event) == SumOfLive(sh, r, t, Counter(event))
  {
    if r != [] {
      SumOfValues(sh, r[1..], t, event);
      var rest := Live(sh, r[1..], t);
      if IsLive(sh, t, r[0]) {
        SumCons(r[0].value.value, ValuesOf(rest), event);
        assert ValuesOf([r[0].value] + rest) == [r[0].value.value] + ValuesOf(rest);
      } else {
        assert [] + rest == rest;
      }
    }
  }

  lemma ShownSum(sh: Shape, r: Slots<MetricBucket>, h: History, last: nat, t: nat, event: MetricEvent)
    requires IsExact(sh) && Tracks(sh, r, h, last, EMPTY, Apply) && Recycled(sh, r, last) && last <= Id(sh, t)
    ensures SumOf(ValuesOf(Live(sh, r, t)), event) == InSight(sh, h, Horizon(sh, last, t), Weight(event))
  {
    CountersMeasure(event);
    LiveSumIsEventSum(sh, r, h, last, t, Counter(event), Weight(event), EMPTY, Apply);
    SumOfValues(sh, r, t, event);
  }

  method Total(list: seq<MetricBucket>, event: MetricEvent) returns (sum: int)
    ensures sum == SumOf(list, event)
  {
    sum := 0;
    var i := 0;
    while i < |list|
      invariant 0 <= i <= |list| && sum == SumOf(list[..i], event)
    {
      assert list[..i + 1][..i] == list[..i];
      sum := sum + Get(list[i], event);
      i := i + 1;
    }
    assert list[..i] == list;
  }

  method Least(list: seq<MetricBucket>) returns (rt: int)
    ensures rt == LeastMinRt(list)
  {
    rt := MAX_ALLOWED_RT;
    var i := 0;
    while i < |list|
      invariant 0 <= i <= |list| && rt == LeastMinRt(list[..i])
    {
      assert list[..i + 1][..i] == list[..i];
      if list[i].minRt < rt {
        rt := list[i].minRt;
      }
      i := i + 1;
    }
    assert list[..i] == list;
  }

  method Most(list: seq<MetricBucket>) returns (max: int)
    ensures max == MostComplete(list)
  {
    max := 0;
    var i := 0;
    while i < |list|
      invariant 0 <= i <= |list| && max == MostComplete(list[..i])
    {
      assert list[..i + 1][..i] == list[..i];
      if list[i].complete > max {
        max := list[i].complete;
      }
      i := i + 1;
    }
    assert list[..i] == list;
  }

  class SlidingWindowMetric {
    const window: LeapArray<MetricBucket>
    /** The events recorded so far, the bucket id last refreshed, and the latest time seen. */
    ghost var history: History
    ghost var last: int
    ghost var clock: nat

    ghost predicate Valid()
      reads this, window, window.slots
    {
      && window.Valid() && IsExact(window.shape) && window.empty == EMPTY
      && Tracks(window.shape, window.Contents(), history, last, EMPTY, Apply)
      && -1 <= last <= Id(window.shape, clock) && UpTo(history, clock)
    }

    constructor (sampleCount: nat, intervalMs: nat)
      requires IsExact(Shape(sampleCount, intervalMs))
      ensures Valid() && fresh(window) && fresh(window.slots)
      ensures window.shape == Shape(sampleCount, intervalMs) && history == [] && clock == 0
    {
      window := new LeapArray(sampleCount, intervalMs, EMPTY);
      history, last, clock := [], -1, 0;
      new;
      EmptyTracks(window.shape, EMPTY, Apply);
    }

    method Record(t: nat, e: Event)
      requires Valid() && clock <= t
      modifies this, window.slots
      ensures Valid() && history == old(history) + [Stamped(t, e)] && clock == t
    {
      IdMonotone(window.shape, clock, t);
      ModifyTracks(window.shape, window.Contents(), history, last, t, e, EMPTY, Apply);
      window.Update(t, b => Apply(b, e));
      history, last, clock := history + [Stamped(t, e)], Id(window.shape, t), t;
    }

    method AddPass(t: nat, n: int)
      requires Valid() && clock <= t
      modifies this, window.slots
      ensures Valid() && history == old(history) + [Stamped(t, Count(PASS, n))] && clock == t
    {
      Record(t, Count(PASS, n));
    }

    method AddBlock(t: nat, n: int)
      requires Valid() && clock <= t
      modifies this, window.slots
      ensures Valid() && history == old(history) + [Stamped(t, Count(BLOCK, n))] && clock == t
    {
      Record(t, Count(BLOCK, n));
    }

    method AddException(t: nat, n: int)
      requires Valid() && clock <= t
      modifies this, window.slots
      ensures Valid() && history == old(history) + [Stamped(t, Count(EXCEPTION, n))] && clock == t
    {
      Record(t, Count(EXCEPTION, n));
    }

    method AddComplete(t: nat, n: int)
      requires Valid() && clock <= t
      modifies this, window.slots
      ensures Valid() && history == old(history) + [Stamped(t, Count(COMPLETE, n))] && clock == t
    {
      Record(t, Count(COMPLETE, n));
    }

    method AddRt(t: nat, rt: int)
      requires Valid() && clock <= t
      modifies this, window.slots
      ensures Valid() && history == old(history) + [Stamped(t, Elapsed(rt))] && clock == t
    {
      Record(t, Elapsed(rt));
    }

    /** CurrentWindow() at one reading of the clock, Buckets() or Values() at a later one. */
    method Refresh(t1: nat, t2: nat)
      requires Valid() && clock <= t1 <= t2
      modifies this`last, this`clock, window.slots
      ensures Valid() && clock == t2 && last == Id(window.shape, t1)
      ensures Recycled(window.shape, window.Contents(), last)
      ensures window.Contents() == Current(window.shape, old(window.Contents()), t1, EMPTY)
      ensures Shows(window.shape, Live(window.shape, window.Contents(), t2), history,
                    Horizon(window.shape, Id(window.shape, t1), t2))
    {
      IdMonotone(window.shape, clock, t1);
      IdMonotone(window.shape, t1, t2);
      CurrentTracks(window.shape, window.Contents(), history, last, t1, EMPTY, Apply);
      var w := window.CurrentWindow(t1);
      last, clock := Id(window.shape, t1), t2;
      TracksShows(window.shape, window.Contents(), history, last, t2);
    }

    /** The events of the last `samples` buckets, when both readings of the clock fall into one bucket. */
    method GetSum(event: MetricEvent, t1: nat, t2: nat) returns (sum: int)
      requires Valid() && clock <= t1 <= t2
      modifies this`last, this`clock, window.slots
      ensures Valid() && clock == t2
      ensures sum == InSight(window.shape, history, Horizon(window.shape, Id(window.shape, t1), t2), Weight(event))
      ensures sum == Shown(window.shape, history, event, t1, t2)
    {
      ShownIsInSight(window.shape, history, event, t1, t2);
      Refresh(t1, t2);
      ShownSum(window.shape, window.Contents(), history, last, t2, event);
      var list := window.Values(t2);
      sum := Total(list, event);
    }

    method MinRt(t1: nat, t2: nat) returns (rt: int)
      requires Valid() && clock <= t1 <= t2
      modifies this`last, this`clock, window.slots
      ensures Valid() && clock == t2
      ensures var s := ShortestRt(window.shape, history, Horizon(window.shape, Id(window.shape, t1), t2));
        rt == if s < 1 then 1 else s
    {
      Refresh(t1, t2);
      MinRtIsShortest(window.shape, Live(window.shape, window.Contents(), t2), history,
                      Horizon(window.shape, Id(window.shape, t1), t2));
      var list := window.Values(t2);
      rt := Least(list);
      rt := if rt < 1 then 1 else rt;
    }

    method MaxComplete(t1: nat, t2: nat) returns (max: int)
      requires Valid() && clock <= t1 <= t2
      modifies this`last, this`clock, window.slots
      ensures Valid() && clock == t2
      ensures IsMostCompleted(window.shape, history, Horizon(window.shape, Id(window.shape, t1), t2), max)
    {
      Refresh(t1, t2);
      MaxCompleteIsMost(window.shape, Live(window.shape, window.Contents(), t2), history,
                        Horizon(window.shape, Id(window.shape, t1), t2));
      var list := window.Values(t2);
      max := Most(list);
      max := if max < 1 then 1 else max;
    }

    method Details(t1: nat, t2: nat) returns (items: seq<Detail>)
      requires Valid() && clock <= t1 <= t2
      modifies this`last, this`clock, window.slots
      ensures Valid() && clock == t2
      ensures window.Contents() == Current(window.shape, old(window.Contents()), t1, EMPTY)
      ensures items == DetailsOf(Live(window.shape, window.Contents(), t2))
      ensures Tallies(window.shape, items, history, Horizon(window.shape, Id(window.shape, t1), t2))
    {
      Refresh(t1, t2);
      ShowsTallies(window.shape, Live(window.shape, window.Contents(), t2), history,
                   Horizon(window.shape, Id(window.shape, t1), t2));
      var list := window.Buckets(t2);
      items := [];
      var i := 0;
      while i < |list|
        invariant 0 <= i <= |list| && items == DetailsOf(list)[..i]
      {
        items := items + [DetailOf(list[i])];
        i := i + 1;
      }
    }
  }

  lemma IdMonotone(sh: Shape, s: nat, t: nat)
    requires IsShape(sh) && s <= t
    ensures Id(sh, s) <= Id(sh, t)
  {
    StartIsIdTimesLength(sh, s);
    StartIsIdTimesLength(sh, t);
    MulOrder(Id(sh, t), Id(sh, s), Length(sh));
  }
}
