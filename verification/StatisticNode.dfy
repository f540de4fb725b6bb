/** A resource's statistics: a one-second and a one-minute window, a thread counter, and the last fetch time. */
module StatisticNode {
  import opened Ring
  import opened SlidingWindow
  import opened QpsLimit
  import opened MetricsOnce

  /** unordered_map::insert, which keeps what is there. */
  function ByTimestamp(fetched: seq<Detail>): map<int, Detail> {
    if fetched == [] then map[]
    else
      var before, d := ByTimestamp(fetched[..|fetched| - 1]), fetched[|fetched| - 1];
      if d.timestamp in before then before else before[d.timestamp := d]
  }

  lemma {:induction false} FetchedLast(items: seq<Detail>, d: Detail, lastFetch: int, now: int)
    ensures Fetched(items + [d], lastFetch, now)
         == Fetched(items, lastFetch, now) + if IsFetched(d, lastFetch, now) then [d] else []
  {
    if items == [] {
      assert [] + [d] == [d] && [d][1..] == [];
    } else {
      assert (items + [d])[0] == items[0] && (items + [d])[1..] == items[1..] + [d];
      FetchedLast(items[1..], d, lastFetch, now);
    }
  }

  lemma FetchedNext(items: seq<Detail>, i: nat, lastFetch: int, now: int)
    requires i < |items|
    ensures Fetched(items[..i + 1], lastFetch, now)
         == Fetched(items[..i], lastFetch, now) + if IsFetched(items[i], lastFetch, now) then [items[i]] else []
  {
    assert items[..i + 1] == items[..i] + [items[i]];
    FetchedLast(items[..i], items[i], lastFetch, now);
  }

  lemma SnocParts(s: seq<Detail>, d: Detail)
    ensures ByTimestamp(s + [d])
         == if d.timestamp in ByTimestamp(s) then ByTimestamp(s) else ByTimestamp(s)[d.timestamp := d]
    ensures forall l ::
      NewLastFetch(s + [d], l) == if d.timestamp > NewLastFetch(s, l) then d.timestamp else NewLastFetch(s, l)
  {
    var t := s + [d];
    assert t[..|t| - 1] == s && t[|t| - 1] == d;
  }

  /** The loop of Metrics(). */
  method SelectItems(items: seq<Detail>, lastFetch: int, now: int) returns (m: map<int, Detail>, newLastFetch: int)
    ensures m == ByTimestamp(Fetched(items, lastFetch, now))
    ensures newLastFetch == NewLastFetch(Fetched(items, lastFetch, now), lastFetch)
  {
    m, newLastFetch := map[], lastFetch;
    ghost var fetched := [];
    var i := 0;
    while i < |items|
      invariant 0 <= i <= |items| && fetched == Fetched(items[..i], lastFetch, now)
      invariant m == ByTimestamp(fetched) && newLastFetch == NewLastFetch(fetched, lastFetch)
    {
      FetchedNext(items, i, lastFetch, now);
      if IsInTime(items[i], lastFetch, now) && IsValidItem(items[i]) {
        SnocParts(fetched, items[i]);
        fetched := fetched + [items[i]];
        if items[i].timestamp > newLastFetch {
          newLastFetch := items[i].timestamp;
        }
        if items[i].timestamp !in m {
          m := m[items[i].timestamp := items[i]];
        }
      } else {
        assert fetched + [] == fetched;
      }
      i := i + 1;
    }
    assert items[..i] == items;
  }

  /** What one Metrics() call selects from the slots. */
  function Collected(sh: Shape, slots: Slots<MetricBucket>, t: nat, lastFetch: int, now: int): seq<Detail> {
    Fetched(DetailsOf(Live(sh, slots, t)), lastFetch, now)
  }

  lemma {:induction false} ByTimestampHolds(fetched: seq<Detail>)
    ensures forall d :: d in fetched ==> d.timestamp in ByTimestamp(fetched)
    ensures forall s :: s in ByTimestamp(fetched) ==>
      ByTimestamp(fetched)[s] in fetched && ByTimestamp(fetched)[s].timestamp == s
  {
    if fetched != [] {
      ByTimestampHolds(fetched[..|fetched| - 1]);
      assert fetched == fetched[..|fetched| - 1] + [fetched[|fetched| - 1]];
    }
  }

  lemma ActiveHasEvent(h: History, id: nat) returns (j: int)
    requires IsActive(h, id)
    ensures 0 <= j < |h| && Id(MINUTE, h[j].time) == id
  {
    BucketCounts(MINUTE, h, id);
    j := BucketHasEvent(MINUTE, h, id);
  }

  /** The items by second: each is a completed second after `lastFetch` with what its events add up to, and no active
      one in sight is missing. */
  ghost predicate AreSeconds(m: map<int, Detail>, h: History, lo: int, lastFetch: int, now: int) {
    && (forall s :: s in m ==> lastFetch < s < now && IsTally(MINUTE, h, s / 1000, m[s]) && m[s].timestamp == s)
    && (forall id: nat :: lo < id && lastFetch < id * 1000 < now && IsActive(h, id) ==> id * 1000 in m)
  }

  lemma SelectedSeconds(items: seq<Detail>, h: History, lo: int, lastFetch: int, now: int)
    requires Tallies(MINUTE, items, h, lo)
    ensures AreSeconds(ByTimestamp(Fetched(items, lastFetch, now)), h, lo, lastFetch, now)
  {
    var fetched := Fetched(items, lastFetch, now);
    var m := ByTimestamp(fetched);
    Seconds(0);
    ByTimestampHolds(fetched);
    forall s | s in m
      ensures lastFetch < s < now && IsTally(MINUTE, h, s / 1000, m[s]) && m[s].timestamp == s
    {
      FetchedMember(items, lastFetch, now, m[s]);
    }
    forall id: nat | lo < id && lastFetch < id * 1000 < now && IsActive(h, id) ensures id * 1000 in m {
      var j := ActiveHasEvent(h, id);
      var d :| d in items && IsTally(MINUTE, h, id, d);
      FetchedMember(items, lastFetch, now, d);
    }
  }

  class StatisticNode {
    var second: SlidingWindowMetric
    const minute: SlidingWindowMetric
    /** uint32_t. */
    var curThreadNum: nat
    var lastFetchTimestamp: int

    ghost predicate Valid()
      reads this, second, second.window, second.window.slots, minute, minute.window, minute.window.slots
    {
      && second.Valid() && minute.Valid() && minute.window.shape == MINUTE
      && second != minute && second.window != minute.window && second.window.slots != minute.window.slots
      && curThreadNum < 0x1_0000_0000
    }

    constructor (sampleCount: nat, intervalMs: nat)
      requires IsExact(Shape(sampleCount, intervalMs))
      ensures Valid() && second.window.shape == Shape(sampleCount, intervalMs)
      ensures fresh(second) && fresh(second.window.slots) && fresh(minute) && fresh(minute.window.slots)
      ensures second.history == [] && minute.history == [] && curThreadNum == 0 && lastFetchTimestamp == -1
    {
      second := new SlidingWindowMetric(sampleCount, intervalMs);
      minute := new SlidingWindowMetric(60, 60 * 1000);
      curThreadNum, lastFetchTimestamp := 0, -1;
    }

    method PassQps(t1: nat, t2: nat) returns (qps: real)
      requires Valid() && second.clock <= t1 <= t2
      modifies second`last, second`clock, second.window.slots
      ensures Valid() && second.clock == t2
      ensures var sh := second.window.shape;
        qps == Rate(Shown(sh, second.history, PASS, t1, t2), sh.interval)
    {
      var pass := second.GetSum(PASS, t1, t2);
      qps := pass as real / (second.window.shape.interval as real / 1000.0);
    }

    method AddPassRequest(t1: nat, t2: nat, count: int)
      requires Valid() && second.clock <= t1 && minute.clock <= t2
      modifies second, second.window.slots, minute, minute.window.slots
      ensures Valid() && second.clock == t1 && minute.clock == t2
      ensures second.history == old(second.history) + [Stamped(t1, Count(PASS, count))]
      ensures minute.history == old(minute.history) + [Stamped(t2, Count(PASS, count))]
    {
      second.AddPass(t1, count);
      minute.AddPass(t2, count);
    }

    method AddBlockRequest(t1: nat, t2: nat, count: int)
      requires Valid() && second.clock <= t1 && minute.clock <= t2
      modifies second, second.window.slots, minute, minute.window.slots
      ensures Valid() && second.clock == t1 && minute.clock == t2
      ensures second.history == old(second.history) + [Stamped(t1, Count(BLOCK, count))]
      ensures minute.history == old(minute.history) + [Stamped(t2, Count(BLOCK, count))]
    {
      second.AddBlock(t1, count);
      minute.AddBlock(t2, count);
    }

    method IncreaseThreadNum()
      requires Valid()
      modifies this`curThreadNum
      ensures Valid() && curThreadNum == (old(curThreadNum) + 1) % 0x1_0000_0000
    {
      curThreadNum := (curThreadNum + 1) % 0x1_0000_0000;
    }

    method DecreaseThreadNum()
      requires Valid()
      modifies this`curThreadNum
      ensures Valid() && curThreadNum == (old(curThreadNum) - 1) % 0x1_0000_0000
    {
      curThreadNum := (curThreadNum - 1) % 0x1_0000_0000;
    }

    /** The items of the completed seconds since the last fetch, by second. */
    method Metrics(t0: nat, t1: nat, t2: nat) returns (m: map<int, Detail>)
      requires Valid() && minute.clock <= t0 <= t1 <= t2
      modifies this`lastFetchTimestamp, minute`last, minute`clock, minute.window.slots
      ensures Valid() && minute.clock == t2
      ensures minute.window.Contents() == Current(minute.window.shape, old(minute.window.Contents()), t1, EMPTY)
      ensures var f := Collected(minute.window.shape, minute.window.Contents(), t2, old(lastFetchTimestamp),
                                SecondStart(t0));
        m == ByTimestamp(f) && lastFetchTimestamp == NewLastFetch(f, old(lastFetchTimestamp))
      ensures AreSeconds(m, minute.history, Horizon(MINUTE, Id(MINUTE, t1), t2), old(lastFetchTimestamp),
                         t0 - t0 % 1000)
    {
      var items := minute.Details(t1, t2);
      SelectedSeconds(items, minute.history, Horizon(MINUTE, Id(MINUTE, t1), t2), lastFetchTimestamp, SecondStart(t0));
      var newLastFetchTime;
      m, newLastFetchTime := SelectItems(items, lastFetchTimestamp, SecondStart(t0));
      lastFetchTimestamp := newLastFetchTime;
    }

    /** A new one-second window, empty; the minute window and the thread counter stay. */
    method Reset(sampleCount: nat, intervalMs: nat)
      requires Valid() && IsExact(Shape(sampleCount, intervalMs))
      modifies this`second
      ensures Valid() && fresh(second) && fresh(second.window.slots)
      ensures second.window.shape == Shape(sampleCount, intervalMs) && second.history == []
    {
      second := new SlidingWindowMetric(sampleCount, intervalMs);
    }
  }

  datatype MetricType = THREAD_COUNT | QPS

  /** DefaultTrafficShapingChecker::DoCheck: whether the request passes. */
  method DoCheck(node: StatisticNode?, mode: MetricType, acquireCount: int, threshold: real, t1: nat, t2: nat)
      returns (ok: bool)
    requires node != null ==> node.Valid() && node.second.clock <= t1 <= t2
    modifies if node != null then {node.second, node.second.window.slots} else {}
    ensures node != null ==> node.Valid() && node.second == old(node.second)
    ensures node == null ==> (ok <==> acquireCount as real <= threshold)
    ensures node != null && mode == THREAD_COUNT ==> (ok <==> (node.curThreadNum + acquireCount) as real <= threshold)
    ensures node != null && mode == QPS ==> var sh, h := node.second.window.shape, old(node.second.history);
      node.second.history == h && (ok <==> !IsTooMuch(Shown(sh, h, PASS, t1, t2), acquireCount, threshold, sh.interval))
  {
    var curPass := 0.0;
    if node != null {
      if mode == THREAD_COUNT {
        curPass := node.curThreadNum as real;
      } else {
        curPass := node.PassQps(t1, t2);
        var sh := node.second.window.shape;
        RateIsTooMuch(Shown(sh, node.second.history, PASS, t1, t2), acquireCount, threshold, sh.interval);
      }
    }
    ok := !(curPass + acquireCount as real > threshold);
  }
}
