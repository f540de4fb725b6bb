/** The per-second metrics of a node: each call of Metrics() hands out the seconds completed since the last one. */
module MetricsOnce {
  import opened Options
  import opened Ring
  import opened SlidingWindow

  /** rolling_counter_minute_. */
  const MINUTE := Shape(60, 60000)

  predicate IsValidItem(d: Detail) {
    d.pass > 0 || d.block > 0 || d.complete > 0 || d.exception > 0 || d.rt > 0
  }

  predicate IsInTime(d: Detail, lastFetch: int, now: int) {
    lastFetch < d.timestamp < now
  }

  /** The start of the second that t is in. */
  function SecondStart(t: nat): nat {
    t - t % 1000
  }

  predicate IsFetched(d: Detail, lastFetch: int, now: int) {
    IsInTime(d, lastFetch, now) && IsValidItem(d)
  }

  function Fetched(items: seq<Detail>, lastFetch: int, now: int): seq<Detail> {
    if items == [] then []
    else (if IsFetched(items[0], lastFetch, now) then [items[0]] else []) + Fetched(items[1..], lastFetch, now)
  }

  /** The largest timestamp handed out, or the one before. */
  function NewLastFetch(fetched: seq<Detail>, lastFetch: int): int {
    if fetched == [] then lastFetch
    else
      var before := NewLastFetch(fetched[..|fetched| - 1], lastFetch);
      var d := fetched[|fetched| - 1];
      if d.timestamp > before then d.timestamp else before
  }

  // ---------------------------------------------------------------- a node's life

  /** `previous` is the first clock reading of the last Metrics call, or the time the node was made. */
  datatype Node = Node(
    slots: Slots<MetricBucket>,
    history: History,
    last: int,
    lastFetch: int,
    returned: seq<Detail>,
    clock: nat,
    previous: nat)

  datatype Op =
    | Record(t: nat, event: Event)
    | Metrics(t0: nat, t1: nat, t2: nat)

  function Init(now: nat): Node {
    Node(Empty(MINUTE), [], -1, -1, [], now, now)
  }

  function Step(n: Node, op: Op): (m: Node)
    requires |n.slots| == 60
    ensures |m.slots| == 60
  {
    match op
    case Record(t, e) =>
      n.(slots := Modify(MINUTE, n.slots, t, EMPTY, b => Apply(b, e)), history := n.history + [Stamped(t, e)],
         last := Id(MINUTE, t), clock := t)
    case Metrics(t0, t1, t2) =>
      var slots := Current(MINUTE, n.slots, t1, EMPTY);
      var fetched := Fetched(DetailsOf(Live(MINUTE, slots, t2)), n.lastFetch, SecondStart(t0));
      n.(slots := slots, last := Id(MINUTE, t1), lastFetch := NewLastFetch(fetched, n.lastFetch),
         returned := n.returned + fetched, clock := t2, previous := t0)
  }

  /** The clock never goes back, and a Metrics call sees at most the 59th second after the previous one. */
  predicate InTime(n: Node, op: Op) {
    match op
    case Record(t, _) => n.clock <= t
    case Metrics(t0, t1, t2) => n.clock <= t0 <= t1 <= t2 && Id(MINUTE, t2) <= Id(MINUTE, n.previous) + 59
  }

  /** What bucket id `id` will be reported as. */
  function Report(h: History, id: nat): Detail {
    DetailOf(Wrap(id * 1000, BucketOf(MINUTE, h, id, EMPTY, Apply)))
  }

  function Times(s: seq<Detail>, timestamp: int): nat {
    if s == [] then 0 else (if s[0].timestamp == timestamp then 1 else 0) + Times(s[1..], timestamp)
  }

  /** Something happened in the second. */
  predicate IsActive(h: History, id: nat) {
    Counted(MINUTE, h, id, PASS) > 0 || Counted(MINUTE, h, id, BLOCK) > 0 || Counted(MINUTE, h, id, COMPLETE) > 0
    || Counted(MINUTE, h, id, EXCEPTION) > 0 || Spent(MINUTE, h, id) + Counted(MINUTE, h, id, RT) > 0
  }

  /** The items are those of the active seconds from `from` on and before `to`, each once and with what its events add
      up to. */
  ghost predicate AreFinal(h: History, from: nat, to: nat, items: seq<Detail>) {
    && (forall id: nat :: Times(items, id * 1000) == if from <= id < to && IsActive(h, id) then 1 else 0)
    && (forall d :: d in items ==>
          from * 1000 <= d.timestamp < to * 1000 && IsTally(MINUTE, h, d.timestamp / 1000, d))
  }

  /** Of the seconds completed before the previous call, those with activity have been handed out, once and with
      their final counts; no later second has. */
  ghost predicate Delivered(n: Node) {
    AreFinal(n.history, 0, n.previous / 1000, n.returned)
  }

  lemma ReportIsFinal(h: History, id: nat)
    ensures IsTally(MINUTE, h, id, Report(h, id)) && (IsValidItem(Report(h, id)) <==> IsActive(h, id))
  {
    Seconds(0);
    DetailIsTally(MINUTE, h, id);
    BucketCounts(MINUTE, h, id);
  }

  /** The bookkeeping of what has been handed out so far. */
  ghost predicate Books(h: History, previous: nat, lastFetch: int, returned: seq<Detail>) {
    && lastFetch < SecondStart(previous)
    && (forall id: nat :: id < Id(MINUTE, previous) && IsValidItem(Report(h, id)) ==> id * 1000 <= lastFetch)
    && (forall id: nat :: Times(returned, id * 1000)
          == if id < Id(MINUTE, previous) && IsValidItem(Report(h, id)) then 1 else 0)
    && (forall d :: d in returned ==> 0 <= d.timestamp < SecondStart(previous) && d == Report(h, d.timestamp / 1000))
  }

  ghost predicate Inv(n: Node) {
    && Tracks(MINUTE, n.slots, n.history, n.last, EMPTY, Apply)
    && -1 <= n.last <= Id(MINUTE, n.clock) && n.previous <= n.clock
    && Books(n.history, n.previous, n.lastFetch, n.returned)
  }

  lemma Seconds(t: nat)
    ensures IsExact(MINUTE) && Length(MINUTE) == 1000
    ensures SecondStart(t) == Id(MINUTE, t) * 1000 && Id(MINUTE, t) == t / 1000
  {
  }

  lemma {:induction false} TimesAppend(a: seq<Detail>, b: seq<Detail>, timestamp: int)
    ensures Times(a + b, timestamp) == Times(a, timestamp) + Times(b, timestamp)
  {
    if a == [] {
      assert a + b == b;
    } else {
      assert (a + b)[0] == a[0] && (a + b)[1..] == a[1..] + b;
      TimesAppend(a[1..], b, timestamp);
    }
  }

  lemma {:induction false} FetchedMember(items: seq<Detail>, lastFetch: int, now: int, d: Detail)
    ensures d in Fetched(items, lastFetch, now) <==> d in items && IsFetched(d, lastFetch, now)
  {
    if items != [] {
      FetchedMember(items[1..], lastFetch, now, d);
      assert items == [items[0]] + items[1..];
    }
  }

  lemma {:induction false} LastFetchIsLargest(fetched: seq<Detail>, lastFetch: int)
    ensures NewLastFetch(fetched, lastFetch) >= lastFetch
    ensures forall d :: d in fetched ==> d.timestamp <= NewLastFetch(fetched, lastFetch)
    ensures NewLastFetch(fetched, lastFetch) == lastFetch
         || exists d :: d in fetched && d.timestamp == NewLastFetch(fetched, lastFetch)
  {
    if fetched != [] {
      var init := fetched[..|fetched| - 1];
      LastFetchIsLargest(init, lastFetch);
      assert fetched == init + [fetched[|fetched| - 1]];
    }
  }

  // ---------------------------------------------------------------- one call

  lemma DetailsCons(w: Wrap<MetricBucket>, ws: seq<Wrap<MetricBucket>>)
    ensures DetailsOf([w] + ws) == [DetailOf(w)] + DetailsOf(ws)
  {
  }

  /** The items of the slots from i on. */
  function ItemsFrom(slots: Slots<MetricBucket>, i: nat, t: nat, lastFetch: int, now: int): seq<Detail>
    requires i <= |slots|
  {
    Fetched(DetailsOf(Live(MINUTE, slots[i..], t)), lastFetch, now)
  }

  lemma ItemsFromNext(slots: Slots<MetricBucket>, i: nat, t: nat, lastFetch: int, now: int)
    requires i < |slots|
    ensures ItemsFrom(slots, i, t, lastFetch, now)
         == (if IsLive(MINUTE, t, slots[i]) && IsFetched(DetailOf(slots[i].value), lastFetch, now)
             then [DetailOf(slots[i].value)] else []) + ItemsFrom(slots, i + 1, t, lastFetch, now)
  {
    var rest := Live(MINUTE, slots[i + 1..], t);
    assert slots[i..][0] == slots[i] && slots[i..][1..] == slots[i + 1..];
    if IsLive(MINUTE, t, slots[i]) {
      DetailsCons(slots[i].value, rest);
      var ds := DetailsOf([slots[i].value] + rest);
      assert ds[1..] == DetailsOf(rest);
    } else {
      assert [] + rest == rest;
    }
  }

  lemma SlotHolds(slots: Slots<MetricBucket>, i: nat, h: History, last: int) returns (id: nat)
    requires Tracks(MINUTE, slots, h, last, EMPTY, Apply) && i < 60 && slots[i].Some?
    ensures slots[i].value == Wrap(id * 1000, BucketOf(MINUTE, h, id, EMPTY, Apply)) && id % 60 == i
  {
    Seconds(0);
    assert SlotTracks(MINUTE, slots[i], i, h, last, EMPTY, Apply);
    id := slots[i].value.start / Length(MINUTE);
  }

  lemma SlotOfSecond(slots: Slots<MetricBucket>, i: nat, h: History, last: int, id: nat)
    requires Tracks(MINUTE, slots, h, last, EMPTY, Apply) && i < 60 && slots[i].Some?
    requires slots[i].value.start == id * 1000
    ensures i == id % 60 && slots[i].value.value == BucketOf(MINUTE, h, id, EMPTY, Apply)
  {
    var held := SlotHolds(slots, i, h, last);
    assert held == id;
  }

  predicate Reports(slot: Option<Wrap<MetricBucket>>, t: nat, lastFetch: int, now: int, timestamp: int) {
    slot.Some? && slot.value.start == timestamp && IsLive(MINUTE, t, slot)
    && IsFetched(DetailOf(slot.value), lastFetch, now)
  }

  lemma TimesFromNext(slots: Slots<MetricBucket>, i: nat, t: nat, lastFetch: int, now: int, timestamp: int)
    requires i < |slots|
    ensures Times(ItemsFrom(slots, i, t, lastFetch, now), timestamp)
         == Times(ItemsFrom(slots, i + 1, t, lastFetch, now), timestamp)
            + if Reports(slots[i], t, lastFetch, now, timestamp) then 1 else 0
  {
    ItemsFromNext(slots, i, t, lastFetch, now);
    var rest := ItemsFrom(slots, i + 1, t, lastFetch, now);
    if IsLive(MINUTE, t, slots[i]) && IsFetched(DetailOf(slots[i].value), lastFetch, now) {
      TimesAppend([DetailOf(slots[i].value)], rest, timestamp);
      OneTime(DetailOf(slots[i].value), timestamp);
    } else {
      assert [] + rest == rest;
    }
  }

  /** A second is reported by the slot of its residue or not at all. */
  lemma {:induction false} TimesFrom(slots: Slots<MetricBucket>, i: nat, h: History, last: int, t: nat, lastFetch: int,
                                     now: int, id: nat)
    requires Tracks(MINUTE, slots, h, last, EMPTY, Apply) && i <= 60
    ensures Times(ItemsFrom(slots, i, t, lastFetch, now), id * 1000)
         == if i <= id % 60 && Reports(slots[id % 60], t, lastFetch, now, id * 1000) then 1 else 0
    decreases 60 - i
  {
    if i < 60 {
      TimesFrom(slots, i + 1, h, last, t, lastFetch, now, id);
      TimesFromNext(slots, i, t, lastFetch, now, id * 1000);
      if Reports(slots[i], t, lastFetch, now, id * 1000) {
        SlotOfSecond(slots, i, h, last, id);
      }
    } else {
      assert slots[i..] == [];
    }
  }

  lemma OneTime(d: Detail, timestamp: int)
    ensures Times([d], timestamp) == if d.timestamp == timestamp then 1 else 0
  {
    assert [d][1..] == [];
  }

  // ---------------------------------------------------------------- every step

  ghost predicate Refreshed(slots: Slots<MetricBucket>, h: History, t1: nat) {
    Tracks(MINUTE, slots, h, Id(MINUTE, t1), EMPTY, Apply) && Recycled(MINUTE, slots, Id(MINUTE, t1))
  }

  /** What the slot of a residue reports is the final state of its second. */
  lemma ReportedIsReport(slots: Slots<MetricBucket>, h: History, last: int, t: nat, lastFetch: int, now: int, id: nat)
    requires Tracks(MINUTE, slots, h, last, EMPTY, Apply)
    requires Reports(slots[id % 60], t, lastFetch, now, id * 1000)
    ensures DetailOf(slots[id % 60].value) == Report(h, id)
  {
    SlotOfSecond(slots, id % 60, h, last, id);
  }

  /** A second with events that is still in sight is in the slot of its residue. */
  lemma SecondIsThere(slots: Slots<MetricBucket>, h: History, t1: nat, t: nat, id: nat)
    requires Refreshed(slots, h, t1) && t1 <= t
    requires IsValidItem(Report(h, id)) && id > Horizon(MINUTE, Id(MINUTE, t1), t)
    ensures slots[id % 60] == Some(Wrap(id * 1000, BucketOf(MINUTE, h, id, EMPTY, Apply)))
    ensures IsLive(MINUTE, t, slots[id % 60])
  {
    Seconds(t1);
    Seconds(t);
    var j := BucketHasEvent(MINUTE, h, id);
    InSightIsLive(MINUTE, slots, h, Id(MINUTE, t1), t, j, EMPTY, Apply);
    var w := Wrap(id * 1000, BucketOf(MINUTE, h, id, EMPTY, Apply));
    LiveMember(MINUTE, slots, t, w);
    var i :| 0 <= i < |slots| && slots[i] == Some(w);
    SlotOfSecond(slots, i, h, Id(MINUTE, t1), id);
  }

  /** One Metrics call after another: of the seconds with activity, it hands out those completed in between. */
  lemma CallReports(slots: Slots<MetricBucket>, h: History, previous: nat, lastFetch: int, t0: nat, t1: nat, t2: nat,
                    id: nat)
    requires Refreshed(slots, h, t1) && previous <= t0 <= t1 <= t2 && Id(MINUTE, t2) <= Id(MINUTE, previous) + 59
    requires lastFetch < SecondStart(previous)
    requires id < Id(MINUTE, previous) && IsValidItem(Report(h, id)) ==> id * 1000 <= lastFetch
    ensures Reports(slots[id % 60], t2, lastFetch, SecondStart(t0), id * 1000)
       <==> Id(MINUTE, previous) <= id < Id(MINUTE, t0) && IsValidItem(Report(h, id))
  {
    Seconds(previous);
    Seconds(t0);
    Seconds(t1);
    Seconds(t2);
    if Reports(slots[id % 60], t2, lastFetch, SecondStart(t0), id * 1000) {
      ReportedIsReport(slots, h, Id(MINUTE, t1), t2, lastFetch, SecondStart(t0), id);
    } else if Id(MINUTE, previous) <= id < Id(MINUTE, t0) && IsValidItem(Report(h, id)) {
      SecondIsThere(slots, h, t1, t2, id);
    }
  }

  lemma RecordKeeps(n: Node, t: nat, e: Event)
    requires Inv(n) && n.clock <= t
    ensures Inv(Step(n, Record(t, e)))
  {
    var m := Step(n, Record(t, e));
    Seconds(t);
    Seconds(n.clock);
    Seconds(n.previous);
    ModifyTracks(MINUTE, n.slots, n.history, n.last, t, e, EMPTY, Apply);
    forall id: nat | id < Id(MINUTE, n.previous) ensures Report(m.history, id) == Report(n.history, id) {
      assert m.history[..|m.history| - 1] == n.history;
    }
  }

  lemma FetchedIsReport(slots: Slots<MetricBucket>, h: History, t1: nat, t2: nat, lastFetch: int, now: int, d: Detail)
    requires Refreshed(slots, h, t1) && t1 <= t2
    requires d in Fetched(DetailsOf(Live(MINUTE, slots, t2)), lastFetch, now)
    ensures 0 <= d.timestamp < now && lastFetch < d.timestamp && d == Report(h, d.timestamp / 1000)
    ensures d.timestamp == d.timestamp / 1000 * 1000 && IsValidItem(d)
  {
    Seconds(t1);
    Seconds(t2);
    var ws := Live(MINUTE, slots, t2);
    FetchedMember(DetailsOf(ws), lastFetch, now, d);
    var i :| 0 <= i < |ws| && DetailsOf(ws)[i] == d;
    assert ws[i] in ws;
    LiveIsInSight(MINUTE, slots, h, Id(MINUTE, t1), t2, ws[i], EMPTY, Apply);
  }

  lemma CallTimes(slots: Slots<MetricBucket>, h: History, last: int, t2: nat, lastFetch: int, now: int, id: nat)
    requires Tracks(MINUTE, slots, h, last, EMPTY, Apply)
    ensures Times(Fetched(DetailsOf(Live(MINUTE, slots, t2)), lastFetch, now), id * 1000)
         == if Reports(slots[id % 60], t2, lastFetch, now, id * 1000) then 1 else 0
  {
    TimesFrom(slots, 0, h, last, t2, lastFetch, now, id);
    assert slots[0..] == slots;
  }

  /** What one call hands out, apart from the node it is called on. */
  ghost predicate HandsOut(h: History, previous: nat, t0: nat, lastFetch: int, fetched: seq<Detail>) {
    && (forall id: nat :: Times(fetched, id * 1000)
          == if Id(MINUTE, previous) <= id < Id(MINUTE, t0) && IsValidItem(Report(h, id)) then 1 else 0)
    && (forall d :: d in fetched ==> 0 <= d.timestamp < SecondStart(t0) && d == Report(h, d.timestamp / 1000))
    && (forall id: nat :: Id(MINUTE, previous) <= id < Id(MINUTE, t0) && IsValidItem(Report(h, id)) ==>
          Report(h, id) in fetched)
  }

  lemma CallReportsAll(slots: Slots<MetricBucket>, h: History, previous: nat, lastFetch: int, t0: nat, t1: nat, t2: nat)
    requires Refreshed(slots, h, t1) && previous <= t0 <= t1 <= t2 && Id(MINUTE, t2) <= Id(MINUTE, previous) + 59
    requires lastFetch < SecondStart(previous)
    requires forall id: nat :: id < Id(MINUTE, previous) && IsValidItem(Report(h, id)) ==> id * 1000 <= lastFetch
    ensures HandsOut(h, previous, t0, lastFetch,
                     Fetched(DetailsOf(Live(MINUTE, slots, t2)), lastFetch, SecondStart(t0)))
  {
    var now := SecondStart(t0);
    var fetched := Fetched(DetailsOf(Live(MINUTE, slots, t2)), lastFetch, now);
    forall id: nat
      ensures Times(fetched, id * 1000)
           == if Id(MINUTE, previous) <= id < Id(MINUTE, t0) && IsValidItem(Report(h, id)) then 1 else 0
    {
      CallReports(slots, h, previous, lastFetch, t0, t1, t2, id);
      CallTimes(slots, h, Id(MINUTE, t1), t2, lastFetch, now, id);
    }
    forall d | d in fetched ensures 0 <= d.timestamp < now && d == Report(h, d.timestamp / 1000) {
      FetchedIsReport(slots, h, t1, t2, lastFetch, now, d);
    }
    forall id: nat | Id(MINUTE, previous) <= id < Id(MINUTE, t0) && IsValidItem(Report(h, id))
      ensures Report(h, id) in fetched
    {
      CallReports(slots, h, previous, lastFetch, t0, t1, t2, id);
      ReportedIsReport(slots, h, Id(MINUTE, t1), t2, lastFetch, now, id);
      var w := slots[id % 60].value;
      LiveMember(MINUTE, slots, t2, w);
      DetailOfMember(Live(MINUTE, slots, t2), w);
      FetchedMember(DetailsOf(Live(MINUTE, slots, t2)), lastFetch, now, DetailOf(w));
    }
  }

  /** One call hands out exactly the active seconds completed since the one before, with their final counts. */
  lemma CallHandsOut(slots: Slots<MetricBucket>, h: History, previous: nat, lastFetch: int, t0: nat, t1: nat, t2: nat)
    requires Refreshed(slots, h, t1) && previous <= t0 <= t1 <= t2 && Id(MINUTE, t2) <= Id(MINUTE, previous) + 59
    requires lastFetch < SecondStart(previous)
    requires forall id: nat :: id < Id(MINUTE, previous) && IsValidItem(Report(h, id)) ==> id * 1000 <= lastFetch
    ensures AreFinal(h, previous / 1000, t0 / 1000,
                     Fetched(DetailsOf(Live(MINUTE, slots, t2)), lastFetch, SecondStart(t0)))
  {
    var items := Fetched(DetailsOf(Live(MINUTE, slots, t2)), lastFetch, SecondStart(t0));
    Seconds(previous);
    Seconds(t0);
    CallReportsAll(slots, h, previous, lastFetch, t0, t1, t2);
    HandedOutAreFinal(h, previous, t0, lastFetch, items);
  }

  lemma HandedOutAreFinal(h: History, previous: nat, t0: nat, lastFetch: int, items: seq<Detail>)
    requires HandsOut(h, previous, t0, lastFetch, items)
    ensures AreFinal(h, previous / 1000, t0 / 1000, items)
  {
    Seconds(previous);
    Seconds(t0);
    forall id: nat
      ensures Times(items, id * 1000) == if previous / 1000 <= id < t0 / 1000 && IsActive(h, id) then 1 else 0
    {
      ReportIsFinal(h, id);
    }
    forall d | d in items
      ensures previous / 1000 * 1000 <= d.timestamp < t0 / 1000 * 1000 && IsTally(MINUTE, h, d.timestamp / 1000, d)
    {
      var id := d.timestamp / 1000;
      ReportIsFinal(h, id);
      TimesOfMember(items, d);
    }
  }

  lemma {:induction false} TimesOfMember(items: seq<Detail>, d: Detail)
    requires d in items
    ensures Times(items, d.timestamp) >= 1
  {
    if items[0] != d {
      assert items == [items[0]] + items[1..];
      TimesOfMember(items[1..], d);
    }
  }

  lemma BooksNext(h: History, previous: nat, lastFetch: int, returned: seq<Detail>, t0: nat, fetched: seq<Detail>)
    requires Books(h, previous, lastFetch, returned) && previous <= t0
    requires HandsOut(h, previous, t0, lastFetch, fetched)
    ensures Books(h, t0, NewLastFetch(fetched, lastFetch), returned + fetched)
  {
    Seconds(previous);
    Seconds(t0);
    var next := NewLastFetch(fetched, lastFetch);
    LastFetchIsLargest(fetched, lastFetch);
    forall id: nat
      ensures Times(returned + fetched, id * 1000) == if id < Id(MINUTE, t0) && IsValidItem(Report(h, id)) then 1 else 0
      ensures id < Id(MINUTE, t0) && IsValidItem(Report(h, id)) ==> id * 1000 <= next
    {
      TimesAppend(returned, fetched, id * 1000);
      assert Report(h, id).timestamp == id * 1000;
    }
  }

  lemma MetricsKeeps(n: Node, t0: nat, t1: nat, t2: nat)
    requires Inv(n) && InTime(n, Metrics(t0, t1, t2))
    ensures Inv(Step(n, Metrics(t0, t1, t2)))
  {
    IdMonotone(MINUTE, n.clock, t1);
    IdMonotone(MINUTE, t1, t2);
    CurrentTracks(MINUTE, n.slots, n.history, n.last, t1, EMPTY, Apply);
    var slots := Current(MINUTE, n.slots, t1, EMPTY);
    CallReportsAll(slots, n.history, n.previous, n.lastFetch, t0, t1, t2);
    BooksNext(n.history, n.previous, n.lastFetch, n.returned, t0,
              Fetched(DetailsOf(Live(MINUTE, slots, t2)), n.lastFetch, SecondStart(t0)));
  }

  lemma DetailOfMember(ws: seq<Wrap<MetricBucket>>, w: Wrap<MetricBucket>)
    requires w in ws
    ensures DetailOf(w) in DetailsOf(ws)
  {
    var i :| 0 <= i < |ws| && ws[i] == w;
    assert DetailsOf(ws)[i] == DetailOf(w);
  }

  /** The node made at `now` after the operations. */
  function Run(now: nat, ops: seq<Op>): (n: Node)
    ensures |n.slots| == 60
    decreases |ops|
  {
    if ops == [] then Init(now) else Step(Run(now, ops[..|ops| - 1]), ops[|ops| - 1])
  }

  predicate IsRun(now: nat, ops: seq<Op>)
    decreases |ops|
  {
    ops == [] || (IsRun(now, ops[..|ops| - 1]) && InTime(Run(now, ops[..|ops| - 1]), ops[|ops| - 1]))
  }

  lemma InitInv(now: nat)
    ensures Inv(Init(now))
  {
    Seconds(now);
    EmptyTracks(MINUTE, EMPTY, Apply);
  }

  lemma StepKeeps(n: Node, op: Op)
    requires Inv(n) && InTime(n, op)
    ensures Inv(Step(n, op))
  {
    match op
    case Record(t, e) => RecordKeeps(n, t, e);
    case Metrics(t0, t1, t2) => MetricsKeeps(n, t0, t1, t2);
  }

  lemma {:induction false} RunKeeps(now: nat, ops: seq<Op>)
    requires IsRun(now, ops)
    ensures Inv(Run(now, ops))
    decreases |ops|
  {
    if ops == [] {
      InitInv(now);
    } else {
      RunKeeps(now, ops[..|ops| - 1]);
      StepKeeps(Run(now, ops[..|ops| - 1]), ops[|ops| - 1]);
    }
  }

  lemma InvDelivers(n: Node)
    requires Inv(n)
    ensures Delivered(n)
  {
    Seconds(n.previous);
    forall id: nat
      ensures Times(n.returned, id * 1000) == if id < n.previous / 1000 && IsActive(n.history, id) then 1 else 0
    {
      ReportIsFinal(n.history, id);
    }
    forall d | d in n.returned
      ensures 0 <= d.timestamp < n.previous / 1000 * 1000 && IsTally(MINUTE, n.history, d.timestamp / 1000, d)
    {
      ReportIsFinal(n.history, d.timestamp / 1000);
    }
  }

  /** Called often enough, Metrics() hands out every completed second that had activity exactly once, with its final
      counts, and never a second that is still in progress. */
  lemma EverySecondOnce(now: nat, ops: seq<Op>)
    requires IsRun(now, ops)
    ensures Delivered(Run(now, ops))
  {
    RunKeeps(now, ops);
    InvDelivers(Run(now, ops));
  }

  lemma GapsOf59Seconds(previous: nat, t2: nat)
    requires t2 <= previous + 59000
    ensures Id(MINUTE, t2) <= Id(MINUTE, previous) + 59
  {
    Seconds(previous);
    Seconds(t2);
  }

  lemma OneEvent(p: nat, h: History)
    requires h == [Stamped(p, Count(PASS, 1))]
    ensures IsActive(h, Id(MINUTE, p))
  {
    ReportIsFinal(h, Id(MINUTE, p));
    assert h[..|h| - 1] == [];
    assert BucketOf(MINUTE, h, Id(MINUTE, p), EMPTY, Apply) == Apply(EMPTY, h[0].event);
  }

  lemma OneRecord(p: nat) returns (slots: Slots<MetricBucket>, h: History)
    ensures h == [Stamped(p, Count(PASS, 1))]
    ensures Step(Init(p), Record(p, Count(PASS, 1))) == Node(slots, h, Id(MINUTE, p), -1, [], p, p)
    ensures Tracks(MINUTE, slots, h, Id(MINUTE, p), EMPTY, Apply)
  {
    var e := Count(PASS, 1);
    slots, h := Modify(MINUTE, Empty(MINUTE), p, EMPTY, b => Apply(b, e)), [Stamped(p, e)];
    EmptyTracks(MINUTE, EMPTY, Apply);
    ModifyTracks(MINUTE, Empty(MINUTE), [], -1, p, e, EMPTY, Apply);
    assert [] + h == h;
  }

  lemma RunTwo(now: nat, a: Op, b: Op)
    ensures Run(now, [a, b]) == Step(Step(Init(now), a), b)
  {
    assert [a, b][..1] == [a] && [a][..0] == [];
    assert Run(now, [a]) == Step(Run(now, []), a);
  }

  /** A call in the 60th second or later after the one before loses a second, however short the gap in between. */
  lemma LateCallLosesASecond(p: nat, t: nat)
    requires Id(MINUTE, t) >= Id(MINUTE, p) + 60
    ensures var n := Run(p, [Record(p, Count(PASS, 1)), Metrics(t, t, t)]);
      IsActive(n.history, Id(MINUTE, p)) && Times(n.returned, Id(MINUTE, p) * 1000) == 0
  {
    var slots, h := OneRecord(p);
    OneEvent(p, h);
    var one := Node(slots, h, Id(MINUTE, p), -1, [], p, p);
    RunTwo(p, Record(p, Count(PASS, 1)), Metrics(t, t, t));
    NothingOf(slots, h, Id(MINUTE, p), t, Id(MINUTE, p));
    var fetched := Fetched(DetailsOf(Live(MINUTE, Current(MINUTE, slots, t, EMPTY), t)), -1, SecondStart(t));
    assert Step(one, Metrics(t, t, t)).returned == [] + fetched == fetched;
  }

  lemma NothingOf(slots: Slots<MetricBucket>, h: History, last: int, t: nat, id: nat)
    requires Tracks(MINUTE, slots, h, last, EMPTY, Apply) && last <= Id(MINUTE, t) && id + 60 <= Id(MINUTE, t)
    ensures var c := Current(MINUTE, slots, t, EMPTY);
      Times(Fetched(DetailsOf(Live(MINUTE, c, t)), -1, SecondStart(t)), id * 1000) == 0
  {
    var c := Current(MINUTE, slots, t, EMPTY);
    CurrentTracks(MINUTE, slots, h, last, t, EMPTY, Apply);
    CallTimes(c, h, Id(MINUTE, t), t, -1, SecondStart(t), id);
    if Reports(c[id % 60], t, -1, SecondStart(t), id * 1000) {
      LiveMember(MINUTE, c, t, c[id % 60].value);
      LiveIsInSight(MINUTE, c, h, Id(MINUTE, t), t, c[id % 60].value, EMPTY, Apply);
      Seconds(t);
      assert false;
    }
  }
}
