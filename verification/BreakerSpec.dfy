/** One circuit breaker, whole calls as steps: its three states, its counters, and when it trips. The error and the
    response-time breaker differ in what makes a completion bad and in how the bad ones are counted. */
module BreakerSpec {
  import opened Ring

  datatype State = Closed | Open | HalfOpen

  datatype Strategy = SlowRtRatio | ErrorRatio | ErrorCount

  datatype Rule = Rule(
    strategy: Strategy,
    threshold: real,
    retryTimeoutMs: int,
    minRequestAmount: int,
    statIntervalMs: nat,
    maxAllowedRt: int)

  predicate IsValidRule(r: Rule) {
    r.threshold >= 0.0 && r.retryTimeoutMs > 0 && r.statIntervalMs > 0 && r.minRequestAmount >= 0
    && (r.strategy != ErrorCount ==> r.threshold <= 1.0)
  }

  /** How a request ended. */
  datatype Completion = Completion(rt: int, error: string)

  /** Slow for the response-time breaker, failed for the error breaker. */
  predicate IsBad(r: Rule, c: Completion) {
    if r.strategy == SlowRtRatio then c.rt > r.maxAllowedRt else c.error != ""
  }

  datatype Counter = Counter(bad: int, total: int)

  const ZERO := Counter(0, 0)

  function BadOf(): Counter -> int {
    (c: Counter) => c.bad
  }

  function TotalOf(): Counter -> int {
    (c: Counter) => c.total
  }

  /** What happens to the counters: a completion, or the reset at recovery. */
  datatype Event = Done(bad: bool) | Clear

  function Apply(c: Counter, e: Event): Counter {
    match e
    case Done(bad) => Counter(if bad then c.bad + 1 else c.bad, c.total + 1)
    case Clear => ZERO
  }

  datatype Breaker = Breaker(state: State, nextRetry: int, slots: Slots<Counter>)

  function ShapeOf(r: Rule): Shape {
    Shape(1, r.statIntervalMs)
  }

  function NewBreaker(r: Rule): Breaker {
    Breaker(Closed, 0, Empty(ShapeOf(r)))
  }

  predicate IsBreaker(r: Rule, b: Breaker) {
    IsValidRule(r) && |b.slots| == 1
  }

  datatype Attempt = Attempt(breaker: Breaker, passes: bool)

  function TryPass(b: Breaker, t: int): Attempt {
    match b.state
    case Closed => Attempt(b, true)
    case Open => if t >= b.nextRetry then Attempt(b.(state := HalfOpen), true) else Attempt(b, false)
    case HalfOpen => Attempt(b, false)
  }

  /** cur_value > threshold, for a ratio without dividing; a ratio of nothing is not a number and exceeds nothing. */
  predicate Exceeds(r: Rule, bad: int, total: int) {
    if r.strategy == ErrorCount then bad as real > r.threshold
    else total > 0 && bad as real > r.threshold * total as real
  }

  /** For a ratio that is the comparison of the code. */
  lemma ExceedsIsRatio(r: Rule, bad: int, total: int)
    requires r.strategy != ErrorCount && total > 0
    ensures Exceeds(r, bad, total) <==> bad as real / total as real > r.threshold
  {
    var q, n := bad as real / total as real, total as real;
    assert q * n == bad as real;
    ScaledOrder(q, r.threshold, n);
  }

  lemma ScaledOrder(a: real, b: real, n: real)
    requires n > 0.0
    ensures a > b <==> a * n > b * n
  {
    if a > b {
      assert (a - b) * n > 0.0;
    } else {
      assert (b - a) * n >= 0.0;
    }
  }

  predicate Trips(r: Rule, bad: int, total: int) {
    total >= r.minRequestAmount && Exceeds(r, bad, total)
  }

  function Count(r: Rule, slots: Slots<Counter>, t: nat, e: Event): (s: Slots<Counter>)
    requires IsValidRule(r) && |slots| == 1
    ensures |s| == 1
  {
    Modify(ShapeOf(r), slots, t, ZERO, c => Apply(c, e))
  }

  /** The clock as one completion reads it: for the bucket to count in, for the live buckets to sum up, and last for the
      retry timestamp or for the bucket to reset. */
  datatype Clocks = Clocks(count: nat, sum: nat, last: nat)

  predicate InOrder(at: Clocks) {
    at.count <= at.sum <= at.last
  }

  function RecordComplete(r: Rule, b: Breaker, at: Clocks, c: Completion): (n: Breaker)
    requires IsBreaker(r, b)
    ensures IsBreaker(r, n)
  {
    var slots := Count(r, b.slots, at.count, Done(IsBad(r, c)));
    match b.state
    case Open => b.(slots := slots)
    case HalfOpen =>
      if IsBad(r, c) then Breaker(Open, at.last + r.retryTimeoutMs, slots)
      else Breaker(Closed, b.nextRetry, Count(r, slots, at.last, Clear))
    case Closed =>
      if Trips(r, SumOfLive(ShapeOf(r), slots, at.sum, BadOf()), SumOfLive(ShapeOf(r), slots, at.sum, TotalOf()))
      then Breaker(Open, at.last + r.retryTimeoutMs, slots)
      else b.(slots := slots)
  }

  // ---------------------------------------------------------------- the log of completions

  type History = seq<Stamped<Event>>

  /** Completions of bucket id `id` since the last recovery: for each, whether it was bad. */
  function Recent(r: Rule, h: History, id: int): seq<bool>
    requires IsValidRule(r)
  {
    if h == [] || h[|h| - 1].event.Clear? then []
    else
      var e := h[|h| - 1];
      Recent(r, h[..|h| - 1], id) + if Id(ShapeOf(r), e.time) == id then [e.event.bad] else []
  }

  function CountBad(s: seq<bool>): nat {
    if s == [] then 0 else CountBad(s[..|s| - 1]) + if s[|s| - 1] then 1 else 0
  }

  /** Times never go back and are at most t. */
  predicate UpTo(h: History, t: nat) {
    h == [] || (h[|h| - 1].time <= t && UpTo(h[..|h| - 1], h[|h| - 1].time))
  }

  lemma IdOrder(r: Rule, s: nat, t: nat)
    requires IsValidRule(r) && s <= t
    ensures Id(ShapeOf(r), s) <= Id(ShapeOf(r), t)
  {
    var sh := ShapeOf(r);
    StartIsIdTimesLength(sh, s);
    StartIsIdTimesLength(sh, t);
    MulOrder(Id(sh, t), Id(sh, s), Length(sh));
  }

  lemma {:induction false} LaterBucketIsEmpty(r: Rule, h: History, t: nat, id: int)
    requires IsValidRule(r) && UpTo(h, t) && Id(ShapeOf(r), t) < id
    ensures BucketOf(ShapeOf(r), h, id, ZERO, Apply) == ZERO
  {
    if h != [] {
      IdOrder(r, h[|h| - 1].time, t);
      LaterBucketIsEmpty(r, h[..|h| - 1], h[|h| - 1].time, id);
    }
  }

  lemma CountBadLast(s: seq<bool>, b: bool)
    ensures CountBad(s + [b]) == CountBad(s) + if b then 1 else 0
  {
    assert (s + [b])[..|s + [b]| - 1] == s;
  }

  /** The current bucket counts the completions of its stat interval since the last recovery. */
  lemma {:induction false} BucketIsRecent(r: Rule, h: History, t: nat)
    requires IsValidRule(r) && UpTo(h, t)
    ensures var id := Id(ShapeOf(r), t);
      var s := Recent(r, h, id);
      BucketOf(ShapeOf(r), h, id, ZERO, Apply) == Counter(CountBad(s), |s|)
  {
    if h != [] {
      var e, before, id := h[|h| - 1], h[..|h| - 1], Id(ShapeOf(r), t);
      if e.event.Clear? {
        IdOrder(r, e.time, t);
        if Id(ShapeOf(r), e.time) < id {
          LaterBucketIsEmpty(r, before, e.time, id);
        }
      } else {
        UpToLater(before, e.time, t);
        BucketIsRecent(r, before, t);
        CountBadLast(Recent(r, before, id), e.event.bad);
        assert Recent(r, before, id) + [] == Recent(r, before, id);
      }
    }
  }

  lemma UpToLater(h: History, s: nat, t: nat)
    requires UpTo(h, s) && s <= t
    ensures UpTo(h, t)
  {
  }

  /** A breaker in sequential use, with the log of what its counters have seen. */
  ghost predicate Knows(r: Rule, b: Breaker, h: History, t: nat) {
    && IsBreaker(r, b) && UpTo(h, t)
    && exists last :: -1 <= last <= Id(ShapeOf(r), t) && Tracks(ShapeOf(r), b.slots, h, last, ZERO, Apply)
  }

  lemma NewBreakerKnows(r: Rule, t: nat)
    requires IsValidRule(r)
    ensures Knows(r, NewBreaker(r), [], t)
  {
    EmptyTracks(ShapeOf(r), ZERO, Apply);
  }

  lemma SlotsKnow(r: Rule, slots: Slots<Counter>, h: History, last: int, t: nat, e: Event)
    requires IsValidRule(r) && |slots| == 1 && UpTo(h, t)
    requires Tracks(ShapeOf(r), slots, h, last, ZERO, Apply) && last <= Id(ShapeOf(r), t)
    ensures var g := h + [Stamped(t, e)];
      && UpTo(g, t) && Tracks(ShapeOf(r), Count(r, slots, t, e), g, Id(ShapeOf(r), t), ZERO, Apply)
      && Recycled(ShapeOf(r), Count(r, slots, t, e), Id(ShapeOf(r), t))
  {
    ModifyTracks(ShapeOf(r), slots, h, last, t, e, ZERO, Apply);
    var g := h + [Stamped(t, e)];
    assert g[..|g| - 1] == h;
  }

  /** The completions a sum at u sees when the only bucket was current at t: that bucket's, unless it has expired. */
  function Seen(r: Rule, h: History, t: nat, u: nat): seq<bool>
    requires IsValidRule(r)
  {
    if u - StartOf(ShapeOf(r), t) <= r.statIntervalMs then Recent(r, h, Id(ShapeOf(r), t)) else []
  }

  lemma CurrentSums(r: Rule, slots: Slots<Counter>, h: History, t: nat, u: nat)
    requires IsValidRule(r) && |slots| == 1 && UpTo(h, t)
    requires Tracks(ShapeOf(r), slots, h, Id(ShapeOf(r), t), ZERO, Apply)
    requires Recycled(ShapeOf(r), slots, Id(ShapeOf(r), t))
    ensures var s := Seen(r, h, t, u);
      && SumOfLive(ShapeOf(r), slots, u, BadOf()) == CountBad(s)
      && SumOfLive(ShapeOf(r), slots, u, TotalOf()) == |s|
  {
    var sh := ShapeOf(r);
    StartIsIdTimesLength(sh, t);
    assert SlotTracks(sh, slots[0], 0, h, Id(sh, t), ZERO, Apply);
    assert slots[1..] == [];
    BucketIsRecent(r, h, t);
  }

  /** What a completion adds to the log: itself, and the reset if it ends a probe well. */
  function Logged(r: Rule, b: Breaker, at: Clocks, c: Completion): History {
    [Stamped(at.count, Done(IsBad(r, c)))]
    + if b.state == HalfOpen && !IsBad(r, c) then [Stamped(at.last, Clear)] else []
  }

  lemma Tracked(r: Rule, b: Breaker, h: History, t: nat, u: nat, slots: Slots<Counter>)
    requires IsBreaker(r, b) && UpTo(h, t) && b.slots == slots && t <= u
    requires Tracks(ShapeOf(r), slots, h, Id(ShapeOf(r), t), ZERO, Apply)
    ensures Knows(r, b, h, u)
  {
    IdOrder(r, t, u);
  }

  /** The two ways a completion touches the counters: recorded, or recorded and then reset. */
  lemma RecordedKnows(r: Rule, b: Breaker, n: Breaker, h: History, at: Clocks, bad: bool)
    requires Knows(r, b, h, at.count) && InOrder(at)
    requires IsBreaker(r, n) && n.slots == Count(r, b.slots, at.count, Done(bad))
    ensures Knows(r, n, h + [Stamped(at.count, Done(bad))], at.last)
  {
    var last :| -1 <= last <= Id(ShapeOf(r), at.count) && Tracks(ShapeOf(r), b.slots, h, last, ZERO, Apply);
    SlotsKnow(r, b.slots, h, last, at.count, Done(bad));
    Tracked(r, n, h + [Stamped(at.count, Done(bad))], at.count, at.last, n.slots);
  }

  lemma ResetKnows(r: Rule, b: Breaker, n: Breaker, h: History, t: nat)
    requires Knows(r, b, h, t) && IsBreaker(r, n) && n.slots == Count(r, b.slots, t, Clear)
    ensures Knows(r, n, h + [Stamped(t, Clear)], t)
  {
    var last :| -1 <= last <= Id(ShapeOf(r), t) && Tracks(ShapeOf(r), b.slots, h, last, ZERO, Apply);
    SlotsKnow(r, b.slots, h, last, t, Clear);
    Tracked(r, n, h + [Stamped(t, Clear)], t, t, n.slots);
  }

  /** Every completion keeps the counters in step with the log. */
  lemma CompleteKnows(r: Rule, b: Breaker, h: History, at: Clocks, c: Completion)
    requires Knows(r, b, h, at.count) && InOrder(at)
    ensures Knows(r, RecordComplete(r, b, at, c), h + Logged(r, b, at, c), at.last)
  {
    var n, done := RecordComplete(r, b, at, c), Done(IsBad(r, c));
    var g := h + [Stamped(at.count, done)];
    var mid := b.(slots := Count(r, b.slots, at.count, done));
    if b.state == HalfOpen && !IsBad(r, c) {
      RecordedKnows(r, b, mid, h, at, IsBad(r, c));
      ResetKnows(r, mid, n, g, at.last);
      assert g + [Stamped(at.last, Clear)] == h + Logged(r, b, at, c);
    } else {
      RecordedKnows(r, b, n, h, at, IsBad(r, c));
      assert g == h + Logged(r, b, at, c);
    }
  }

  /** In numbers: enough completions, and more bad ones than the threshold or, for a ratio, a larger share. */
  lemma TripsInNumbers(r: Rule, bad: int, total: int)
    ensures Trips(r, bad, total) <==>
      total >= r.minRequestAmount
      && if r.strategy == ErrorCount then bad as real > r.threshold
         else total > 0 && bad as real / total as real > r.threshold
  {
    if r.strategy != ErrorCount && total > 0 {
      ExceedsIsRatio(r, bad, total);
    }
  }

  lemma OpensOnTrip(r: Rule, b: Breaker, h: History, at: Clocks, c: Completion)
    requires Knows(r, b, h, at.count) && b.state == Closed
    ensures var s := Seen(r, h + [Stamped(at.count, Done(IsBad(r, c)))], at.count, at.sum);
      RecordComplete(r, b, at, c).state == (if Trips(r, CountBad(s), |s|) then Open else Closed)
  {
    var sh := ShapeOf(r);
    var last :| -1 <= last <= Id(sh, at.count) && Tracks(sh, b.slots, h, last, ZERO, Apply);
    var done := Done(IsBad(r, c));
    SlotsKnow(r, b.slots, h, last, at.count, done);
    CurrentSums(r, Count(r, b.slots, at.count, done), h + [Stamped(at.count, done)], at.count, at.sum);
  }

  /** A closed breaker opens on a completion if and only if the completions logged in the current stat interval since
      the last recovery, this one included, are enough and the bad ones too many; provided that interval has not expired
      by the time they are summed up. */
  lemma OpensIff(r: Rule, b: Breaker, h: History, at: Clocks, c: Completion)
    requires Knows(r, b, h, at.count) && b.state == Closed
    ensures var s := Seen(r, h + [Stamped(at.count, Done(IsBad(r, c)))], at.count, at.sum);
      var tooMany := |s| >= r.minRequestAmount
        && if r.strategy == ErrorCount then CountBad(s) as real > r.threshold
           else |s| > 0 && CountBad(s) as real / |s| as real > r.threshold;
      RecordComplete(r, b, at, c).state == if tooMany then Open else Closed
  {
    var s := Seen(r, h + [Stamped(at.count, Done(IsBad(r, c)))], at.count, at.sum);
    OpensOnTrip(r, b, h, at, c);
    TripsInNumbers(r, CountBad(s), |s|);
  }

  /** A probe that ends well closes the breaker, and nothing logged before counts any more. */
  lemma RecoveryForgets(r: Rule, b: Breaker, h: History, at: Clocks, c: Completion, later: History, id: int)
    requires IsBreaker(r, b) && b.state == HalfOpen && !IsBad(r, c)
    ensures RecordComplete(r, b, at, c).state == Closed
    ensures Recent(r, h + Logged(r, b, at, c) + later, id) == Recent(r, later, id)
    decreases |later|
  {
    var g := h + Logged(r, b, at, c);
    assert g[|g| - 1] == Stamped(at.last, Clear);
    var all := g + later;
    if later == [] {
      assert all == g;
    } else {
      assert all[..|all| - 1] == g + later[..|later| - 1] && all[|all| - 1] == later[|later| - 1];
      RecoveryForgets(r, b, h, at, c, later[..|later| - 1], id);
    }
  }

  lemma {:induction false} BadAtMostAll(s: seq<bool>)
    ensures CountBad(s) <= |s|
  {
    if s != [] {
      BadAtMostAll(s[..|s| - 1]);
    }
  }

  /** A ratio threshold of 1 is never exceeded. */
  lemma RatioOneNeverTrips(r: Rule, b: Breaker, h: History, at: Clocks, c: Completion)
    requires Knows(r, b, h, at.count) && b.state == Closed && r.strategy != ErrorCount && r.threshold == 1.0
    ensures RecordComplete(r, b, at, c).state == Closed
  {
    OpensOnTrip(r, b, h, at, c);
    BadAtMostAll(Seen(r, h + [Stamped(at.count, Done(IsBad(r, c)))], at.count, at.sum));
  }

  // ---------------------------------------------------------------- whole runs

  datatype Call = Ask(t: nat) | Finish(at: Clocks, c: Completion)

  function After(r: Rule, b: Breaker, call: Call): (n: Breaker)
    requires IsBreaker(r, b)
    ensures IsBreaker(r, n)
  {
    match call
    case Ask(t) => TryPass(b, t).breaker
    case Finish(at, c) => RecordComplete(r, b, at, c)
  }

  predicate FollowsOn(call: Call, clock: nat) {
    match call
    case Ask(t) => clock <= t
    case Finish(at, _) => clock <= at.count && InOrder(at)
  }

  function EndOf(call: Call): nat {
    match call
    case Ask(t) => t
    case Finish(at, _) => at.last
  }

  predicate AreInOrder(calls: seq<Call>, clock: nat) {
    calls == [] || (FollowsOn(calls[0], clock) && AreInOrder(calls[1..], EndOf(calls[0])))
  }

  /** The breaker after a run of calls, and what the run has logged. */
  function AfterAll(r: Rule, b: Breaker, calls: seq<Call>): (n: Breaker)
    requires IsBreaker(r, b)
    ensures IsBreaker(r, n)
    decreases |calls|
  {
    if calls == [] then b else AfterAll(r, After(r, b, calls[0]), calls[1..])
  }

  function LogOfCall(r: Rule, b: Breaker, call: Call): History {
    match call
    case Ask(_) => []
    case Finish(at, c) => Logged(r, b, at, c)
  }

  function LogOf(r: Rule, b: Breaker, calls: seq<Call>): History
    requires IsBreaker(r, b)
    decreases |calls|
  {
    if calls == [] then [] else LogOfCall(r, b, calls[0]) + LogOf(r, After(r, b, calls[0]), calls[1..])
  }

  function ClockOf(calls: seq<Call>, clock: nat): nat {
    if calls == [] then clock else ClockOf(calls[1..], EndOf(calls[0]))
  }

  lemma KnowsLater(r: Rule, b: Breaker, n: Breaker, h: History, t: nat, u: nat)
    requires Knows(r, b, h, t) && t <= u && IsBreaker(r, n) && n.slots == b.slots
    ensures Knows(r, n, h, u)
  {
    IdOrder(r, t, u);
  }

  lemma CallKnows(r: Rule, b: Breaker, h: History, call: Call, clock: nat)
    requires Knows(r, b, h, clock) && FollowsOn(call, clock)
    ensures Knows(r, After(r, b, call), h + LogOfCall(r, b, call), EndOf(call))
  {
    match call
    case Ask(t) =>
      KnowsLater(r, b, After(r, b, call), h, clock, t);
      assert h + [] == h;
    case Finish(at, c) =>
      KnowsLater(r, b, b, h, clock, at.count);
      CompleteKnows(r, b, h, at, c);
  }

  /** What every call keeps of a breaker, its log and the clock holds after every run. */
  lemma {:induction false} KeptOverRuns(r: Rule, b: Breaker, h: History, calls: seq<Call>, clock: nat,
                                        kept: (Breaker, History, nat) -> bool)
    requires IsBreaker(r, b) && AreInOrder(calls, clock) && kept(b, h, clock)
    requires forall n, g, t, call :: IsBreaker(r, n) && kept(n, g, t) && FollowsOn(call, t) ==>
      kept(After(r, n, call), g + LogOfCall(r, n, call), EndOf(call))
    ensures kept(AfterAll(r, b, calls), h + LogOf(r, b, calls), ClockOf(calls, clock))
    decreases |calls|
  {
    if calls == [] {
      assert h + [] == h;
    } else {
      var n, one := After(r, b, calls[0]), LogOfCall(r, b, calls[0]);
      KeptOverRuns(r, n, h + one, calls[1..], EndOf(calls[0]), kept);
      assert (h + one) + LogOf(r, n, calls[1..]) == h + LogOf(r, b, calls);
    }
  }

  lemma RunKnows(r: Rule, b: Breaker, h: History, calls: seq<Call>, clock: nat)
    requires Knows(r, b, h, clock) && AreInOrder(calls, clock)
    ensures Knows(r, AfterAll(r, b, calls), h + LogOf(r, b, calls), ClockOf(calls, clock))
  {
    ghost var kept := (n: Breaker, g: History, t: nat) => Knows(r, n, g, t);
    forall n, g, t, call | IsBreaker(r, n) && kept(n, g, t) && FollowsOn(call, t)
      ensures kept(After(r, n, call), g + LogOfCall(r, n, call), EndOf(call))
    {
      CallKnows(r, n, g, call, t);
    }
    KeptOverRuns(r, b, h, calls, clock, kept);
  }

  // ---------------------------------------------------------------- told from the calls alone

  /** A completion as it came, or a recovery: the half-open breaker has closed. */
  datatype Entry = Completed(time: nat, c: Completion) | Recovered

  function JournalOfCall(r: Rule, b: Breaker, call: Call): seq<Entry>
    requires IsBreaker(r, b)
  {
    match call
    case Ask(_) => []
    case Finish(at, c) =>
      [Completed(at.count, c)] + if b.state == HalfOpen && After(r, b, call).state == Closed then [Recovered] else []
  }

  function Journal(r: Rule, b: Breaker, calls: seq<Call>): seq<Entry>
    requires IsBreaker(r, b)
    decreases |calls|
  {
    if calls == [] then [] else JournalOfCall(r, b, calls[0]) + Journal(r, After(r, b, calls[0]), calls[1..])
  }

  /** The completions since the last recovery in the interval of that number. */
  function OfInterval(j: seq<Entry>, intervalMs: nat, number: int): seq<Completion>
    requires intervalMs > 0
  {
    if j == [] || j[|j| - 1].Recovered? then []
    else
      var e := j[|j| - 1];
      OfInterval(j[..|j| - 1], intervalMs, number) + if e.time / intervalMs == number then [e.c] else []
  }

  /** How many were slower than allowed, or failed. */
  function Failures(r: Rule, s: seq<Completion>): nat {
    if s == [] then 0
    else
      var c := s[|s| - 1];
      var failed := match r.strategy
        case SlowRtRatio => c.rt > r.maxAllowedRt
        case ErrorRatio => c.error != ""
        case ErrorCount => c.error != "";
      Failures(r, s[..|s| - 1]) + if failed then 1 else 0
  }

  ghost predicate Matches(r: Rule, j: seq<Entry>, h: History) {
    |j| == |h| && forall i :: 0 <= i < |j| ==>
      match j[i]
      case Completed(t, c) => h[i] == Stamped(t, Done(IsBad(r, c)))
      case Recovered => h[i].event == Clear
  }

  lemma MatchesAppend(r: Rule, j: seq<Entry>, h: History, j': seq<Entry>, h': History)
    requires Matches(r, j, h) && Matches(r, j', h')
    ensures Matches(r, j + j', h + h')
  {
  }

  lemma {:induction false} JournalMatches(r: Rule, b: Breaker, calls: seq<Call>)
    requires IsBreaker(r, b)
    ensures Matches(r, Journal(r, b, calls), LogOf(r, b, calls))
    decreases |calls|
  {
    if calls != [] {
      var n := After(r, b, calls[0]);
      JournalMatches(r, n, calls[1..]);
      MatchesAppend(r, JournalOfCall(r, b, calls[0]), LogOfCall(r, b, calls[0]), Journal(r, n, calls[1..]),
                    LogOf(r, n, calls[1..]));
    }
  }

  lemma FailuresLast(r: Rule, s: seq<Completion>, c: Completion)
    ensures Failures(r, s + [c]) == Failures(r, s) + if IsBad(r, c) then 1 else 0
  {
    assert (s + [c])[..|s + [c]| - 1] == s;
  }

  lemma OneMoreRecent(recent: seq<bool>, s: seq<Completion>, r: Rule, c: Completion, counted: bool)
    requires |recent| == |s| && CountBad(recent) == Failures(r, s)
    ensures var more, t := recent + (if counted then [IsBad(r, c)] else []), s + (if counted then [c] else []);
      |more| == |t| && CountBad(more) == Failures(r, t)
  {
    CountBadLast(recent, IsBad(r, c));
    FailuresLast(r, s, c);
    assert recent + [] == recent && s + [] == s;
  }

  lemma MatchesInit(r: Rule, j: seq<Entry>, h: History)
    requires Matches(r, j, h) && j != [] && j[|j| - 1].Completed?
    ensures Matches(r, j[..|j| - 1], h[..|h| - 1])
    ensures h[|h| - 1] == Stamped(j[|j| - 1].time, Done(IsBad(r, j[|j| - 1].c)))
  {
  }

  lemma NumberOf(r: Rule, t: nat)
    requires IsValidRule(r)
    ensures Id(ShapeOf(r), t) == t / r.statIntervalMs
  {
  }

  lemma {:induction false} RecentIsOfInterval(r: Rule, j: seq<Entry>, h: History, id: int)
    requires IsValidRule(r) && Matches(r, j, h)
    ensures var s := OfInterval(j, r.statIntervalMs, id);
      |Recent(r, h, id)| == |s| && CountBad(Recent(r, h, id)) == Failures(r, s)
  {
    if j != [] && j[|j| - 1].Completed? {
      var e, before, earlier := j[|j| - 1], j[..|j| - 1], h[..|h| - 1];
      MatchesInit(r, j, h);
      NumberOf(r, e.time);
      RecentIsOfInterval(r, before, earlier, id);
      OneMoreRecent(Recent(r, earlier, id), OfInterval(before, r.statIntervalMs, id), r, e.c,
                    e.time / r.statIntervalMs == id);
    }
  }

  /** The completions a completion is judged by: those of its stat interval since the last recovery and itself, unless
      that interval is over by more than its length when they are summed up. */
  function Judged(r: Rule, calls: seq<Call>, at: Clocks, c: Completion): seq<Completion>
    requires IsValidRule(r)
  {
    var start := at.count - at.count % r.statIntervalMs;
    if at.sum - start > r.statIntervalMs then []
    else
      var journal := Journal(r, NewBreaker(r), calls) + [Completed(at.count, c)];
      OfInterval(journal, r.statIntervalMs, at.count / r.statIntervalMs)
  }

  lemma SeenIsJudged(r: Rule, calls: seq<Call>, at: Clocks, c: Completion)
    requires IsValidRule(r)
    ensures var log := LogOf(r, NewBreaker(r), calls) + [Stamped(at.count, Done(IsBad(r, c)))];
      var seen := Seen(r, log, at.count, at.sum);
      |seen| == |Judged(r, calls, at, c)| && CountBad(seen) == Failures(r, Judged(r, calls, at, c))
  {
    var h, j := LogOf(r, NewBreaker(r), calls), Journal(r, NewBreaker(r), calls);
    JournalMatches(r, NewBreaker(r), calls);
    MatchesAppend(r, j, h, [Completed(at.count, c)], [Stamped(at.count, Done(IsBad(r, c)))]);
    NumberOf(r, at.count);
    RecentIsOfInterval(r, j + [Completed(at.count, c)], h + [Stamped(at.count, Done(IsBad(r, c)))],
                       Id(ShapeOf(r), at.count));
  }

  /** The exact trip condition over every run from the start: a closed breaker opens on a completion if and only if the
      completions it is judged by are enough and the failures among them more than the threshold, or their share of
      them is. */
  lemma TripsIff(r: Rule, calls: seq<Call>, at: Clocks, c: Completion)
    requires IsValidRule(r) && AreInOrder(calls, 0) && ClockOf(calls, 0) <= at.count && InOrder(at)
    requires AfterAll(r, NewBreaker(r), calls).state == Closed
    ensures var s := Judged(r, calls, at, c);
      var tooMany := |s| >= r.minRequestAmount
        && if r.strategy == ErrorCount then Failures(r, s) as real > r.threshold
           else |s| > 0 && Failures(r, s) as real / |s| as real > r.threshold;
      AfterAll(r, NewBreaker(r), calls + [Finish(at, c)]).state == if tooMany then Open else Closed
  {
    var b, h := AfterAll(r, NewBreaker(r), calls), LogOf(r, NewBreaker(r), calls);
    NewBreakerKnows(r, 0);
    RunKnows(r, NewBreaker(r), [], calls, 0);
    assert [] + h == h;
    KnowsLater(r, b, b, h, ClockOf(calls, 0), at.count);
    OpensIff(r, b, h, at, c);
    AfterLast(r, NewBreaker(r), calls, Finish(at, c));
    SeenIsJudged(r, calls, at, c);
  }

  /** The last clock reading of the latest call that has opened the breaker; `latest` when none has. */
  function OpenedAt(r: Rule, b: Breaker, calls: seq<Call>, latest: int): int
    requires IsBreaker(r, b)
    decreases |calls|
  {
    if calls == [] then latest
    else
      var n := After(r, b, calls[0]);
      OpenedAt(r, n, calls[1..], if n.state == Open && b.state != Open then EndOf(calls[0]) else latest)
  }

  lemma {:induction false} RetryIsDue(r: Rule, b: Breaker, calls: seq<Call>, latest: int)
    requires IsBreaker(r, b) && (b.state == Open ==> b.nextRetry == latest + r.retryTimeoutMs)
    ensures var n := AfterAll(r, b, calls);
      n.state == Open ==> n.nextRetry == OpenedAt(r, b, calls, latest) + r.retryTimeoutMs
    decreases |calls|
  {
    if calls != [] {
      var n := After(r, b, calls[0]);
      RetryIsDue(r, n, calls[1..], if n.state == Open && b.state != Open then EndOf(calls[0]) else latest);
    }
  }

  /** After every run from the start: a closed breaker lets a request pass, an open one as soon as the retry timeout is
      over since it opened and then becomes half-open, a half-open one never. */
  lemma PassesIff(r: Rule, calls: seq<Call>, t: nat, latest: int)
    requires IsValidRule(r)
    ensures var b := AfterAll(r, NewBreaker(r), calls);
      var due := b.state == Open && t - OpenedAt(r, NewBreaker(r), calls, latest) >= r.retryTimeoutMs;
      && (TryPass(b, t).passes <==> b.state == Closed || due)
      && AfterAll(r, NewBreaker(r), calls + [Ask(t)]).state == if due then HalfOpen else b.state
  {
    RetryIsDue(r, NewBreaker(r), calls, latest);
    AfterLast(r, NewBreaker(r), calls, Ask(t));
  }

  /** A completion decides a half-open breaker: a failure opens it again, anything else closes it. An open one stays. */
  lemma CompletionDecides(r: Rule, calls: seq<Call>, at: Clocks, c: Completion)
    requires IsValidRule(r) && AfterAll(r, NewBreaker(r), calls).state != Closed
    ensures var b := AfterAll(r, NewBreaker(r), calls);
      var failed := if r.strategy == SlowRtRatio then c.rt > r.maxAllowedRt else |c.error| > 0;
      AfterAll(r, NewBreaker(r), calls + [Finish(at, c)]).state
      == if b.state == HalfOpen && !failed then Closed else Open
  {
    AfterLast(r, NewBreaker(r), calls, Finish(at, c));
  }

  lemma {:induction false} AfterLast(r: Rule, b: Breaker, calls: seq<Call>, call: Call)
    requires IsBreaker(r, b)
    ensures AfterAll(r, b, calls + [call]) == After(r, AfterAll(r, b, calls), call)
    decreases |calls|
  {
    if calls == [] {
      assert calls + [call] == [call] && [call][1..] == [];
    } else {
      assert (calls + [call])[0] == calls[0] && (calls + [call])[1..] == calls[1..] + [call];
      AfterLast(r, After(r, b, calls[0]), calls[1..], call);
    }
  }
}
