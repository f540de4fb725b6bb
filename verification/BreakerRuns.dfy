/** The breakers of one resource over whole runs of entries and exits: who holds a probe, how far probes are apart,
    and when a resource gets stuck. */
module BreakerRuns {
  import opened Options
  import opened Ring
  import opened BreakerSpec

  // ---------------------------------------------------------------- the two slots

  datatype Check = Check(breakers: seq<Breaker>, passes: bool)

  /** CheckerSlot::Entry: the first breaker that refuses ends the loop. Breaker i is asked at at[i]. */
  function CheckAll(bs: seq<Breaker>, at: seq<nat>): (r: Check)
    requires |at| == |bs|
    ensures |r.breakers| == |bs| && forall i :: 0 <= i < |bs| ==> r.breakers[i].slots == bs[i].slots
  {
    if bs == [] then Check([], true)
    else
      var a := TryPass(bs[0], at[0]);
      if !a.passes then Check([a.breaker] + bs[1..], false)
      else
        var rest := CheckAll(bs[1..], at[1..]);
        Check([a.breaker] + rest.breakers, rest.passes)
  }

  predicate AreBreakers(rules: seq<Rule>, bs: seq<Breaker>) {
    |rules| == |bs| && forall i :: 0 <= i < |bs| ==> IsBreaker(rules[i], bs[i])
  }

  /** CompleteStatSlot::Exit; breaker i reads the clock as done[i] says. */
  function CompleteAll(rules: seq<Rule>, bs: seq<Breaker>, done: seq<Clocks>, c: Completion): (r: seq<Breaker>)
    requires AreBreakers(rules, bs) && |done| == |bs|
    ensures |r| == |bs| && forall i :: 0 <= i < |bs| ==> r[i] == RecordComplete(rules[i], bs[i], done[i], c)
  {
    seq(|bs|, i requires 0 <= i < |bs| => RecordComplete(rules[i], bs[i], done[i], c))
  }

  /** The index of the first breaker that refuses when asked, or their number. */
  function FirstRefusal(bs: seq<Breaker>, at: seq<nat>): (j: nat)
    requires |at| == |bs|
    ensures j <= |bs| && (j < |bs| ==> !TryPass(bs[j], at[j]).passes)
    ensures forall k :: 0 <= k < j ==> TryPass(bs[k], at[k]).passes
  {
    if bs == [] || !TryPass(bs[0], at[0]).passes then 0 else 1 + FirstRefusal(bs[1..], at[1..])
  }

  /** A request passes when no breaker refuses; the breakers before the first refusal have been asked all the same. */
  lemma {:induction false} CheckAllShape(bs: seq<Breaker>, at: seq<nat>)
    requires |at| == |bs|
    ensures var r, j := CheckAll(bs, at), FirstRefusal(bs, at);
      && (r.passes <==> j == |bs|)
      && forall k :: 0 <= k < |bs| ==> r.breakers[k] == if k < j then TryPass(bs[k], at[k]).breaker else bs[k]
  {
    if bs != [] && TryPass(bs[0], at[0]).passes {
      CheckAllShape(bs[1..], at[1..]);
      var r, j := CheckAll(bs, at), FirstRefusal(bs, at);
      forall k | 0 <= k < |bs| ensures r.breakers[k] == if k < j then TryPass(bs[k], at[k]).breaker else bs[k] {
        if k > 0 {
          assert bs[k] == bs[1..][k - 1] && at[k] == at[1..][k - 1];
        }
      }
    }
  }

  // ---------------------------------------------------------------- runs

  /** `othersPass` is what the checker slots in front of the breakers say; an entry they block never gets here. */
  datatype Op =
    | Enter(at: seq<nat>, id: nat, othersPass: bool)
    | Exit(done: seq<Clocks>, id: nat, c: Completion)

  /** What happened to the watched breaker. */
  datatype Mark = Opened(time: nat) | Probed(time: nat)

  datatype Resource = Resource(
    breakers: seq<Breaker>,
    inFlight: set<nat>,
    prober: nat,
    log: seq<Mark>,
    clock: nat)

  function Fresh(rules: seq<Rule>): (r: Resource)
    ensures |r.breakers| == |rules|
  {
    Resource(seq(|rules|, i requires 0 <= i < |rules| => NewBreaker(rules[i])), {}, 0, [], 0)
  }

  function Observed(before: State, after: State, t: nat): seq<Mark> {
    if before == Open && after == HalfOpen then [Probed(t)]
    else if before != Open && after == Open then [Opened(t)]
    else []
  }

  /** The call reads the clock for every breaker. */
  predicate Fits(op: Op, n: nat) {
    match op
    case Enter(at, _, _) => |at| == n
    case Exit(done, _, _) => |done| == n
  }

  /** The last reading of a call. */
  function EndOf(op: Op, clock: nat): nat {
    match op
    case Enter(at, _, _) => if at == [] then clock else at[|at| - 1]
    case Exit(done, _, _) => if done == [] then clock else done[|done| - 1].last
  }

  /** One call; breaker k is watched. An exit happens once and only for a request that passed. */
  function Step(rules: seq<Rule>, k: nat, r: Resource, op: Op): (n: Resource)
    requires AreBreakers(rules, r.breakers) && k < |r.breakers| && Fits(op, |r.breakers|)
    ensures AreBreakers(rules, n.breakers)
  {
    match op
    case Enter(at, id, othersPass) =>
      if !othersPass then r.(clock := EndOf(op, r.clock))
      else
        var c := CheckAll(r.breakers, at);
        var marks := Observed(r.breakers[k].state, c.breakers[k].state, at[k]);
        Resource(c.breakers, if c.passes then r.inFlight + {id} else r.inFlight,
                 if marks == [Probed(at[k])] then id else r.prober, r.log + marks, EndOf(op, r.clock))
    case Exit(done, id, c) =>
      if id !in r.inFlight then r.(clock := EndOf(op, r.clock))
      else
        var bs := CompleteAll(rules, r.breakers, done, c);
        Resource(bs, r.inFlight - {id}, r.prober, r.log + Observed(r.breakers[k].state, bs[k].state, done[k].last),
                 EndOf(op, r.clock))
  }

  predicate AllFit(ops: seq<Op>, n: nat) {
    forall i :: 0 <= i < |ops| ==> Fits(ops[i], n)
  }

  /** The readings of a call, breaker after breaker, do not go back. */
  predicate InTime(r: Resource, op: Op) {
    match op
    case Enter(at, _, _) =>
      && (forall i :: 0 <= i < |at| ==> r.clock <= at[i])
      && (forall i, j :: 0 <= i < j < |at| ==> at[i] <= at[j])
    case Exit(done, _, _) =>
      && (forall i :: 0 <= i < |done| ==> r.clock <= done[i].count && InOrder(done[i]))
      && (forall i, j :: 0 <= i < j < |done| ==> done[i].last <= done[j].count)
  }

  predicate IsRun(rules: seq<Rule>, k: nat, r: Resource, ops: seq<Op>)
    requires AreBreakers(rules, r.breakers) && k < |r.breakers| && AllFit(ops, |r.breakers|)
    decreases |ops|
  {
    ops == [] || (InTime(r, ops[0]) && IsRun(rules, k, Step(rules, k, r, ops[0]), ops[1..]))
  }

  function Run(rules: seq<Rule>, k: nat, r: Resource, ops: seq<Op>): (n: Resource)
    requires AreBreakers(rules, r.breakers) && k < |r.breakers| && AllFit(ops, |r.breakers|)
    ensures AreBreakers(rules, n.breakers)
    decreases |ops|
  {
    if ops == [] then r else Run(rules, k, Step(rules, k, r, ops[0]), ops[1..])
  }

  // ---------------------------------------------------------------- probe spacing

  /** Every probe comes at least `gap` after every opening and every probe before it. */
  ghost predicate Spaced(log: seq<Mark>, gap: int) {
    forall i, j :: 0 <= i < j < |log| && log[j].Probed? ==> log[i].time + gap <= log[j].time
  }

  ghost predicate SpacedUpTo(rule: Rule, log: seq<Mark>, b: Breaker, clock: nat) {
    && Spaced(log, rule.retryTimeoutMs)
    && (forall i :: 0 <= i < |log| ==> log[i].time <= clock)
    && (b.state == Open ==> forall i :: 0 <= i < |log| ==> log[i].time + rule.retryTimeoutMs <= b.nextRetry)
  }

  ghost predicate SpacingInv(rules: seq<Rule>, k: nat, r: Resource)
    requires AreBreakers(rules, r.breakers) && k < |r.breakers|
  {
    SpacedUpTo(rules[k], r.log, r.breakers[k], r.clock)
  }

  /** When the watched breaker is asked, or sets its retry timestamp. */
  function TimeAt(op: Op, k: nat): nat
    requires exists n :: k < n && Fits(op, n)
  {
    match op
    case Enter(at, _, _) => at[k]
    case Exit(done, _, _) => done[k].last
  }

  lemma SpacingAfter(rule: Rule, log: seq<Mark>, b: Breaker, clock: nat, n: Breaker, op: Op, k: nat)
    requires IsBreaker(rule, b) && (exists m :: k < m && Fits(op, m)) && clock <= TimeAt(op, k)
    requires SpacedUpTo(rule, log, b, clock)
    requires n == b || (op.Enter? && n == TryPass(b, op.at[k]).breaker)
      || (op.Exit? && n == RecordComplete(rule, b, op.done[k], op.c))
    ensures SpacedUpTo(rule, log + Observed(b.state, n.state, TimeAt(op, k)), n, TimeAt(op, k))
  {
  }

  /** What one call does to the watched breaker: nothing, one attempt, or one completion. */
  lemma WatchedMoves(rules: seq<Rule>, k: nat, r: Resource, op: Op)
    requires AreBreakers(rules, r.breakers) && k < |r.breakers| && Fits(op, |r.breakers|)
    ensures var b, n := r.breakers[k], Step(rules, k, r, op);
      && (n.breakers[k] == b || (op.Enter? && n.breakers[k] == TryPass(b, op.at[k]).breaker)
          || (op.Exit? && n.breakers[k] == RecordComplete(rules[k], b, op.done[k], op.c)))
      && n.log == r.log + Observed(b.state, n.breakers[k].state, TimeAt(op, k)) && n.clock == EndOf(op, r.clock)
  {
    if op.Enter? {
      CheckAllShape(r.breakers, op.at);
    }
  }

  lemma TimeWithin(r: Resource, op: Op, k: nat)
    requires k < |r.breakers| && Fits(op, |r.breakers|) && InTime(r, op)
    ensures r.clock <= TimeAt(op, k) <= EndOf(op, r.clock)
  {
    match op
    case Enter(at, _, _) => assert k < |at| - 1 ==> at[k] <= at[|at| - 1];
    case Exit(done, _, _) => assert k < |done| - 1 ==> done[k].last <= done[|done| - 1].count;
  }

  lemma StepSpacing(rules: seq<Rule>, k: nat, r: Resource, op: Op)
    requires AreBreakers(rules, r.breakers) && k < |r.breakers| && Fits(op, |r.breakers|)
    requires InTime(r, op) && SpacingInv(rules, k, r)
    ensures SpacingInv(rules, k, Step(rules, k, r, op))
  {
    WatchedMoves(rules, k, r, op);
    TimeWithin(r, op, k);
    SpacingAfter(rules[k], r.log, r.breakers[k], r.clock, Step(rules, k, r, op).breakers[k], op, k);
  }

  /** In every run each probe of a breaker starts at least the retry timeout after the latest opening, and any two
      probes are at least that far apart, whatever other breakers the resource has. */
  lemma {:induction false} ProbesAreSpaced(rules: seq<Rule>, k: nat, r: Resource, ops: seq<Op>)
    requires AreBreakers(rules, r.breakers) && k < |r.breakers| && AllFit(ops, |r.breakers|)
    requires IsRun(rules, k, r, ops) && SpacingInv(rules, k, r)
    ensures SpacingInv(rules, k, Run(rules, k, r, ops))
    decreases |ops|
  {
    if ops != [] {
      StepSpacing(rules, k, r, ops[0]);
      ProbesAreSpaced(rules, k, Step(rules, k, r, ops[0]), ops[1..]);
    }
  }

  // ---------------------------------------------------------------- one breaker: no wedge

  /** The request that opened the probe is still in flight. */
  predicate ProbeInFlight(r: Resource)
    requires |r.breakers| == 1
  {
    r.breakers[0].state == HalfOpen ==> r.prober in r.inFlight
  }

  lemma StepKeepsProbe(rules: seq<Rule>, r: Resource, op: Op)
    requires AreBreakers(rules, r.breakers) && |rules| == 1 && Fits(op, 1) && ProbeInFlight(r)
    ensures ProbeInFlight(Step(rules, 0, r, op))
  {
    if op.Enter? {
      CheckAllShape(r.breakers, op.at);
    }
  }

  lemma {:induction false} NoWedge(rules: seq<Rule>, r: Resource, ops: seq<Op>)
    requires AreBreakers(rules, r.breakers) && |rules| == 1 && AllFit(ops, 1) && ProbeInFlight(r)
    ensures ProbeInFlight(Run(rules, 0, r, ops))
    decreases |ops|
  {
    if ops != [] {
      StepKeepsProbe(rules, r, ops[0]);
      NoWedge(rules, Step(rules, 0, r, ops[0]), ops[1..]);
    }
  }

  // ---------------------------------------------------------------- several breakers: stuck for good

  /** Any exit takes every half-open breaker of the resource out of that state. */
  lemma ExitEndsHalfOpen(rules: seq<Rule>, k: nat, r: Resource, done: seq<Clocks>, id: nat, c: Completion)
    requires AreBreakers(rules, r.breakers) && k < |r.breakers| && |done| == |r.breakers| && id in r.inFlight
    ensures Step(rules, k, r, Exit(done, id, c)).breakers[k].state != HalfOpen
  {
  }

  predicate Stuck(r: Resource, k: nat)
    requires k < |r.breakers|
  {
    r.breakers[k].state == HalfOpen && r.inFlight == {}
  }

  lemma StepKeepsStuck(rules: seq<Rule>, k: nat, r: Resource, op: Op)
    requires AreBreakers(rules, r.breakers) && k < |r.breakers| && Fits(op, |r.breakers|) && Stuck(r, k)
    ensures Stuck(Step(rules, k, r, op), k)
  {
    if op.Enter? {
      CheckAllShape(r.breakers, op.at);
      assert !TryPass(r.breakers[k], op.at[k]).passes;
    }
  }

  /** A half-open breaker with no request in flight refuses everything forever. */
  lemma {:induction false} StuckForever(rules: seq<Rule>, k: nat, r: Resource, ops: seq<Op>)
    requires AreBreakers(rules, r.breakers) && k < |r.breakers| && AllFit(ops, |r.breakers|) && Stuck(r, k)
    ensures Stuck(Run(rules, k, r, ops), k)
    decreases |ops|
  {
    if ops != [] {
      StepKeepsStuck(rules, k, r, ops[0]);
      StuckForever(rules, k, Step(rules, k, r, ops[0]), ops[1..]);
    }
  }

  /** Breaker k is due for a probe and would be asked, and a later breaker refuses. */
  predicate ProbeIsWasted(bs: seq<Breaker>, k: nat, at: seq<nat>)
    requires k < |bs| == |at|
  {
    bs[k].state == Open && at[k] >= bs[k].nextRetry && k < FirstRefusal(bs, at) < |bs|
  }

  /** An entry, the checkers in front of the breakers passing and nothing in flight, that wastes breaker k's probe. */
  predicate WastesProbe(r: Resource, k: nat, op: Op)
    requires k < |r.breakers| && Fits(op, |r.breakers|)
  {
    op.Enter? && op.othersPass && r.inFlight == {} && ProbeIsWasted(r.breakers, k, op.at)
  }

  /** A call gets a resource stuck on breaker k if and only if it is such an entry. */
  lemma GetsStuckIff(rules: seq<Rule>, k: nat, r: Resource, op: Op)
    requires AreBreakers(rules, r.breakers) && k < |r.breakers| && Fits(op, |r.breakers|) && !Stuck(r, k)
    ensures Stuck(Step(rules, k, r, op), k) <==> WastesProbe(r, k, op)
  {
    if op.Enter? && op.othersPass {
      CheckAllShape(r.breakers, op.at);
      if CheckAll(r.breakers, op.at).passes {
        assert op.id in Step(rules, k, r, op).inFlight;
      }
    } else if op.Exit? && op.id in r.inFlight {
      ExitEndsHalfOpen(rules, k, r, op.done, op.id, op.c);
    }
  }

  /** Some entry of the run wastes a probe of breaker k. */
  predicate Wastes(rules: seq<Rule>, k: nat, r: Resource, ops: seq<Op>)
    requires AreBreakers(rules, r.breakers) && k < |r.breakers| && AllFit(ops, |r.breakers|)
    decreases |ops|
  {
    ops != [] && (WastesProbe(r, k, ops[0]) || Wastes(rules, k, Step(rules, k, r, ops[0]), ops[1..]))
  }

  /** A run leaves a resource stuck on breaker k if and only if one of its entries wasted a probe of k. */
  lemma {:induction false} EndsStuckIff(rules: seq<Rule>, k: nat, r: Resource, ops: seq<Op>)
    requires AreBreakers(rules, r.breakers) && k < |r.breakers| && AllFit(ops, |r.breakers|) && !Stuck(r, k)
    ensures Stuck(Run(rules, k, r, ops), k) <==> Wastes(rules, k, r, ops)
    decreases |ops|
  {
    if ops != [] {
      var n := Step(rules, k, r, ops[0]);
      GetsStuckIff(rules, k, r, ops[0]);
      if Stuck(n, k) {
        StuckForever(rules, k, n, ops[1..]);
      } else {
        EndsStuckIff(rules, k, n, ops[1..]);
      }
    }
  }

  // ---------------------------------------------------------------- which rules can get stuck

  /** A ratio never exceeds 1, so a breaker with that threshold never opens. */
  predicate CanTrip(r: Rule) {
    r.strategy == ErrorCount || r.threshold < 1.0
  }

  predicate AreRules(rules: seq<Rule>) {
    forall i :: 0 <= i < |rules| ==> IsValidRule(rules[i])
  }

  ghost predicate CountersOk(r: Rule, b: Breaker)
    requires IsBreaker(r, b)
  {
    && (b.slots[0].Some? ==> 0 <= b.slots[0].value.value.bad <= b.slots[0].value.value.total)
    && (b.state != Closed ==> CanTrip(r))
  }

  lemma OneSlot(r: Rule, slots: Slots<Counter>, t: nat)
    requires |slots| == 1
    ensures var live := IsLive(ShapeOf(r), t, slots[0]);
      && SumOfLive(ShapeOf(r), slots, t, BadOf()) == (if live then slots[0].value.value.bad else 0)
      && SumOfLive(ShapeOf(r), slots, t, TotalOf()) == (if live then slots[0].value.value.total else 0)
  {
    assert slots[1..] == [];
  }

  lemma CompleteKeepsCounters(r: Rule, b: Breaker, at: Clocks, c: Completion)
    requires IsBreaker(r, b) && CountersOk(r, b)
    ensures CountersOk(r, RecordComplete(r, b, at, c))
  {
    OneSlot(r, Count(r, b.slots, at.count, Done(IsBad(r, c))), at.sum);
  }

  ghost predicate AllCountersOk(rules: seq<Rule>, bs: seq<Breaker>)
    requires AreBreakers(rules, bs)
  {
    forall i :: 0 <= i < |bs| ==> CountersOk(rules[i], bs[i])
  }

  lemma StepKeepsCounters(rules: seq<Rule>, k: nat, r: Resource, op: Op)
    requires AreBreakers(rules, r.breakers) && k < |r.breakers| && Fits(op, |r.breakers|)
    requires AllCountersOk(rules, r.breakers)
    ensures AllCountersOk(rules, Step(rules, k, r, op).breakers)
  {
    var n := Step(rules, k, r, op);
    forall i | 0 <= i < |n.breakers| ensures CountersOk(rules[i], n.breakers[i]) {
      if op.Enter? {
        CheckAllShape(r.breakers, op.at);
      } else {
        CompleteKeepsCounters(rules[i], r.breakers[i], op.done[i], op.c);
      }
    }
  }

  lemma FreshIsOk(rules: seq<Rule>)
    requires AreRules(rules)
    ensures AreBreakers(rules, Fresh(rules).breakers) && AllCountersOk(rules, Fresh(rules).breakers)
  {
  }

  /** A wasted probe takes two breakers that have tripped. */
  lemma {:induction false} WastingTakesTwo(rules: seq<Rule>, k: nat, r: Resource, ops: seq<Op>)
    requires AreBreakers(rules, r.breakers) && k < |r.breakers| && AllFit(ops, |r.breakers|)
    requires AllCountersOk(rules, r.breakers) && Wastes(rules, k, r, ops)
    ensures CanTrip(rules[k]) && exists j :: k < j < |rules| && CanTrip(rules[j])
    decreases |ops|
  {
    if WastesProbe(r, k, ops[0]) {
      var j := FirstRefusal(r.breakers, ops[0].at);
      assert CountersOk(rules[k], r.breakers[k]) && CountersOk(rules[j], r.breakers[j]);
    } else {
      StepKeepsCounters(rules, k, r, ops[0]);
      WastingTakesTwo(rules, k, Step(rules, k, r, ops[0]), ops[1..]);
    }
  }

  /** r can be reached from the fresh resource. */
  ghost predicate Reachable(rules: seq<Rule>, k: nat, r: Resource)
    requires AreRules(rules) && k < |rules|
  {
    FreshIsOk(rules);
    exists ops :: AllFit(ops, |rules|) && IsRun(rules, k, Fresh(rules), ops) && Run(rules, k, Fresh(rules), ops) == r
  }

  lemma {:induction false} RunLast(rules: seq<Rule>, k: nat, r: Resource, ops: seq<Op>, op: Op)
    requires AreBreakers(rules, r.breakers) && k < |r.breakers| && AllFit(ops, |r.breakers|) && Fits(op, |r.breakers|)
    requires IsRun(rules, k, r, ops) && InTime(Run(rules, k, r, ops), op)
    ensures IsRun(rules, k, r, ops + [op])
    ensures Run(rules, k, r, ops + [op]) == Step(rules, k, Run(rules, k, r, ops), op)
    decreases |ops|
  {
    if ops == [] {
      assert ops + [op] == [op] && [op][1..] == [];
    } else {
      assert (ops + [op])[0] == ops[0] && (ops + [op])[1..] == ops[1..] + [op];
      RunLast(rules, k, Step(rules, k, r, ops[0]), ops[1..], op);
    }
  }

  lemma Next(rules: seq<Rule>, k: nat, r: Resource, op: Op)
    requires AreRules(rules) && k < |rules| && Reachable(rules, k, r)
    requires AreBreakers(rules, r.breakers) && Fits(op, |rules|) && InTime(r, op)
    ensures Reachable(rules, k, Step(rules, k, r, op))
  {
    FreshIsOk(rules);
    var ops :| AllFit(ops, |rules|) && IsRun(rules, k, Fresh(rules), ops) && Run(rules, k, Fresh(rules), ops) == r;
    RunLast(rules, k, Fresh(rules), ops, op);
    assert AllFit(ops + [op], |rules|);
  }

  /** Bad completions that trip the breaker. */
  function Need(r: Rule): nat
    requires IsValidRule(r)
  {
    var floor := r.threshold.Floor + 1;
    if r.minRequestAmount > floor then r.minRequestAmount else floor
  }

  function NeedOfAll(rules: seq<Rule>): (m: nat)
    requires AreRules(rules)
    ensures forall i :: 0 <= i < |rules| ==> Need(rules[i]) <= m
  {
    if rules == [] then 0
    else
      var m := NeedOfAll(rules[1..]);
      if Need(rules[0]) > m then Need(rules[0]) else m
  }

  function LongestTimeout(rules: seq<Rule>): (m: nat)
    requires AreRules(rules)
    ensures forall i :: 0 <= i < |rules| ==> rules[i].retryTimeoutMs <= m
  {
    if rules == [] then 0
    else
      var m := LongestTimeout(rules[1..]);
      if rules[0].retryTimeoutMs > m then rules[0].retryTimeoutMs else m
  }

  /** Slower than any rule allows, and failed. */
  function Failure(rules: seq<Rule>): (c: Completion)
    ensures c.error != "" && forall i :: 0 <= i < |rules| ==> IsBad(rules[i], c)
  {
    if rules == [] then Completion(0, "failed")
    else
      var c := Failure(rules[1..]);
      Completion(if c.rt > rules[0].maxAllowedRt then c.rt else rules[0].maxAllowedRt + 1, "failed")
  }

  /** A breaker that has seen m bad completions at time 0 and nothing else. */
  predicate Failing(r: Rule, b: Breaker, m: nat) {
    && IsBreaker(r, b)
    && b.slots == (if m == 0 then Empty(ShapeOf(r)) else [Some(Wrap(0, Counter(m, m)))])
    && b.state != HalfOpen && (b.state == Open ==> b.nextRetry == r.retryTimeoutMs)
    && (CanTrip(r) && m >= Need(r) ==> b.state == Open)
  }

  lemma EnoughIsTooMany(r: Rule, m: nat)
    requires IsValidRule(r) && CanTrip(r) && m >= Need(r)
    ensures Trips(r, m, m)
  {
    assert r.threshold < (r.threshold.Floor + 1) as real <= m as real;
    assert m > 0;
    if r.strategy != ErrorCount {
      assert r.threshold * m as real < m as real by {
        assert (1.0 - r.threshold) * m as real > 0.0;
      }
    }
  }

  lemma OnlySlotAtZero(sh: Shape, slots: Slots<Counter>, c: Counter, f: Counter -> Counter)
    requires IsShape(sh) && sh.samples == 1
    requires slots == [Some(Wrap(0, c))] || (slots == [None] && c == ZERO)
    ensures Modify(sh, slots, 0, ZERO, f) == [Some(Wrap(0, f(c)))]
  {
    assert Id(sh, 0) == 0 && IndexOf(sh, 0) == 0 && StartOf(sh, 0) == 0;
  }

  lemma FailureCounts(r: Rule, b: Breaker, m: nat)
    requires Failing(r, b, m)
    ensures var slots := Count(r, b.slots, 0, Done(true));
      && slots == [Some(Wrap(0, Counter(m + 1, m + 1)))]
      && SumOfLive(ShapeOf(r), slots, 0, BadOf()) == m + 1 && SumOfLive(ShapeOf(r), slots, 0, TotalOf()) == m + 1
  {
    assert m == 0 ==> b.slots == [None];
    OnlySlotAtZero(ShapeOf(r), b.slots, Counter(m, m), c => Apply(c, Done(true)));
    OneSlot(r, Count(r, b.slots, 0, Done(true)), 0);
  }

  lemma OneMoreFailure(r: Rule, b: Breaker, m: nat, c: Completion)
    requires Failing(r, b, m) && IsBad(r, c)
    ensures Failing(r, RecordComplete(r, b, Clocks(0, 0, 0), c), m + 1)
  {
    FailureCounts(r, b, m);
    if CanTrip(r) && m + 1 >= Need(r) {
      EnoughIsTooMany(r, m + 1);
    }
  }

  function Repeat<T>(x: T, n: nat): (s: seq<T>)
    ensures |s| == n && forall i :: 0 <= i < n ==> s[i] == x
  {
    seq(n, _ => x)
  }

  ghost predicate Flying(r: Resource, from: nat, to: nat) {
    forall i: nat :: i in r.inFlight <==> from <= i < to
  }

  lemma OneEnters(rules: seq<Rule>, k: nat, r: Resource, id: nat)
    requires AreRules(rules) && k < |rules| && r.breakers == Fresh(rules).breakers && r.clock == 0
    ensures var op := Enter(Repeat(0, |rules|), id, true);
      && AreBreakers(rules, r.breakers) && InTime(r, op)
      && var n := Step(rules, k, r, op); n.breakers == r.breakers && n.clock == 0 && n.inFlight == r.inFlight + {id}
  {
    FreshIsOk(rules);
    var op := Enter(Repeat(0, |rules|), id, true);
    CheckAllShape(r.breakers, op.at);
    var n := Step(rules, k, r, op);
    assert FirstRefusal(r.breakers, op.at) == |rules|;
    assert n.breakers == r.breakers;
  }

  lemma EnterOnce(rules: seq<Rule>, k: nat, r: Resource, m: nat) returns (n: Resource)
    requires AreRules(rules) && k < |rules| && Reachable(rules, k, r)
    requires r.breakers == Fresh(rules).breakers && Flying(r, 0, m) && r.clock == 0
    ensures Reachable(rules, k, n) && n.breakers == Fresh(rules).breakers && Flying(n, 0, m + 1) && n.clock == 0
  {
    var op := Enter(Repeat(0, |rules|), m, true);
    OneEnters(rules, k, r, m);
    Next(rules, k, r, op);
    n := Step(rules, k, r, op);
  }

  /** m requests have entered. */
  lemma {:induction false} AllEnter(rules: seq<Rule>, k: nat, m: nat) returns (r: Resource)
    requires AreRules(rules) && k < |rules|
    ensures Reachable(rules, k, r) && r.breakers == Fresh(rules).breakers && Flying(r, 0, m) && r.clock == 0
  {
    FreshIsOk(rules);
    if m == 0 {
      r := Fresh(rules);
      assert AllFit([], |rules|) && IsRun(rules, k, r, []) && Run(rules, k, r, []) == r;
    } else {
      var before := AllEnter(rules, k, m - 1);
      r := EnterOnce(rules, k, before, m - 1);
    }
  }

  ghost predicate AllFailing(rules: seq<Rule>, r: Resource, e: nat) {
    |r.breakers| == |rules| && r.clock == 0 && forall i :: 0 <= i < |rules| ==> Failing(rules[i], r.breakers[i], e)
  }

  lemma {:induction false} OneFails(rules: seq<Rule>, k: nat, r: Resource, e: nat, id: nat)
    requires k < |rules| && AllFailing(rules, r, e) && id in r.inFlight
    ensures AreBreakers(rules, r.breakers)
    ensures var op := Exit(Repeat(Clocks(0, 0, 0), |rules|), id, Failure(rules));
      InTime(r, op)
      && var n := Step(rules, k, r, op); AllFailing(rules, n, e + 1) && n.inFlight == r.inFlight - {id}
  {
    var op := Exit(Repeat(Clocks(0, 0, 0), |rules|), id, Failure(rules));
    var n := Step(rules, k, r, op);
    forall i | 0 <= i < |rules| ensures Failing(rules[i], n.breakers[i], e + 1) {
      OneMoreFailure(rules[i], r.breakers[i], e, Failure(rules));
    }
  }

  lemma FailOnce(rules: seq<Rule>, k: nat, r: Resource, e: nat, m: nat) returns (n: Resource)
    requires AreRules(rules) && k < |rules| && e < m
    requires Reachable(rules, k, r) && AllFailing(rules, r, e) && Flying(r, e, m)
    ensures Reachable(rules, k, n) && AllFailing(rules, n, e + 1) && Flying(n, e + 1, m)
  {
    var op := Exit(Repeat(Clocks(0, 0, 0), |rules|), e, Failure(rules));
    OneFails(rules, k, r, e, e);
    Next(rules, k, r, op);
    n := Step(rules, k, r, op);
  }

  /** Of m requests the first e have failed. */
  lemma {:induction false} AllFail(rules: seq<Rule>, k: nat, m: nat, e: nat) returns (r: Resource)
    requires AreRules(rules) && k < |rules| && e <= m
    ensures Reachable(rules, k, r) && AllFailing(rules, r, e) && Flying(r, e, m)
  {
    if e == 0 {
      r := AllEnter(rules, k, m);
      FreshIsOk(rules);
    } else {
      var before := AllFail(rules, k, m, e - 1);
      r := FailOnce(rules, k, before, e - 1, m);
    }
  }

  /** Everything that can trip is due for a probe: a request passes as the probe of them all. */
  ghost predicate AllProbing(rules: seq<Rule>, r: Resource, w: nat) {
    && |r.breakers| == |rules| && r.clock == w && r.inFlight == {0}
    && forall i :: 0 <= i < |rules| ==>
         IsBreaker(rules[i], r.breakers[i]) && r.breakers[i].state == if CanTrip(rules[i]) then HalfOpen else Closed
  }

  lemma AllPass(bs: seq<Breaker>, at: seq<nat>)
    requires |at| == |bs| && forall i :: 0 <= i < |bs| ==> TryPass(bs[i], at[i]).passes
    ensures CheckAll(bs, at).passes
    ensures forall i :: 0 <= i < |bs| ==> CheckAll(bs, at).breakers[i] == TryPass(bs[i], at[i]).breaker
  {
    CheckAllShape(bs, at);
    assert FirstRefusal(bs, at) == |bs|;
  }

  lemma DueBreakerPasses(r: Rule, b: Breaker, m: nat, w: nat)
    requires Failing(r, b, m) && m >= Need(r) && CountersOk(r, b) && r.retryTimeoutMs <= w
    ensures var a := TryPass(b, w);
      a.passes && a.breaker.slots == b.slots && a.breaker.state == if CanTrip(r) then HalfOpen else Closed
  {
  }

  lemma {:induction false} AllProbe(rules: seq<Rule>, k: nat, r: Resource, w: nat)
    requires AreRules(rules) && k < |rules| && w == LongestTimeout(rules) && r.inFlight == {}
    requires AllFailing(rules, r, NeedOfAll(rules)) && AllCountersOk(rules, r.breakers)
    ensures var op := Enter(Repeat(w, |rules|), 0, true);
      InTime(r, op) && AllProbing(rules, Step(rules, k, r, op), w)
  {
    var at := Repeat(w, |rules|);
    forall i | 0 <= i < |rules|
      ensures var a := TryPass(r.breakers[i], at[i]);
        a.passes && a.breaker.slots == r.breakers[i].slots
        && a.breaker.state == if CanTrip(rules[i]) then HalfOpen else Closed
    {
      assert CountersOk(rules[i], r.breakers[i]) && Failing(rules[i], r.breakers[i], NeedOfAll(rules));
      DueBreakerPasses(rules[i], r.breakers[i], NeedOfAll(rules), w);
    }
    AllPass(r.breakers, at);
  }

  /** Breakers before j set their retry timestamps at w, breaker j and those behind it at 2 * w. */
  function Apart(n: nat, j: nat, w: nat): (done: seq<Clocks>)
    ensures |done| == n
  {
    seq(n, i => if i < j then Clocks(w, w, w) else if i == j then Clocks(w, w, 2 * w) else Clocks(2 * w, 2 * w, 2 * w))
  }

  /** The probe has failed while the thread that reports it stood still in front of breaker j. */
  ghost predicate Reopened(rules: seq<Rule>, r: Resource, j: nat, w: nat) {
    && j < |rules| == |r.breakers| && r.clock <= 2 * w && r.inFlight == {}
    && forall i :: 0 <= i < |rules| ==>
         && IsBreaker(rules[i], r.breakers[i])
         && r.breakers[i].state == (if CanTrip(rules[i]) then Open else Closed)
         && (CanTrip(rules[i]) && i <= j ==>
               r.breakers[i].nextRetry == rules[i].retryTimeoutMs + if i < j then w else 2 * w)
  }

  lemma ProbeOfOneFails(r: Rule, b: Breaker, at: Clocks, c: Completion)
    requires IsBreaker(r, b) && CountersOk(r, b) && b.state == (if CanTrip(r) then HalfOpen else Closed) && IsBad(r, c)
    ensures var n := RecordComplete(r, b, at, c);
      n.state == (if CanTrip(r) then Open else Closed) && (CanTrip(r) ==> n.nextRetry == at.last + r.retryTimeoutMs)
  {
    CompleteKeepsCounters(r, b, at, c);
  }

  lemma AllProbesFail(rules: seq<Rule>, bs: seq<Breaker>, done: seq<Clocks>, c: Completion, i: nat)
    requires AreBreakers(rules, bs) && AllCountersOk(rules, bs) && |done| == |bs| && i < |bs|
    requires bs[i].state == (if CanTrip(rules[i]) then HalfOpen else Closed) && IsBad(rules[i], c)
    ensures var n := CompleteAll(rules, bs, done, c)[i];
      && IsBreaker(rules[i], n) && n.state == (if CanTrip(rules[i]) then Open else Closed)
      && (CanTrip(rules[i]) ==> n.nextRetry == done[i].last + rules[i].retryTimeoutMs)
  {
    assert CountersOk(rules[i], bs[i]);
    ProbeOfOneFails(rules[i], bs[i], done[i], c);
  }

  lemma ApartInTime(r: Resource, n: nat, j: nat, w: nat, id: nat, c: Completion)
    requires r.clock <= w && j < n
    ensures InTime(r, Exit(Apart(n, j, w), id, c)) && EndOf(Exit(Apart(n, j, w), id, c), r.clock) <= 2 * w
  {
  }

  lemma ReopenedBy(rules: seq<Rule>, k: nat, r: Resource, op: Op, j: nat, w: nat)
    requires AreBreakers(rules, r.breakers) && k < |rules| && j < |rules| && r.inFlight == {0}
    requires op.Exit? && op.id == 0 && op.done == Apart(|rules|, j, w) && EndOf(op, r.clock) <= 2 * w
    requires forall i :: 0 <= i < |rules| ==>
      var n := CompleteAll(rules, r.breakers, op.done, op.c)[i];
      && IsBreaker(rules[i], n) && n.state == (if CanTrip(rules[i]) then Open else Closed)
      && (CanTrip(rules[i]) ==> n.nextRetry == op.done[i].last + rules[i].retryTimeoutMs)
    ensures Reopened(rules, Step(rules, k, r, op), j, w)
  {
    assert Step(rules, k, r, op).inFlight == {};
  }

  lemma {:induction false} ProbeFails(rules: seq<Rule>, k: nat, r: Resource, j: nat, w: nat)
    requires AreRules(rules) && k < |rules| && j < |rules| && AllProbing(rules, r, w)
    requires AreBreakers(rules, r.breakers) && AllCountersOk(rules, r.breakers)
    ensures var op := Exit(Apart(|rules|, j, w), 0, Failure(rules));
      InTime(r, op) && Reopened(rules, Step(rules, k, r, op), j, w)
  {
    var done, c := Apart(|rules|, j, w), Failure(rules);
    ApartInTime(r, |rules|, j, w, 0, c);
    forall i | 0 <= i < |rules|
      ensures var n := CompleteAll(rules, r.breakers, done, c)[i];
        && IsBreaker(rules[i], n) && n.state == (if CanTrip(rules[i]) then Open else Closed)
        && (CanTrip(rules[i]) ==> n.nextRetry == done[i].last + rules[i].retryTimeoutMs)
    {
      AllProbesFail(rules, r.breakers, done, c, i);
    }
    ReopenedBy(rules, k, r, Exit(done, 0, c), j, w);
  }

  lemma {:induction false} LateBreakerRefuses(rules: seq<Rule>, k: nat, r: Resource, j: nat, w: nat, id: nat)
    requires AreRules(rules) && k < j < |rules| && w == LongestTimeout(rules) && Reopened(rules, r, j, w)
    requires CanTrip(rules[k]) && CanTrip(rules[j])
    ensures var op := Enter(Repeat(2 * w, |rules|), id, true);
      InTime(r, op) && WastesProbe(r, k, op)
  {
    var op := Enter(Repeat(2 * w, |rules|), id, true);
    forall i | 0 <= i < j ensures TryPass(r.breakers[i], 2 * w).passes {
    }
    assert !TryPass(r.breakers[j], 2 * w).passes;
    CheckAllShape(r.breakers, op.at);
    assert FirstRefusal(r.breakers, op.at) == j;
  }

  lemma ReachableIsOk(rules: seq<Rule>, k: nat, r: Resource)
    requires AreRules(rules) && k < |rules| && Reachable(rules, k, r)
    ensures AreBreakers(rules, r.breakers) && AllCountersOk(rules, r.breakers)
  {
    FreshIsOk(rules);
    var ops :| AllFit(ops, |rules|) && IsRun(rules, k, Fresh(rules), ops) && Run(rules, k, Fresh(rules), ops) == r;
    RunKeepsCounters(rules, k, Fresh(rules), ops);
  }

  lemma {:induction false} RunKeepsCounters(rules: seq<Rule>, k: nat, r: Resource, ops: seq<Op>)
    requires AreBreakers(rules, r.breakers) && k < |r.breakers| && AllFit(ops, |r.breakers|)
    requires AllCountersOk(rules, r.breakers)
    ensures AllCountersOk(rules, Run(rules, k, r, ops).breakers)
    decreases |ops|
  {
    if ops != [] {
      StepKeepsCounters(rules, k, r, ops[0]);
      RunKeepsCounters(rules, k, Step(rules, k, r, ops[0]), ops[1..]);
    }
  }

  lemma ReachProbing(rules: seq<Rule>, k: nat, w: nat) returns (r: Resource)
    requires AreRules(rules) && k < |rules| && w == LongestTimeout(rules)
    ensures Reachable(rules, k, r) && AllProbing(rules, r, w)
  {
    var m := NeedOfAll(rules);
    var a := AllFail(rules, k, m, m);
    assert a.inFlight == {} by {
      assert Flying(a, m, m);
    }
    ReachableIsOk(rules, k, a);
    AllProbe(rules, k, a, w);
    var op := Enter(Repeat(w, |rules|), 0, true);
    Next(rules, k, a, op);
    r := Step(rules, k, a, op);
  }

  lemma ReachReopened(rules: seq<Rule>, k: nat, j: nat, w: nat) returns (r: Resource)
    requires AreRules(rules) && k < j < |rules| && w == LongestTimeout(rules)
    ensures Reachable(rules, k, r) && Reopened(rules, r, j, w)
  {
    var b := ReachProbing(rules, k, w);
    ReachableIsOk(rules, k, b);
    ProbeFails(rules, k, b, j, w);
    var op := Exit(Apart(|rules|, j, w), 0, Failure(rules));
    Next(rules, k, b, op);
    r := Step(rules, k, b, op);
  }

  lemma ReachStuck(rules: seq<Rule>, k: nat, r: Resource, op: Op) returns (n: Resource)
    requires AreRules(rules) && k < |rules| && Reachable(rules, k, r) && AreBreakers(rules, r.breakers)
    requires Fits(op, |rules|) && InTime(r, op) && WastesProbe(r, k, op)
    ensures |n.breakers| == |rules| && Reachable(rules, k, n) && Stuck(n, k)
  {
    GetsStuckIff(rules, k, r, op);
    Next(rules, k, r, op);
    n := Step(rules, k, r, op);
  }

  lemma TwoThatTripGetStuck(rules: seq<Rule>, k: nat, j: nat) returns (r: Resource)
    requires AreRules(rules) && k < j < |rules| && CanTrip(rules[k]) && CanTrip(rules[j])
    ensures |r.breakers| == |rules| && Reachable(rules, k, r) && Stuck(r, k)
  {
    var w := LongestTimeout(rules);
    var c := ReachReopened(rules, k, j, w);
    LateBreakerRefuses(rules, k, c, j, w, 0);
    ReachableIsOk(rules, k, c);
    r := ReachStuck(rules, k, c, Enter(Repeat(2 * w, |rules|), 0, true));
  }

  /** Which rules let a resource get stuck on breaker k in some run from the start: those where k and a breaker behind
      it can trip at all. */
  lemma CanGetStuckIff(rules: seq<Rule>, k: nat)
    requires AreRules(rules) && k < |rules|
    ensures (exists r: Resource :: |r.breakers| == |rules| && Reachable(rules, k, r) && Stuck(r, k))
      <==> CanTrip(rules[k]) && exists j :: k < j < |rules| && CanTrip(rules[j])
  {
    FreshIsOk(rules);
    if CanTrip(rules[k]) && exists j :: k < j < |rules| && CanTrip(rules[j]) {
      var j :| k < j < |rules| && CanTrip(rules[j]);
      var r := TwoThatTripGetStuck(rules, k, j);
    }
    forall r: Resource | |r.breakers| == |rules| && Reachable(rules, k, r) && Stuck(r, k)
      ensures CanTrip(rules[k]) && exists j :: k < j < |rules| && CanTrip(rules[j])
    {
      var ops :| AllFit(ops, |rules|) && IsRun(rules, k, Fresh(rules), ops) && Run(rules, k, Fresh(rules), ops) == r;
      EndsStuckIff(rules, k, Fresh(rules), ops);
      WastingTakesTwo(rules, k, Fresh(rules), ops);
    }
  }

  lemma SecondRefuses(rules: seq<Rule>, r: Resource, op: Op)
    requires |rules| == 2 && AreBreakers(rules, r.breakers) && r.inFlight == {} && Fits(op, 2)
    requires op.Enter? && op.othersPass && op.at == Repeat(rules[0].retryTimeoutMs, 2)
    requires Failing(rules[0], r.breakers[0], 1) && Failing(rules[1], r.breakers[1], 1)
    requires r.breakers[0].state == Open && r.breakers[1].state == Open
    requires rules[0].retryTimeoutMs < rules[1].retryTimeoutMs
    ensures Stuck(Step(rules, 0, r, op), 0)
  {
    CheckAllShape(r.breakers, op.at);
    assert !TryPass(r.breakers[1], op.at[1]).passes && TryPass(r.breakers[0], op.at[0]).passes;
    GetsStuckIff(rules, 0, r, op);
  }

  /** No slow call is needed: two breakers that one failed request opens together, the first due for a probe before the
      second. */
  lemma TwoBreakersGetStuck(first: Rule, second: Rule, ops: seq<Op>)
    requires IsValidRule(first) && IsValidRule(second) && AllFit(ops, 2)
    requires first.strategy == ErrorCount && first.threshold < 1.0 && first.minRequestAmount <= 1
    requires second.strategy == ErrorCount && second.threshold < 1.0 && second.minRequestAmount <= 1
    requires first.retryTimeoutMs < second.retryTimeoutMs
    ensures var rules, start := [first, second], Repeat(Clocks(0, 0, 0), 2);
      var r := Run(rules, 0, Fresh(rules), [Enter(Repeat(0, 2), 1, true), Exit(start, 1, Completion(0, "failed")),
                                            Enter(Repeat(first.retryTimeoutMs, 2), 2, true)]);
      Stuck(r, 0) && Stuck(Run(rules, 0, r, ops), 0)
  {
    var rules := [first, second];
    var failed := Completion(0, "failed");
    var a, b := Enter(Repeat(0, 2), 1, true), Exit(Repeat(Clocks(0, 0, 0), 2), 1, failed);
    var c := Enter(Repeat(first.retryTimeoutMs, 2), 2, true);
    OneEnters(rules, 0, Fresh(rules), 1);
    var r1 := Step(rules, 0, Fresh(rules), a);
    forall i | 0 <= i < 2
      ensures Failing(rules[i], RecordComplete(rules[i], r1.breakers[i], Clocks(0, 0, 0), failed), 1)
    {
      OneMoreFailure(rules[i], r1.breakers[i], 0, failed);
    }
    var r2 := Step(rules, 0, r1, b);
    SecondRefuses(rules, r2, c);
    RunThree(rules, 0, Fresh(rules), a, b, c);
    StuckForever(rules, 0, Step(rules, 0, r2, c), ops);
  }

  lemma RunThree(rules: seq<Rule>, k: nat, r: Resource, a: Op, b: Op, c: Op)
    requires AreBreakers(rules, r.breakers) && k < |r.breakers| && AllFit([a, b, c], |r.breakers|)
    ensures Fits(a, |r.breakers|) && Fits(b, |r.breakers|) && Fits(c, |r.breakers|)
    ensures var r1 := Step(rules, k, r, a);
      var r2 := Step(rules, k, r1, b);
      Run(rules, k, r, [a, b, c]) == Step(rules, k, r2, c)
  {
    assert [a, b, c][0] == a && [a, b, c][1] == b && [a, b, c][2] == c;
    var r1 := Step(rules, k, r, a);
    var r2 := Step(rules, k, r1, b);
    assert [a, b, c][1..] == [b, c] && [b, c][1..] == [c] && [c][1..] == [];
    assert Run(rules, k, r2, [c]) == Run(rules, k, Step(rules, k, r2, c), []);
    assert Run(rules, k, r1, [b, c]) == Run(rules, k, r2, [c]);
  }
}
