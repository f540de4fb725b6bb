/** Conservation through the chain: over every run, thread counters equal the entries in progress and every token asked
    for has passed or been blocked. */
module Conservation {
  import opened Options
  import QpsLimit
  import opened SlotChain

  /** The entries of a resource that have passed and not been exited. */
  ghost function InFlight(entries: map<nat, Entry>, resource: string): set<nat> {
    set id | id in entries && !entries[id].exited && entries[id].resource == resource
  }

  ghost function InFlightInbound(entries: map<nat, Entry>): set<nat> {
    set id | id in entries && !entries[id].exited && entries[id].inbound
  }

  function Asked(requests: seq<Request>, resource: string): int {
    if requests == [] then 0
    else
      var r := requests[|requests| - 1];
      Asked(requests[..|requests| - 1], resource) + if r.resource == resource then r.count else 0
  }

  function AskedInbound(requests: seq<Request>): int {
    if requests == [] then 0
    else
      var r := requests[|requests| - 1];
      AskedInbound(requests[..|requests| - 1]) + if r.inbound then r.count else 0
  }

  ghost predicate Balanced(s: Stats, inFlight: set<nat>, asked: int) {
    s.threads == |inFlight| && s.passed + s.blocked == asked
  }

  /** Every held entry that is not exited has its node and no block error. */
  ghost predicate EntriesLive(entries: map<nat, Entry>) {
    forall id :: id in entries && !entries[id].exited ==> entries[id].hasNode && entries[id].blockError == ""
  }

  ghost predicate Conserved(w: World) {
    && EntriesLive(w.entries)
    && Balanced(w.inboundNode, InFlightInbound(w.entries), AskedInbound(w.requests))
    && forall r :: Balanced(StatsOf(w, r), InFlight(w.entries, r), Asked(w.requests, r))
  }

  lemma AskedLast(requests: seq<Request>, q: Request, resource: string)
    ensures Asked(requests + [q], resource) == Asked(requests, resource) + if q.resource == resource then q.count else 0
    ensures AskedInbound(requests + [q]) == AskedInbound(requests) + if q.inbound then q.count else 0
  {
    var all := requests + [q];
    assert all[..|all| - 1] == requests;
  }

  lemma EntryAdded(entries: map<nat, Entry>, id: nat, e: Entry, resource: string)
    requires id !in entries
    ensures InFlight(entries[id := e], resource)
         == if !e.exited && e.resource == resource then InFlight(entries, resource) + {id}
            else InFlight(entries, resource)
    ensures InFlightInbound(entries[id := e])
         == if !e.exited && e.inbound then InFlightInbound(entries) + {id} else InFlightInbound(entries)
    ensures id !in InFlight(entries, resource) && id !in InFlightInbound(entries)
  {
  }

  lemma EntryExited(entries: map<nat, Entry>, id: nat, e: Entry, resource: string)
    requires id in entries && !entries[id].exited && e == entries[id].(exited := true)
    ensures InFlight(entries[id := e], resource) == InFlight(entries, resource) - {id}
    ensures InFlightInbound(entries[id := e]) == InFlightInbound(entries) - {id}
    ensures id in InFlight(entries, resource) <==> e.resource == resource
    ensures id in InFlightInbound(entries) <==> e.inbound
  {
  }

  // ---------------------------------------------------------------- each operation

  /** The counters of one node after an entry: of a resource, or of all inbound entries. */
  function AfterEntry(s: Stats, applies: bool, v: TokenResult, count: int): Stats {
    if !applies then s
    else if v.Blocked? then
      var b := RecordBlock(s, count);
      if v.reason == "" then RecordComplete(b, "", count) else b
    else RecordPass(s, count)
  }

  /** An activated entry: what it does to the world, whatever the verdicts. */
  lemma EnterOutcome(w: World, id: nat, q: Request, verdicts: seq<TokenResult>)
    requires w.activated
    ensures var n, v := AfterEnter(w, id, q, verdicts), FirstVerdict(verdicts);
      && n.nodes == w.nodes[q.resource := AfterEntry(StatsOf(w, q.resource), true, v, q.count)]
      && n.inboundNode == AfterEntry(w.inboundNode, q.inbound, v, q.count)
      && n.requests == w.requests + [q]
      && (v.Blocked? ==> n.entries == w.entries)
      && (!v.Blocked? ==> n.entries == w.entries[id := Entry(q.resource, q.inbound, false, true, Some(Ok), "", "")])
  {
    var e := NewEntry(q.resource, q.inbound, false);
    ChainOutcome(e, StatsOf(w, q.resource), w.inboundNode, verdicts, q.count);
    var p := ChainEntry(Progress(Ok, e, StatsOf(w, q.resource), w.inboundNode, 0), Chain(verdicts), q.count);
    ChainExitOutcome(p, verdicts, q.count);
  }

  lemma PassBalances(w: World, id: nat, q: Request, verdicts: seq<TokenResult>, r: string)
    requires Conserved(w) && w.activated && id !in w.entries && !FirstVerdict(verdicts).Blocked?
    ensures var n := AfterEnter(w, id, q, verdicts);
      Balanced(StatsOf(n, r), InFlight(n.entries, r), Asked(n.requests, r))
  {
    EnterOutcome(w, id, q, verdicts);
    assert Balanced(StatsOf(w, r), InFlight(w.entries, r), Asked(w.requests, r));
    AskedLast(w.requests, q, r);
    EntryAdded(w.entries, id, AfterEnter(w, id, q, verdicts).entries[id], r);
  }

  lemma PassConserves(w: World, id: nat, q: Request, verdicts: seq<TokenResult>)
    requires Conserved(w) && w.activated && id !in w.entries && !FirstVerdict(verdicts).Blocked?
    ensures Conserved(AfterEnter(w, id, q, verdicts))
  {
    var n := AfterEnter(w, id, q, verdicts);
    EnterOutcome(w, id, q, verdicts);
    AskedLast(w.requests, q, "");
    EntryAdded(w.entries, id, n.entries[id], "");
    forall r ensures Balanced(StatsOf(n, r), InFlight(n.entries, r), Asked(n.requests, r)) {
      PassBalances(w, id, q, verdicts, r);
    }
  }

  /** A blocked entry leaves the balance alone exactly when the reason it was blocked for is not empty: an empty one
      reads as no block error, and the exit on the way out takes back a thread that was never added. */
  lemma BlockConservesIff(w: World, id: nat, q: Request, verdicts: seq<TokenResult>)
    requires Conserved(w) && w.activated && FirstVerdict(verdicts).Blocked?
    ensures Conserved(AfterEnter(w, id, q, verdicts)) <==> FirstVerdict(verdicts).reason != ""
  {
    var n := AfterEnter(w, id, q, verdicts);
    EnterOutcome(w, id, q, verdicts);
    AskedLast(w.requests, q, q.resource);
    assert Balanced(StatsOf(w, q.resource), InFlight(w.entries, q.resource), Asked(w.requests, q.resource));
    if FirstVerdict(verdicts).reason != "" {
      forall r ensures Balanced(StatsOf(n, r), InFlight(n.entries, r), Asked(n.requests, r)) {
        assert Balanced(StatsOf(w, r), InFlight(w.entries, r), Asked(w.requests, r));
        AskedLast(w.requests, q, r);
      }
    } else {
      assert StatsOf(n, q.resource).threads == |InFlight(n.entries, q.resource)| - 1;
      assert !Balanced(StatsOf(n, q.resource), InFlight(n.entries, q.resource), Asked(n.requests, q.resource));
    }
  }

  /** The exit of an entry in flight: what it does to the world. */
  lemma ExitOutcome(w: World, id: nat, count: int)
    requires EntriesLive(w.entries) && id in w.entries && !w.entries[id].exited
    ensures var n, e := AfterExit(w, id, count), w.entries[id];
      && n.nodes == w.nodes[e.resource := RecordComplete(StatsOf(w, e.resource), e.error, count)]
      && n.inboundNode == (if e.inbound then RecordComplete(w.inboundNode, e.error, count) else w.inboundNode)
      && n.entries == w.entries[id := e.(exited := true)] && n.requests == w.requests
  {
    var e := w.entries[id];
    ChainExitOutcome(Progress(Ok, e, StatsOf(w, e.resource), w.inboundNode, 0), [], count);
  }

  lemma ExitBalances(w: World, id: nat, count: int, r: string)
    requires Conserved(w) && id in w.entries && !w.entries[id].exited
    ensures var n := AfterExit(w, id, count);
      Balanced(StatsOf(n, r), InFlight(n.entries, r), Asked(n.requests, r))
  {
    var n := AfterExit(w, id, count);
    ExitOutcome(w, id, count);
    assert Balanced(StatsOf(w, r), InFlight(w.entries, r), Asked(w.requests, r));
    EntryExited(w.entries, id, n.entries[id], r);
  }

  /** An exit of an entry in flight takes back its thread; no other exit changes anything. */
  lemma ExitConserves(w: World, id: nat, count: int)
    requires Conserved(w)
    ensures Conserved(AfterExit(w, id, count))
    ensures id !in w.entries || w.entries[id].exited ==> AfterExit(w, id, count) == w
  {
    if id in w.entries && !w.entries[id].exited {
      var n := AfterExit(w, id, count);
      ExitOutcome(w, id, count);
      EntryExited(w.entries, id, n.entries[id], "");
      forall r ensures Balanced(StatsOf(n, r), InFlight(n.entries, r), Asked(n.requests, r)) {
        ExitBalances(w, id, count, r);
      }
    }
  }

  lemma ExitTwice(w: World, id: nat, count: int, again: int)
    ensures AfterExit(AfterExit(w, id, count), id, again) == AfterExit(w, id, count)
  {
  }

  lemma BypassConserves(w: World, id: nat, q: Request, verdicts: seq<TokenResult>)
    requires Conserved(w) && !w.activated && id !in w.entries
    ensures Conserved(AfterEnter(w, id, q, verdicts))
  {
    var n := AfterEnter(w, id, q, verdicts);
    EntryAdded(w.entries, id, n.entries[id], "");
    forall r ensures Balanced(StatsOf(n, r), InFlight(n.entries, r), Asked(n.requests, r)) {
      assert Balanced(StatsOf(w, r), InFlight(w.entries, r), Asked(w.requests, r));
      EntryAdded(w.entries, id, n.entries[id], r);
    }
  }

  lemma ErrorConserves(w: World, id: nat, error: string)
    requires Conserved(w)
    ensures Conserved(Step(w, SetError(id, error)))
  {
    var n := Step(w, SetError(id, error));
    assert InFlightInbound(n.entries) == InFlightInbound(w.entries);
    forall r ensures Balanced(StatsOf(n, r), InFlight(n.entries, r), Asked(n.requests, r)) {
      assert Balanced(StatsOf(w, r), InFlight(w.entries, r), Asked(w.requests, r));
      assert InFlight(n.entries, r) == InFlight(w.entries, r);
    }
  }

  lemma ToggleConserves(w: World, activated: bool)
    requires Conserved(w)
    ensures Conserved(Step(w, Toggle(activated)))
  {
    var n := Step(w, Toggle(activated));
    forall r ensures Balanced(StatsOf(n, r), InFlight(n.entries, r), Asked(n.requests, r)) {
      assert Balanced(StatsOf(w, r), InFlight(w.entries, r), Asked(w.requests, r));
    }
  }

  // ---------------------------------------------------------------- runs

  /** Entries get new ids, and whoever blocks gives a reason, as every checker of the repository does. */
  predicate IsStep(w: World, op: Op) {
    op.Enter? ==>
      op.id !in w.entries && (FirstVerdict(op.verdicts).Blocked? ==> FirstVerdict(op.verdicts).reason != "")
  }

  predicate IsRun(w: World, ops: seq<Op>)
    decreases |ops|
  {
    ops == [] || (IsStep(w, ops[0]) && IsRun(Step(w, ops[0]), ops[1..]))
  }

  function Run(w: World, ops: seq<Op>): World
    decreases |ops|
  {
    if ops == [] then w else Run(Step(w, ops[0]), ops[1..])
  }

  lemma StepConserves(w: World, op: Op)
    requires Conserved(w) && IsStep(w, op)
    ensures Conserved(Step(w, op))
  {
    match op
    case Enter(id, q, verdicts) =>
      if !w.activated {
        BypassConserves(w, id, q, verdicts);
      } else if FirstVerdict(verdicts).Blocked? {
        BlockConservesIff(w, id, q, verdicts);
      } else {
        PassConserves(w, id, q, verdicts);
      }
    case Exit(id, count) => ExitConserves(w, id, count);
    case SetError(id, error) => ErrorConserves(w, id, error);
    case Toggle(activated) => ToggleConserves(w, activated);
  }

  lemma StartIsConserved()
    ensures Conserved(START)
  {
    assert InFlightInbound(START.entries) == {};
    assert forall r :: InFlight(START.entries, r) == {};
  }

  /** In every run, with repeated exits and the switch thrown at any time, each thread counter is the number of entries
      passed and not exited, and passed and blocked tokens add up to the tokens of the activated entries. */
  lemma {:induction false} RunConserves(w: World, ops: seq<Op>)
    requires Conserved(w) && IsRun(w, ops)
    ensures Conserved(Run(w, ops))
    decreases |ops|
  {
    if ops != [] {
      StepConserves(w, ops[0]);
      RunConserves(Step(w, ops[0]), ops[1..]);
    }
  }

  // ---------------------------------------------------------------- tokens by outcome

  /** The node of a resource, or the one of all inbound entries. */
  function NodeOf(w: World, node: Option<string>): Stats {
    match node
    case Some(resource) => StatsOf(w, resource)
    case None => w.inboundNode
  }

  predicate Concerns(node: Option<string>, resource: string, inbound: bool) {
    match node
    case Some(r) => r == resource
    case None => inbound
  }

  datatype Tally = Tally(passed: int, blocked: int, completed: int, exceptions: int)

  const NOTHING := Tally(0, 0, 0, 0)

  function TallyOfEntry(v: TokenResult, count: int): Tally {
    if v.Blocked? then Tally(0, count, 0, 0) else Tally(count, 0, 0, 0)
  }

  function TallyOfExit(error: string, count: int): Tally {
    Tally(0, 0, count, if |error| > 0 then count else 0)
  }

  /** What one operation should count: an activated entry its tokens once, as passed or as blocked; the first exit of an
      entry its tokens as completed, and as exceptions too when the entry has an error. */
  function TallyOf(w: World, op: Op, node: Option<string>): Tally {
    match op
    case Enter(_, q, verdicts) =>
      if w.activated && Concerns(node, q.resource, q.inbound) then TallyOfEntry(FirstVerdict(verdicts), q.count)
      else NOTHING
    case Exit(id, count) =>
      if id in w.entries && !w.entries[id].exited && Concerns(node, w.entries[id].resource, w.entries[id].inbound)
      then TallyOfExit(w.entries[id].error, count) else NOTHING
    case SetError(_, _) => NOTHING
    case Toggle(_) => NOTHING
  }

  function Plus(a: Tally, b: Tally): Tally {
    Tally(a.passed + b.passed, a.blocked + b.blocked, a.completed + b.completed, a.exceptions + b.exceptions)
  }

  function TallyOfAll(w: World, ops: seq<Op>, node: Option<string>): Tally
    decreases |ops|
  {
    if ops == [] then NOTHING
    else Plus(TallyOf(w, ops[0], node), TallyOfAll(Step(w, ops[0]), ops[1..], node))
  }

  function TallyIn(s: Stats): Tally {
    Tally(s.passed, s.blocked, s.completed, s.exceptions)
  }

  lemma EntryTallies(s: Stats, v: TokenResult, count: int)
    requires v.Blocked? ==> v.reason != ""
    ensures TallyIn(AfterEntry(s, true, v, count)) == Plus(TallyIn(s), TallyOfEntry(v, count))
  {
  }

  lemma CompleteTallies(s: Stats, error: string, count: int)
    ensures TallyIn(RecordComplete(s, error, count)) == Plus(TallyIn(s), TallyOfExit(error, count))
  {
    assert error == "" <==> |error| == 0;
  }

  lemma NodeEntered(w: World, n: World, q: Request, v: TokenResult, node: Option<string>)
    requires n.nodes == w.nodes[q.resource := AfterEntry(StatsOf(w, q.resource), true, v, q.count)]
    requires n.inboundNode == AfterEntry(w.inboundNode, q.inbound, v, q.count)
    ensures NodeOf(n, node)
         == if Concerns(node, q.resource, q.inbound) then AfterEntry(NodeOf(w, node), true, v, q.count)
            else NodeOf(w, node)
  {
  }

  lemma NodeExited(w: World, n: World, e: Entry, count: int, node: Option<string>)
    requires n.nodes == w.nodes[e.resource := RecordComplete(StatsOf(w, e.resource), e.error, count)]
    requires n.inboundNode == if e.inbound then RecordComplete(w.inboundNode, e.error, count) else w.inboundNode
    ensures NodeOf(n, node)
         == if Concerns(node, e.resource, e.inbound) then RecordComplete(NodeOf(w, node), e.error, count)
            else NodeOf(w, node)
  {
  }

  lemma PlusAgain(a: Tally, b: Tally, c: Tally)
    ensures Plus(Plus(a, b), c) == Plus(a, Plus(b, c))
  {
  }

  lemma PlusNothing(a: Tally)
    ensures Plus(a, NOTHING) == a
  {
  }

  /** What an operation does to a node, and what it should count there. */
  lemma NodeStep(w: World, op: Op, node: Option<string>, applies: bool, s: Stats, t: Tally)
    requires TallyIn(s) == Plus(TallyIn(NodeOf(w, node)), t)
    requires NodeOf(Step(w, op), node) == if applies then s else NodeOf(w, node)
    requires TallyOf(w, op, node) == if applies then t else NOTHING
    ensures TallyIn(NodeOf(Step(w, op), node)) == Plus(TallyIn(NodeOf(w, node)), TallyOf(w, op, node))
  {
    PlusNothing(TallyIn(NodeOf(w, node)));
  }

  lemma EnterTallies(w: World, op: Op, node: Option<string>)
    requires op.Enter? && (FirstVerdict(op.verdicts).Blocked? ==> FirstVerdict(op.verdicts).reason != "")
    ensures TallyIn(NodeOf(Step(w, op), node)) == Plus(TallyIn(NodeOf(w, node)), TallyOf(w, op, node))
  {
    var q, v := op.request, FirstVerdict(op.verdicts);
    if w.activated {
      EnterOutcome(w, op.id, q, op.verdicts);
      NodeEntered(w, Step(w, op), q, v, node);
    }
    EntryTallies(NodeOf(w, node), v, q.count);
    NodeStep(w, op, node, w.activated && Concerns(node, q.resource, q.inbound),
             AfterEntry(NodeOf(w, node), true, v, q.count), TallyOfEntry(v, q.count));
  }

  lemma ExitTallies(w: World, op: Op, node: Option<string>)
    requires op.Exit? && EntriesLive(w.entries)
    ensures TallyIn(NodeOf(Step(w, op), node)) == Plus(TallyIn(NodeOf(w, node)), TallyOf(w, op, node))
  {
    if op.id in w.entries && !w.entries[op.id].exited {
      var e := w.entries[op.id];
      ExitOutcome(w, op.id, op.count);
      NodeExited(w, Step(w, op), e, op.count, node);
      CompleteTallies(NodeOf(w, node), e.error, op.count);
      NodeStep(w, op, node, Concerns(node, e.resource, e.inbound), RecordComplete(NodeOf(w, node), e.error, op.count),
               TallyOfExit(e.error, op.count));
    } else {
      PlusNothing(TallyIn(NodeOf(w, node)));
    }
  }

  lemma OtherCountsNothing(w: World, op: Op, node: Option<string>)
    requires op.SetError? || op.Toggle?
    ensures NodeOf(Step(w, op), node) == NodeOf(w, node) && TallyOf(w, op, node) == NOTHING
  {
  }

  lemma OtherTallies(w: World, node: Option<string>, n: World, t: Tally)
    requires NodeOf(n, node) == NodeOf(w, node) && t == NOTHING
    ensures TallyIn(NodeOf(n, node)) == Plus(TallyIn(NodeOf(w, node)), t)
  {
  }

  lemma StepTallies(w: World, op: Op, node: Option<string>)
    requires EntriesLive(w.entries) && IsStep(w, op)
    ensures TallyIn(NodeOf(Step(w, op), node)) == Plus(TallyIn(NodeOf(w, node)), TallyOf(w, op, node))
  {
    if op.Enter? {
      EnterTallies(w, op, node);
    } else if op.Exit? {
      ExitTallies(w, op, node);
    } else {
      OtherCountsNothing(w, op, node);
      OtherTallies(w, node, Step(w, op), TallyOf(w, op, node));
    }
  }

  lemma {:induction false} RunTallies(w: World, ops: seq<Op>, node: Option<string>)
    requires Conserved(w) && IsRun(w, ops)
    ensures TallyIn(NodeOf(Run(w, ops), node)) == Plus(TallyIn(NodeOf(w, node)), TallyOfAll(w, ops, node))
    decreases |ops|
  {
    if ops == [] {
      PlusNothing(TallyIn(NodeOf(w, node)));
    } else {
      StepTallies(w, ops[0], node);
      StepConserves(w, ops[0]);
      RunTallies(Step(w, ops[0]), ops[1..], node);
      PlusAgain(TallyIn(NodeOf(w, node)), TallyOf(w, ops[0], node), TallyOfAll(Step(w, ops[0]), ops[1..], node));
    }
  }

  /** Every run counts every token under its own outcome, for each resource and for all inbound entries together. */
  lemma TokensByOutcome(ops: seq<Op>, node: Option<string>)
    requires IsRun(START, ops)
    ensures TallyIn(NodeOf(Run(START, ops), node)) == TallyOfAll(START, ops, node)
  {
    StartIsConserved();
    RunTallies(START, ops, node);
    assert TallyIn(NodeOf(START, node)) == NOTHING;
  }

  // ---------------------------------------------------------------- a thread-count rule

  /** The default checker on the thread counter. */
  function ThreadVerdict(w: World, resource: string, count: int, threshold: real): TokenResult {
    if QpsLimit.Admits(StatsOf(w, resource).threads as real, count, threshold) then Ok else Blocked("FlowException")
  }

  /** In every run the rule refuses a request if and only if the entries in progress and its own count are more than the
      threshold. */
  lemma ThreadRuleRefusesIff(ops: seq<Op>, resource: string, count: int, threshold: real)
    requires IsRun(START, ops)
    ensures var w := Run(START, ops);
      ThreadVerdict(w, resource, count, threshold)
      == if (|InFlight(w.entries, resource)| + count) as real > threshold then Blocked("FlowException") else Ok
  {
    var w := Run(START, ops);
    StartIsConserved();
    RunConserves(START, ops);
    assert Balanced(StatsOf(w, resource), InFlight(w.entries, resource), Asked(w.requests, resource));
  }

  /** A thread-count rule on a resource: whoever passes has been admitted against the node's thread counter. */
  predicate RuleInForce(w: World, op: Op, resource: string, threshold: real) {
    op.Enter? && w.activated && op.request.resource == resource && !FirstVerdict(op.verdicts).Blocked? ==>
      op.request.count >= 1 && ThreadVerdict(w, resource, op.request.count, threshold) == Ok
  }

  predicate RuleInForceThroughout(w: World, ops: seq<Op>, resource: string, threshold: real)
    decreases |ops|
  {
    ops == [] || (RuleInForce(w, ops[0], resource, threshold)
                  && RuleInForceThroughout(Step(w, ops[0]), ops[1..], resource, threshold))
  }

  lemma StepWithinRule(w: World, op: Op, resource: string, threshold: real)
    requires Conserved(w) && IsStep(w, op) && RuleInForce(w, op, resource, threshold)
    requires StatsOf(w, resource).threads as real <= threshold
    ensures StatsOf(Step(w, op), resource).threads as real <= threshold
  {
    match op
    case Enter(id, q, verdicts) =>
      if w.activated {
        EnterOutcome(w, id, q, verdicts);
      }
    case Exit(id, count) =>
      if id in w.entries && !w.entries[id].exited {
        var e := w.entries[id];
        ChainExitOutcome(Progress(Ok, e, StatsOf(w, e.resource), w.inboundNode, 0), [], count);
      }
    case SetError(id, error) =>
    case Toggle(activated) =>
  }

  /** With a thread-count rule in force from the start, no more requests of the resource are in progress than it
      says. */
  lemma {:induction false} ThreadsWithinRule(w: World, ops: seq<Op>, resource: string, threshold: real)
    requires Conserved(w) && IsRun(w, ops) && RuleInForceThroughout(w, ops, resource, threshold)
    requires StatsOf(w, resource).threads as real <= threshold
    ensures StatsOf(Run(w, ops), resource).threads as real <= threshold
    ensures |InFlight(Run(w, ops).entries, resource)| as real <= threshold
    decreases |ops|
  {
    if ops == [] {
      assert Balanced(StatsOf(w, resource), InFlight(w.entries, resource), Asked(w.requests, resource));
    } else {
      StepConserves(w, ops[0]);
      StepWithinRule(w, ops[0], resource, threshold);
      ThreadsWithinRule(Step(w, ops[0]), ops[1..], resource, threshold);
    }
  }
}
