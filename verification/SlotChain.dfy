/** Entries and exits through the default slot chain, and what the node counters add up to. */
module SlotChain {
  import opened Options

  datatype TokenResult = Ok | Blocked(reason: string) | ShouldWait(ms: int)

  /** The slots of the chain. What a rule checker says when asked is a parameter. */
  datatype Slot =
    | ResourceNodeBuilder
    | RuleChecker(verdict: TokenResult)
    | Statistic
    | CompleteStat
    | LogSlot

  /** Counters of a node: requests in progress, and tokens by outcome. */
  datatype Stats = Stats(threads: int, passed: int, blocked: int, completed: int, exceptions: int)

  const NO_STATS := Stats(0, 0, 0, 0, 0)

  datatype Entry = Entry(
    resource: string,
    inbound: bool,
    exited: bool,
    hasNode: bool,
    last: Option<TokenResult>,
    blockError: string,
    error: string)

  function NewEntry(resource: string, inbound: bool, exited: bool): Entry {
    Entry(resource, inbound, exited, false, None, "", "")
  }

  /** GetGlobalSlotChain, with the checkers' verdicts. */
  function Chain(verdicts: seq<TokenResult>): seq<Slot> {
    [ResourceNodeBuilder] + Checkers(verdicts) + [Statistic, CompleteStat, LogSlot]
  }

  function Checkers(verdicts: seq<TokenResult>): seq<Slot> {
    if verdicts == [] then [] else [RuleChecker(verdicts[0])] + Checkers(verdicts[1..])
  }

  // ---------------------------------------------------------------- the slots

  function RecordPass(s: Stats, count: int): Stats {
    s.(threads := s.threads + 1, passed := s.passed + count)
  }

  function RecordBlock(s: Stats, count: int): Stats {
    s.(blocked := s.blocked + count)
  }

  function RecordComplete(s: Stats, error: string, count: int): Stats {
    s.(threads := s.threads - 1, completed := s.completed + count,
       exceptions := if error != "" then s.exceptions + count else s.exceptions)
  }

  /** An entry on its way through the chain, with the resource's node and the node of all inbound entries, and how many
      rule checkers have been asked. */
  datatype Progress = Progress(token: TokenResult, entry: Entry, node: Stats, inbound: Stats, asked: nat)

  /** StatsSlot::IsContinue leaves the token in the context; RuleCheckerSlot::IsContinue wants it to be Ok. */
  function SlotEntry(p: Progress, slot: Slot, count: int): Progress {
    match slot
    case ResourceNodeBuilder => p.(token := Ok, entry := p.entry.(last := Some(p.token), hasNode := true))
    case RuleChecker(verdict) => if p.token == Ok then p.(token := verdict, asked := p.asked + 1) else p
    case Statistic =>
      var e := p.entry.(last := Some(p.token));
      if p.token.Blocked? then
        p.(entry := e.(blockError := p.token.reason), node := RecordBlock(p.node, count),
           inbound := if e.inbound then RecordBlock(p.inbound, count) else p.inbound)
      else
        p.(token := Ok, entry := e, node := RecordPass(p.node, count),
           inbound := if e.inbound then RecordPass(p.inbound, count) else p.inbound)
    case CompleteStat => p.(entry := p.entry.(last := Some(p.token)))
    case LogSlot => p.(entry := p.entry.(last := Some(p.token)))
  }

  function ChainEntry(p: Progress, slots: seq<Slot>, count: int): Progress
    decreases |slots|
  {
    if slots == [] then p else ChainEntry(SlotEntry(p, slots[0], count), slots[1..], count)
  }

  /** Only the statistic slot does something to the counters on exit. */
  function SlotExit(p: Progress, slot: Slot, count: int): Progress {
    if slot != Statistic || !p.entry.hasNode || p.entry.blockError != "" then p
    else
      p.(node := RecordComplete(p.node, p.entry.error, count),
         inbound := if p.entry.inbound then RecordComplete(p.inbound, p.entry.error, count) else p.inbound)
  }

  function ChainExit(p: Progress, slots: seq<Slot>, count: int): Progress
    decreases |slots|
  {
    if slots == [] then p else ChainExit(SlotExit(p, slots[0], count), slots[1..], count)
  }

  // ---------------------------------------------------------------- the outcome of one chain

  /** The verdict of the first checker that does not let the entry continue. */
  function FirstVerdict(verdicts: seq<TokenResult>): TokenResult {
    if verdicts == [] then Ok else if verdicts[0] != Ok then verdicts[0] else FirstVerdict(verdicts[1..])
  }

  /** The checkers up to and with the first that does not let the entry continue; those behind it are not asked. */
  function AskedCheckers(verdicts: seq<TokenResult>): (n: nat)
    ensures n <= |verdicts| && (forall i :: 0 <= i < n - 1 ==> verdicts[i] == Ok)
    ensures n < |verdicts| ==> n > 0 && verdicts[n - 1] != Ok
  {
    if verdicts == [] then 0 else if verdicts[0] != Ok then 1 else 1 + AskedCheckers(verdicts[1..])
  }

  /** It is the verdict of the last checker asked, and Ok when all are. */
  lemma {:induction false} FirstVerdictIsLastAsked(verdicts: seq<TokenResult>)
    ensures var n := AskedCheckers(verdicts);
      if forall i :: 0 <= i < |verdicts| ==> verdicts[i] == Ok then FirstVerdict(verdicts) == Ok && n == |verdicts|
      else n > 0 && verdicts[n - 1] == FirstVerdict(verdicts) != Ok
  {
    if verdicts != [] {
      FirstVerdictIsLastAsked(verdicts[1..]);
      assert forall i :: 0 < i < |verdicts| ==> verdicts[i] == verdicts[1..][i - 1];
    }
  }

  lemma {:induction false} ChainEntryAppend(p: Progress, a: seq<Slot>, b: seq<Slot>, count: int)
    ensures ChainEntry(p, a + b, count) == ChainEntry(ChainEntry(p, a, count), b, count)
    decreases |a|
  {
    if a == [] {
      assert a + b == b;
    } else {
      assert (a + b)[0] == a[0] && (a + b)[1..] == a[1..] + b;
      ChainEntryAppend(SlotEntry(p, a[0], count), a[1..], b, count);
    }
  }

  lemma {:induction false} CheckersDecide(p: Progress, verdicts: seq<TokenResult>, count: int)
    ensures ChainEntry(p, Checkers(verdicts), count)
         == if p.token == Ok then p.(token := FirstVerdict(verdicts), asked := p.asked + AskedCheckers(verdicts)) else p
    decreases |verdicts|
  {
    if verdicts != [] {
      var c := RuleChecker(verdicts[0]);
      assert ([c] + Checkers(verdicts[1..]))[1..] == Checkers(verdicts[1..]);
      CheckersDecide(SlotEntry(p, c, count), verdicts[1..], count);
    }
  }

  lemma OneSlot(p: Progress, slot: Slot, count: int)
    ensures ChainEntry(p, [slot], count) == SlotEntry(p, slot, count)
  {
    assert [slot][1..] == [];
    assert ChainEntry(SlotEntry(p, slot, count), [], count) == SlotEntry(p, slot, count);
  }

  lemma StatsSlots(p: Progress, count: int)
    ensures var r := ChainEntry(p, [Statistic, CompleteStat, LogSlot], count);
      var s := SlotEntry(p, Statistic, count);
      r == s.(entry := s.entry.(last := Some(s.token)))
  {
    ChainEntryAppend(p, [Statistic], [CompleteStat] + [LogSlot], count);
    assert [Statistic] + ([CompleteStat] + [LogSlot]) == [Statistic, CompleteStat, LogSlot];
    OneSlot(p, Statistic, count);
    var s := SlotEntry(p, Statistic, count);
    ChainEntryAppend(s, [CompleteStat], [LogSlot], count);
    OneSlot(s, CompleteStat, count);
    OneSlot(SlotEntry(s, CompleteStat, count), LogSlot, count);
  }

  /** The chain answers with the first blocker's result, or Ok; exactly one outcome is recorded. */
  lemma ChainOutcome(entry: Entry, node: Stats, inbound: Stats, verdicts: seq<TokenResult>, count: int)
    ensures var r := ChainEntry(Progress(Ok, entry, node, inbound, 0), Chain(verdicts), count);
      var v := FirstVerdict(verdicts);
      && r.token == (if v.Blocked? then v else Ok) && r.asked == AskedCheckers(verdicts)
      && r.entry == entry.(last := Some(r.token), hasNode := true,
                           blockError := if v.Blocked? then v.reason else entry.blockError)
      && r.node == (if v.Blocked? then RecordBlock(node, count) else RecordPass(node, count))
      && r.inbound == (if !entry.inbound then inbound
                       else if v.Blocked? then RecordBlock(inbound, count) else RecordPass(inbound, count))
  {
    var p := Progress(Ok, entry, node, inbound, 0);
    var checkers, stats := Checkers(verdicts), [Statistic, CompleteStat, LogSlot];
    ChainEntryAppend(p, [ResourceNodeBuilder] + checkers, stats, count);
    ChainEntryAppend(p, [ResourceNodeBuilder], checkers, count);
    OneSlot(p, ResourceNodeBuilder, count);
    var q := SlotEntry(p, ResourceNodeBuilder, count);
    CheckersDecide(q, verdicts, count);
    StatsSlots(q.(token := FirstVerdict(verdicts), asked := AskedCheckers(verdicts)), count);
  }

  lemma {:induction false} ChainExitAppend(p: Progress, a: seq<Slot>, b: seq<Slot>, count: int)
    ensures ChainExit(p, a + b, count) == ChainExit(ChainExit(p, a, count), b, count)
    decreases |a|
  {
    if a == [] {
      assert a + b == b;
    } else {
      assert (a + b)[0] == a[0] && (a + b)[1..] == a[1..] + b;
      ChainExitAppend(SlotExit(p, a[0], count), a[1..], b, count);
    }
  }

  lemma {:induction false} NoStatisticNoExit(p: Progress, slots: seq<Slot>, count: int)
    requires Statistic !in slots
    ensures ChainExit(p, slots, count) == p
    decreases |slots|
  {
    if slots != [] {
      assert slots[0] in slots;
      NoStatisticNoExit(p, slots[1..], count);
    }
  }

  lemma {:induction false} CheckersAreCheckers(verdicts: seq<TokenResult>)
    ensures Statistic !in Checkers(verdicts)
  {
    if verdicts != [] {
      CheckersAreCheckers(verdicts[1..]);
    }
  }

  /** An exit through the chain is one exit of the statistic slot. */
  lemma ChainExitOutcome(p: Progress, verdicts: seq<TokenResult>, count: int)
    ensures ChainExit(p, Chain(verdicts), count) == SlotExit(p, Statistic, count)
  {
    var front, rest := [ResourceNodeBuilder] + Checkers(verdicts), [CompleteStat, LogSlot];
    CheckersAreCheckers(verdicts);
    ChainExitAppend(p, front, [Statistic] + rest, count);
    assert front + ([Statistic] + rest) == Chain(verdicts);
    NoStatisticNoExit(p, front, count);
    assert ([Statistic] + rest)[1..] == rest;
    NoStatisticNoExit(SlotExit(p, Statistic, count), rest, count);
  }

  // ---------------------------------------------------------------- the program around it

  /** One activated call of SphU::Entry. */
  datatype Request = Request(resource: string, inbound: bool, count: int)

  /** `entries` are those an EntryResult still holds; `requests` is what has been asked for while activated. */
  datatype World = World(
    activated: bool,
    nodes: map<string, Stats>,
    inboundNode: Stats,
    entries: map<nat, Entry>,
    requests: seq<Request>)

  function StatsOf(w: World, resource: string): Stats {
    if resource in w.nodes then w.nodes[resource] else NO_STATS
  }

  datatype Op =
    | Enter(id: nat, request: Request, verdicts: seq<TokenResult>)
    | Exit(id: nat, count: int)
    | SetError(id: nat, error: string)
    | Toggle(activated: bool)

  function AfterEnter(w: World, id: nat, r: Request, verdicts: seq<TokenResult>): World {
    var e := NewEntry(r.resource, r.inbound, !w.activated);
    if !w.activated then w.(entries := w.entries[id := e])
    else
      var p := ChainEntry(Progress(Ok, e, StatsOf(w, r.resource), w.inboundNode, 0), Chain(verdicts), r.count);
      var q := if p.token.Blocked? then ChainExit(p, Chain(verdicts), r.count) else p;
      w.(nodes := w.nodes[r.resource := q.node], inboundNode := q.inbound, requests := w.requests + [r],
         entries := if p.token.Blocked? then w.entries else w.entries[id := q.entry])
  }

  /** EntryResult::Exit; the chain on exit is the one on entry. */
  function AfterExit(w: World, id: nat, count: int): World {
    if id !in w.entries || w.entries[id].exited then w
    else
      var e := w.entries[id];
      var p := ChainExit(Progress(Ok, e, StatsOf(w, e.resource), w.inboundNode, 0), Chain([]), count);
      w.(nodes := w.nodes[e.resource := p.node], inboundNode := p.inbound,
         entries := w.entries[id := e.(exited := true)])
  }

  function Step(w: World, op: Op): World {
    match op
    case Enter(id, r, verdicts) => AfterEnter(w, id, r, verdicts)
    case Exit(id, count) => AfterExit(w, id, count)
    case SetError(id, error) =>
      if id in w.entries then w.(entries := w.entries[id := w.entries[id].(error := error)]) else w
    case Toggle(activated) => w.(activated := activated)
  }

  const START := World(true, map[], NO_STATS, map[], [])
}
