/** SphU::Entry and EntryResult::Exit as calls on the program's state. */
module SphU {
  import opened Options
  import SlotChain
  import opened Conservation

  /** DefaultSlotChainImpl::Entry. */
  method ChainEntry(p: SlotChain.Progress, slots: seq<SlotChain.Slot>, count: int) returns (r: SlotChain.Progress)
    ensures r == SlotChain.ChainEntry(p, slots, count)
  {
    r := p;
    var i := 0;
    assert slots[0..] == slots;
    while i < |slots|
      invariant 0 <= i <= |slots|
      invariant SlotChain.ChainEntry(r, slots[i..], count) == SlotChain.ChainEntry(p, slots, count)
    {
      assert slots[i..][0] == slots[i] && slots[i..][1..] == slots[i + 1..];
      r := SlotChain.SlotEntry(r, slots[i], count);
      i := i + 1;
    }
  }

  /** DefaultSlotChainImpl::Exit. */
  method ChainExit(p: SlotChain.Progress, slots: seq<SlotChain.Slot>, count: int) returns (r: SlotChain.Progress)
    ensures r == SlotChain.ChainExit(p, slots, count)
  {
    r := p;
    var i := 0;
    assert slots[0..] == slots;
    while i < |slots|
      invariant 0 <= i <= |slots|
      invariant SlotChain.ChainExit(r, slots[i..], count) == SlotChain.ChainExit(p, slots, count)
    {
      assert slots[i..][0] == slots[i] && slots[i..][1..] == slots[i + 1..];
      r := SlotChain.SlotExit(r, slots[i], count);
      i := i + 1;
    }
  }

  class Sentinel {
    var activated: bool
    var nodes: map<string, SlotChain.Stats>
    var inboundNode: SlotChain.Stats
    var entries: map<nat, SlotChain.Entry>
    ghost var requests: seq<SlotChain.Request>

    ghost function Contents(): SlotChain.World
      reads this
    {
      SlotChain.World(activated, nodes, inboundNode, entries, requests)
    }

    constructor ()
      ensures Contents() == SlotChain.START && Conserved(Contents())
    {
      activated, nodes, inboundNode, entries, requests := true, map[], SlotChain.NO_STATS, map[], [];
      new;
      StartIsConserved();
    }

    /** The reason the entry was blocked for, or None and a held entry. */
    method Entry(id: nat, request: SlotChain.Request, verdicts: seq<SlotChain.TokenResult>)
        returns (blocked: Option<string>)
      modifies this
      ensures Contents() == SlotChain.AfterEnter(old(Contents()), id, request, verdicts)
      ensures old(Conserved(Contents())) && old(IsStep(Contents(), SlotChain.Enter(id, request, verdicts))) ==>
        Conserved(Contents())
      ensures var v := SlotChain.FirstVerdict(verdicts);
        blocked == if old(activated) && v.Blocked? then Some(v.reason) else None
    {
      if Conserved(Contents()) && IsStep(Contents(), SlotChain.Enter(id, request, verdicts)) {
        StepConserves(Contents(), SlotChain.Enter(id, request, verdicts));
      }
      var e := SlotChain.NewEntry(request.resource, request.inbound, !activated);
      if !activated {
        entries := entries[id := e];
        return None;
      }
      var node := if request.resource in nodes then nodes[request.resource] else SlotChain.NO_STATS;
      SlotChain.ChainOutcome(e, node, inboundNode, verdicts, request.count);
      var chain := SlotChain.Chain(verdicts);
      var p := ChainEntry(SlotChain.Progress(SlotChain.Ok, e, node, inboundNode, 0), chain, request.count);
      requests := requests + [request];
      if p.token.Blocked? {
        var q := ChainExit(p, chain, request.count);
        nodes, inboundNode := nodes[request.resource := q.node], q.inbound;
        return Some(p.token.reason);
      }
      nodes, inboundNode, entries := nodes[request.resource := p.node], p.inbound, entries[id := p.entry];
      return None;
    }

    /** EntryResult::Exit: true the first time, for an entry that was let through while activated. */
    method Exit(id: nat, count: int) returns (done: bool)
      modifies this
      ensures Contents() == SlotChain.AfterExit(old(Contents()), id, count)
      ensures old(Conserved(Contents())) ==> Conserved(Contents())
      ensures done == (id in old(entries) && !old(entries)[id].exited)
    {
      if Conserved(Contents()) {
        ExitConserves(Contents(), id, count);
      }
      if id !in entries {
        return false;
      }
      var e := entries[id];
      if e.exited {
        return false;
      }
      var node := if e.resource in nodes then nodes[e.resource] else SlotChain.NO_STATS;
      var p := ChainExit(SlotChain.Progress(SlotChain.Ok, e, node, inboundNode, 0), SlotChain.Chain([]), count);
      nodes, inboundNode := nodes[e.resource := p.node], p.inbound;
      entries := entries[id := e.(exited := true)];
      return true;
    }
  }
}
