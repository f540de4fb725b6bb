/** A call of one thread that nobody else gets in the way of does to the shared breaker what the whole call does. */
module BreakerRacesAlone {
  import opened BreakerSpec
  import opened BreakerRaces

  /** One call: thread i starts it with m and makes n more accesses. */
  function Whole(m: Move, i: nat, choice: bool, n: nat): seq<Move> {
    [m] + seq(n, _ => Go(i, choice))
  }

  lemma Next(s: Shared, i: nat, choice: bool, n: nat, retryTimeoutMs: int)
    requires i < |s.threads| && s.threads[i] != Idle && n > 0
    requires CanRun(Advance(s, i, choice, retryTimeoutMs), seq(n - 1, _ => Go(i, choice)), retryTimeoutMs)
    ensures CanRun(s, seq(n, _ => Go(i, choice)), retryTimeoutMs)
    ensures Run(s, seq(n, _ => Go(i, choice)), retryTimeoutMs)
         == Run(Advance(s, i, choice, retryTimeoutMs), seq(n - 1, _ => Go(i, choice)), retryTimeoutMs)
  {
    assert seq(n, _ => Go(i, choice))[1..] == seq(n - 1, _ => Go(i, choice));
  }

  /** n accesses of thread i, one after the other, none of them idle. */
  ghost predicate Leads(s: Shared, i: nat, choice: bool, n: nat, retryTimeoutMs: int, end: Shared) {
    CanRun(s, seq(n, _ => Go(i, choice)), retryTimeoutMs) && Run(s, seq(n, _ => Go(i, choice)), retryTimeoutMs) == end
  }

  lemma LeadsHere(s: Shared, i: nat, choice: bool, retryTimeoutMs: int)
    ensures Leads(s, i, choice, 0, retryTimeoutMs, s)
  {
  }

  lemma LeadsOn(s: Shared, i: nat, choice: bool, n: nat, retryTimeoutMs: int, end: Shared)
    requires i < |s.threads| && s.threads[i] != Idle
    requires Leads(Advance(s, i, choice, retryTimeoutMs), i, choice, n, retryTimeoutMs, end)
    ensures Leads(s, i, choice, n + 1, retryTimeoutMs, end)
  {
    Next(s, i, choice, n + 1, retryTimeoutMs);
  }

  lemma Starts(s: Shared, m: Move, i: nat, choice: bool, n: nat, retryTimeoutMs: int, end: Shared)
    requires CanMove(s, m) && Leads(Step(s, m, retryTimeoutMs), i, choice, n, retryTimeoutMs, end)
    ensures CanRun(s, Whole(m, i, choice, n), retryTimeoutMs)
    ensures Run(s, Whole(m, i, choice, n), retryTimeoutMs) == end
  {
    assert Whole(m, i, choice, n)[1..] == seq(n, _ => Go(i, choice));
  }

  /** The state and the timestamp a call leaves, as one value. */
  function Left(s: Shared): (State, int) {
    (s.state, s.nextRetry.value)
  }

  /** TryPass: the result it is about to return and the state it leaves are those of the whole call, whichever of clock
      and timestamp is read first. */
  lemma TryAlone(s: Shared, i: nat, choice: bool, retryTimeoutMs: int) returns (n: nat, end: Shared)
    requires i < |s.threads| && s.threads[i] == Idle
    ensures CanRun(s, Whole(Try(i), i, choice, n), retryTimeoutMs)
    ensures end == Run(s, Whole(Try(i), i, choice, n), retryTimeoutMs)
    ensures var a := TryPass(Breaker(s.state, s.nextRetry.value, []), s.clock);
      |end.threads| == |s.threads| && end.threads[i] == AtReturn(s.state, a.passes)
      && Left(end) == (a.breaker.state, a.breaker.nextRetry)
  {
    var s1 := Step(s, Try(i), retryTimeoutMs);
    if s.state != Open {
      n, end := 0, s1;
      LeadsHere(s1, i, choice, retryTimeoutMs);
    } else {
      var s2 := Advance(s1, i, choice, retryTimeoutMs);
      var s3 := Advance(s2, i, choice, retryTimeoutMs);
      if s.clock >= s.nextRetry.value {
        n, end := 3, Advance(s3, i, choice, retryTimeoutMs);
        LeadsHere(end, i, choice, retryTimeoutMs);
        LeadsOn(s3, i, choice, 0, retryTimeoutMs, end);
      } else {
        n, end := 2, s3;
        LeadsHere(end, i, choice, retryTimeoutMs);
      }
      LeadsOn(s2, i, choice, n - 2, retryTimeoutMs, end);
      LeadsOn(s1, i, choice, n - 1, retryTimeoutMs, end);
    }
    Starts(s, Try(i), i, choice, n, retryTimeoutMs, end);
  }

  /** From the swap to Open on: the clock is read and the timestamp stored. */
  lemma OpensAlone(s: Shared, i: nat, choice: bool, retryTimeoutMs: int) returns (end: Shared)
    requires i < |s.threads| && s.threads[i] == AtStampClock && s.state == Open
    ensures Leads(s, i, choice, 2, retryTimeoutMs, end)
    ensures |end.threads| == |s.threads| && end.threads[i] == Idle && Left(end) == (Open, s.clock + retryTimeoutMs)
  {
    var s1 := Advance(s, i, choice, retryTimeoutMs);
    end := Advance(s1, i, choice, retryTimeoutMs);
    LeadsHere(end, i, choice, retryTimeoutMs);
    LeadsOn(s1, i, choice, 0, retryTimeoutMs, end);
    LeadsOn(s, i, choice, 1, retryTimeoutMs, end);
  }

  lemma ProbeEndsAlone(s: Shared, i: nat, bad: bool, choice: bool, retryTimeoutMs: int) returns (n: nat, end: Shared)
    requires i < |s.threads| && s.threads[i] == AtSecondLoad(bad) && s.state == HalfOpen
    ensures Leads(s, i, choice, n, retryTimeoutMs, end) && |end.threads| == |s.threads| && end.threads[i] == Idle
    ensures Left(end) == if bad then (Open, s.clock + retryTimeoutMs) else (Closed, s.nextRetry.value)
  {
    var s1 := Advance(s, i, choice, retryTimeoutMs);
    var s2 := Advance(s1, i, choice, retryTimeoutMs);
    if bad {
      n := 4;
      end := OpensAlone(s2, i, choice, retryTimeoutMs);
    } else {
      n, end := 3, Advance(s2, i, choice, retryTimeoutMs);
      LeadsHere(end, i, choice, retryTimeoutMs);
      LeadsOn(s2, i, choice, 0, retryTimeoutMs, end);
    }
    LeadsOn(s1, i, choice, n - 2, retryTimeoutMs, end);
    LeadsOn(s, i, choice, n - 1, retryTimeoutMs, end);
  }

  lemma ClosedEndsAlone(s: Shared, i: nat, bad: bool, trips: bool, retryTimeoutMs: int) returns (n: nat, end: Shared)
    requires i < |s.threads| && s.threads[i] == AtSecondLoad(bad) && s.state == Closed
    ensures Leads(s, i, trips, n, retryTimeoutMs, end) && |end.threads| == |s.threads| && end.threads[i] == Idle
    ensures Left(end) == if trips then (Open, s.clock + retryTimeoutMs) else (Closed, s.nextRetry.value)
  {
    var s1 := Advance(s, i, trips, retryTimeoutMs);
    var s2 := Advance(s1, i, trips, retryTimeoutMs);
    if trips {
      var s3 := Advance(s2, i, trips, retryTimeoutMs);
      var s4 := Advance(s3, i, trips, retryTimeoutMs);
      n := 6;
      end := OpensAlone(s4, i, trips, retryTimeoutMs);
      LeadsOn(s3, i, trips, 2, retryTimeoutMs, end);
      LeadsOn(s2, i, trips, 3, retryTimeoutMs, end);
    } else {
      n, end := 2, s2;
      LeadsHere(end, i, trips, retryTimeoutMs);
    }
    LeadsOn(s1, i, trips, n - 2, retryTimeoutMs, end);
    LeadsOn(s, i, trips, n - 1, retryTimeoutMs, end);
  }

  /** RecordComplete on a breaker whose counters trip it, or not: the state and the timestamp it leaves are those of the
      whole call at the same time. */
  lemma CompleteAlone(s: Shared, i: nat, r: Rule, b: Breaker, c: Completion) returns (moves: seq<Move>)
    requires i < |s.threads| && s.threads[i] == Idle && s.clock >= 0
    requires IsBreaker(r, b) && b.state == s.state && b.nextRetry == s.nextRetry.value
    ensures CanRun(s, moves, r.retryTimeoutMs)
    ensures moves != [] && moves[0] == Complete(i, IsBad(r, c))
    ensures forall k :: 1 <= k < |moves| ==> moves[k].Go? && moves[k].i == i
    ensures var n, end := RecordComplete(r, b, Clocks(s.clock, s.clock, s.clock), c), Run(s, moves, r.retryTimeoutMs);
      |end.threads| == |s.threads| && end.threads[i] == Idle && Left(end) == (n.state, n.nextRetry)
  {
    var bad, m, after := IsBad(r, c), Complete(i, IsBad(r, c)), Step(s, Complete(i, IsBad(r, c)), r.retryTimeoutMs);
    var trips := RecordComplete(r, b, Clocks(s.clock, s.clock, s.clock), c).state == Open;
    var n, end := 0, after;
    match s.state {
      case Open => LeadsHere(after, i, trips, r.retryTimeoutMs);
      case HalfOpen => n, end := ProbeEndsAlone(after, i, bad, trips, r.retryTimeoutMs);
      case Closed => n, end := ClosedEndsAlone(after, i, bad, trips, r.retryTimeoutMs);
    }
    Starts(s, m, i, trips, n, r.retryTimeoutMs, end);
    moves := Whole(m, i, trips, n);
  }

  // ---------------------------------------------------------------- which accesses change the state

  /** The state changes at a compare-and-swap and nowhere else, each from the one state that it expects to the one it
      puts there. */
  lemma ChangesAreSwaps(s: Shared, m: Move, retryTimeoutMs: int)
    requires CanMove(s, m)
    ensures var n := Step(s, m, retryTimeoutMs);
      n.state != s.state <==>
        m.Go? && match s.threads[m.i]
                 case AtProbeCas(_) => s.state == Open && n.state == HalfOpen
                 case AtHalfOpenCas(true) => s.state == HalfOpen && n.state == Open
                 case AtHalfOpenCas(false) => s.state == HalfOpen && n.state == Closed
                 case AtCloseCas => s.state == Closed && n.state == Open
                 case _ => false
  {
    if m.Go? {
      match s.threads[m.i]
      case AtHalfOpenCas(toOpen) => assert toOpen || !toOpen;
      case _ =>
    }
  }

  /** Thread 0 began a completion while the breaker was closed and is about to read the state for the third time; since
      then the breaker has opened once and half-opened for a probe of thread 1. */
  lemma StaleCompletion(threads: nat, now: nat, retryTimeoutMs: nat) returns (n: Shared)
    requires threads >= 2
    ensures Reaches(Init(threads, now), n, retryTimeoutMs)
    ensures |n.threads| == threads && n.threads[0] == AtThirdLoad && n.threads[1] == Idle
    ensures n.state == HalfOpen && n.openings == [now]
  {
    var s := Init(threads, now);
    BreakerRaces.Starts(s, retryTimeoutMs);
    BreakerRaces.Next(s, s, Complete(0, true), retryTimeoutMs);
    Moves(s, s, s, 0, AtSecondLoad(true), AtThreshold, true, retryTimeoutMs);
    Moves(s, s, s, 0, AtThreshold, AtThirdLoad, true, retryTimeoutMs);
    var a := At(s, 0, AtThirdLoad);
    Opens(s, a, 1, retryTimeoutMs);
    ReadsClock(s, Opening(a), 1, retryTimeoutMs);
    var stamp := Stamp(now + retryTimeoutMs, 1);
    Stores(s, Opening(a), 1, stamp, retryTimeoutMs);
    var b := At(Stored(Opening(a), stamp), 1, Idle);
    BreakerRaces.Next(s, b, Tick(now + retryTimeoutMs), retryTimeoutMs);
    var c := b.(clock := now + retryTimeoutMs);
    Probes(s, c, 1, retryTimeoutMs);
    n := At(c.(state := HalfOpen), 1, Idle);
  }

  /** A probe can be ended by a completion that is not its own and that began before the breaker had ever opened: two
      accesses later the breaker is open again, while the probe is still in flight. */
  lemma StaleCompletionEndsProbe(threads: nat, now: nat, retryTimeoutMs: nat)
    requires threads >= 2
    ensures exists n ::
      && Reaches(Init(threads, now), n, retryTimeoutMs)
      && |n.threads| >= 2 && n.threads[..2] == [AtThirdLoad, Idle] && n.state == HalfOpen && n.openings == [now]
      && CanRun(n, [Go(0, true), Go(0, true)], retryTimeoutMs)
      && var end := Run(n, [Go(0, true), Go(0, true)], retryTimeoutMs);
         end.state == Open && |end.openings| == 2
  {
    var n := StaleCompletion(threads, now, retryTimeoutMs);
    var n1 := Advance(n, 0, true, retryTimeoutMs);
    var n2 := Advance(n1, 0, true, retryTimeoutMs);
    LeadsHere(n2, 0, true, retryTimeoutMs);
    LeadsOn(n1, 0, true, 0, retryTimeoutMs, n2);
    LeadsOn(n, 0, true, 1, retryTimeoutMs, n2);
    assert seq(2, _ => Go(0, true)) == [Go(0, true), Go(0, true)];
    assert n.threads[..2] == [AtThirdLoad, Idle];
  }
}
