/** One circuit breaker shared by many threads: every load, compare-and-swap, store and reading of the clock is a step
    of its own, and any thread may take the next one. */
module BreakerRaces {
  import opened BreakerSpec

  /** A value of the retry timestamp; `epoch` tells how many openings there had been when its clock was read. */
  datatype Stamp = Stamp(value: int, epoch: nat)

  /** The timestamp as a thread loaded it, with the number of openings and the freshest epoch stored by then. */
  datatype Reading = Reading(stamp: Stamp, openings: nat, freshest: nat)

  /** Where a thread is between two accesses. */
  datatype Pc =
    | Idle
    /** TryPass, having read Open; the clock and the retry timestamp are read in either order. */
    | AtRetryCheck
    | AtRetryLoad(now: int)
    | AtRetryClock(seen: Reading)
    /** The retry time seen has arrived. */
    | AtProbeCas(seen: Reading)
    /** TryPass, about to return its result; `read` is the state it had loaded. */
    | AtReturn(read: State, passes: bool)
    /** RecordComplete, having read something else than Open. */
    | AtSecondLoad(bad: bool)
    /** Having read HalfOpen; `toOpen` tells which compare-and-swap comes next. */
    | AtHalfOpenCas(toOpen: bool)
    /** Having read neither, about to compare the counters with the threshold. */
    | AtThreshold
    | AtThirdLoad
    | AtCloseCas
    /** The state is Open; the clock is read for the retry timestamp, then the timestamp stored. */
    | AtStampClock
    | AtStampStore(stamp: Stamp)
    /** The state is Closed, the counters not yet reset. */
    | AtReset

  /** `openings` lists the times of the openings so far, `freshest` is the latest epoch whose timestamp was stored. */
  datatype Shared = Shared(
    state: State,
    nextRetry: Stamp,
    clock: int,
    threads: seq<Pc>,
    openings: seq<int>,
    freshest: nat)

  function Init(threads: nat, now: nat): Shared {
    Shared(Closed, Stamp(0, 0), now, seq(threads, _ => Idle), [], 0)
  }

  /** The clock moves, thread i starts TryPass or RecordComplete, or makes its next access. `choice` decides what the
      counters say, and which of clock and timestamp is read first. */
  datatype Move =
    | Tick(to: int)
    | Try(i: nat)
    | Complete(i: nat, bad: bool)
    | Go(i: nat, choice: bool)

  predicate CanMove(s: Shared, m: Move) {
    match m
    case Tick(to) => s.clock <= to
    case Try(i) => i < |s.threads| && s.threads[i] == Idle
    case Complete(i, _) => i < |s.threads| && s.threads[i] == Idle
    case Go(i, _) => i < |s.threads| && s.threads[i] != Idle
  }

  function At(s: Shared, i: nat, pc: Pc): Shared
    requires i < |s.threads|
  {
    s.(threads := s.threads[i := pc])
  }

  /** A successful compare-and-swap to Open. */
  function Opening(s: Shared): Shared {
    s.(state := Open, openings := s.openings + [s.clock])
  }

  function Stored(s: Shared, stamp: Stamp): Shared {
    s.(nextRetry := stamp, freshest := if stamp.epoch > s.freshest then stamp.epoch else s.freshest)
  }

  function Load(s: Shared): Reading {
    Reading(s.nextRetry, |s.openings|, s.freshest)
  }

  /** The retry check, both values read. */
  function Checked(now: int, seen: Reading): Pc {
    if now >= seen.stamp.value then AtProbeCas(seen) else AtReturn(Open, false)
  }

  /** The next access of thread i. */
  function Advance(s: Shared, i: nat, choice: bool, retryTimeoutMs: int): Shared
    requires i < |s.threads|
  {
    match s.threads[i]
    case Idle => s
    case AtRetryCheck => At(s, i, if choice then AtRetryLoad(s.clock) else AtRetryClock(Load(s)))
    case AtRetryLoad(now) => At(s, i, Checked(now, Load(s)))
    case AtRetryClock(seen) => At(s, i, Checked(s.clock, seen))
    case AtProbeCas(_) =>
      var swapped := s.state == Open;
      At(if swapped then s.(state := HalfOpen) else s, i, AtReturn(Open, swapped))
    case AtReturn(_, _) => At(s, i, Idle)
    case AtSecondLoad(bad) => At(s, i, if s.state == HalfOpen then AtHalfOpenCas(bad) else AtThreshold)
    case AtHalfOpenCas(toOpen) =>
      if s.state != HalfOpen then At(s, i, Idle)
      else if toOpen then At(Opening(s), i, AtStampClock)
      else At(s.(state := Closed), i, AtReset)
    case AtThreshold => At(s, i, if choice then AtThirdLoad else Idle)
    case AtThirdLoad =>
      At(s, i, match s.state
               case Closed => AtCloseCas
               case HalfOpen => AtHalfOpenCas(true)
               case Open => Idle)
    case AtCloseCas => if s.state == Closed then At(Opening(s), i, AtStampClock) else At(s, i, Idle)
    case AtStampClock => At(s, i, AtStampStore(Stamp(s.clock + retryTimeoutMs, |s.openings|)))
    case AtStampStore(stamp) => At(Stored(s, stamp), i, Idle)
    case AtReset => At(s, i, Idle)
  }

  function Step(s: Shared, m: Move, retryTimeoutMs: int): Shared
    requires CanMove(s, m)
  {
    match m
    case Tick(to) => s.(clock := to)
    case Try(i) =>
      At(s, i, match s.state
               case Closed => AtReturn(Closed, true)
               case Open => AtRetryCheck
               case HalfOpen => AtReturn(HalfOpen, false))
    case Complete(i, bad) => At(s, i, if s.state == Open then Idle else AtSecondLoad(bad))
    case Go(i, choice) => Advance(s, i, choice, retryTimeoutMs)
  }

  predicate CanRun(s: Shared, moves: seq<Move>, retryTimeoutMs: int)
    decreases |moves|
  {
    moves == [] || (CanMove(s, moves[0]) && CanRun(Step(s, moves[0], retryTimeoutMs), moves[1..], retryTimeoutMs))
  }

  function Run(s: Shared, moves: seq<Move>, retryTimeoutMs: int): Shared
    requires CanRun(s, moves, retryTimeoutMs)
    decreases |moves|
  {
    if moves == [] then s else Run(Step(s, moves[0], retryTimeoutMs), moves[1..], retryTimeoutMs)
  }

  // ---------------------------------------------------------------- what an observer sees

  /** Thread i makes the breaker half-open, someone ends that, or thread i's TryPass returns. */
  datatype Event = Entered(i: nat) | Left | Returned(i: nat, read: State, passes: bool)

  function Mover(m: Move): nat {
    if m.Tick? then 0 else m.i
  }

  /** The change of the state from before to after a move, and the result it returns. */
  function Observed(s: Shared, m: Move, retryTimeoutMs: int): seq<Event>
    requires CanMove(s, m)
  {
    var n := Step(s, m, retryTimeoutMs);
    (if s.state != HalfOpen && n.state == HalfOpen then [Entered(Mover(m))]
     else if s.state == HalfOpen && n.state != HalfOpen then [Left]
     else [])
    + if m.Go? && s.threads[m.i].AtReturn? then [Returned(m.i, s.threads[m.i].read, s.threads[m.i].passes)] else []
  }

  function History(s: Shared, moves: seq<Move>, retryTimeoutMs: int): seq<Event>
    requires CanRun(s, moves, retryTimeoutMs)
    decreases |moves|
  {
    if moves == [] then []
    else
      Observed(s, moves[0], retryTimeoutMs) + History(Step(s, moves[0], retryTimeoutMs), moves[1..], retryTimeoutMs)
  }

  /** A pass given to a caller that had read Open. */
  predicate IsProbePass(e: Event, i: nat) {
    e == Returned(i, Open, true)
  }

  /** Transition q and pass p belong together: same thread, and nothing of the two kinds by it in between. */
  predicate Partners(h: seq<Event>, q: nat, p: nat) {
    q < p < |h| && h[q].Entered? && IsProbePass(h[p], h[q].i)
    && forall k :: q < k < p ==> h[k] != Entered(h[q].i) && !IsProbePass(h[k], h[q].i)
  }

  /** Thread i's transitions and passes take turns, a transition first unless one is pending. */
  predicate TakeTurns(h: seq<Event>, i: nat, pending: bool) {
    if h == [] then true
    else if h[0] == Entered(i) then !pending && TakeTurns(h[1..], i, true)
    else if IsProbePass(h[0], i) then pending && TakeTurns(h[1..], i, false)
    else TakeTurns(h[1..], i, pending)
  }

  function Pending(h: seq<Event>, i: nat, pending: bool): bool {
    if h == [] then pending
    else Pending(h[1..], i, if h[0] == Entered(i) then true else if IsProbePass(h[0], i) then false else pending)
  }

  /** Entries into the half-open state and exits from it take turns. */
  predicate InAndOut(h: seq<Event>, half: bool) {
    if h == [] then true
    else match h[0]
      case Entered(_) => !half && InAndOut(h[1..], true)
      case Left => half && InAndOut(h[1..], false)
      case Returned(_, _, _) => InAndOut(h[1..], half)
  }

  function Half(h: seq<Event>, half: bool): bool {
    if h == [] then half
    else Half(h[1..], match h[0] case Entered(_) => true case Left => false case Returned(_, _, _) => half)
  }

  predicate IsPending(s: Shared, i: nat)
    requires i < |s.threads|
  {
    s.threads[i] == AtReturn(Open, true)
  }

  lemma {:induction false} TurnsAppend(a: seq<Event>, b: seq<Event>, i: nat, pending: bool)
    ensures TakeTurns(a + b, i, pending) <==> TakeTurns(a, i, pending) && TakeTurns(b, i, Pending(a, i, pending))
    ensures Pending(a + b, i, pending) == Pending(b, i, Pending(a, i, pending))
  {
    if a == [] {
      assert a + b == b;
    } else {
      assert (a + b)[0] == a[0] && (a + b)[1..] == a[1..] + b;
      TurnsAppend(a[1..], b, i, if a[0] == Entered(i) then true else if IsProbePass(a[0], i) then false else pending);
    }
  }

  lemma {:induction false} InAndOutAppend(a: seq<Event>, b: seq<Event>, half: bool)
    ensures InAndOut(a + b, half) <==> InAndOut(a, half) && InAndOut(b, Half(a, half))
    ensures Half(a + b, half) == Half(b, Half(a, half))
  {
    if a == [] {
      assert a + b == b;
    } else {
      assert (a + b)[0] == a[0] && (a + b)[1..] == a[1..] + b;
      InAndOutAppend(a[1..], b, match a[0] case Entered(_) => true case Left => false case Returned(_, _, _) => half);
    }
  }

  lemma OneMove(s: Shared, m: Move, i: nat, retryTimeoutMs: int)
    requires CanMove(s, m) && i < |s.threads|
    ensures var n, e := Step(s, m, retryTimeoutMs), Observed(s, m, retryTimeoutMs);
      && |n.threads| == |s.threads|
      && TakeTurns(e, i, IsPending(s, i)) && Pending(e, i, IsPending(s, i)) == IsPending(n, i)
  {
    var e := Observed(s, m, retryTimeoutMs);
    assert |e| <= 1;
    assert |e| == 1 ==> e[1..] == [];
  }

  lemma OneMoveInOrOut(s: Shared, m: Move, retryTimeoutMs: int)
    requires CanMove(s, m)
    ensures var n, e := Step(s, m, retryTimeoutMs), Observed(s, m, retryTimeoutMs);
      InAndOut(e, s.state == HalfOpen) && Half(e, s.state == HalfOpen) == (n.state == HalfOpen)
  {
    var e := Observed(s, m, retryTimeoutMs);
    assert |e| <= 1;
    assert |e| == 1 ==> e[1..] == [];
  }

  lemma {:induction false} EveryRunTakesTurns(s: Shared, moves: seq<Move>, i: nat, retryTimeoutMs: int)
    requires CanRun(s, moves, retryTimeoutMs) && i < |s.threads|
    ensures var n, h := Run(s, moves, retryTimeoutMs), History(s, moves, retryTimeoutMs);
      && |n.threads| == |s.threads|
      && TakeTurns(h, i, IsPending(s, i)) && Pending(h, i, IsPending(s, i)) == IsPending(n, i)
    decreases |moves|
  {
    if moves != [] {
      var n, e := Step(s, moves[0], retryTimeoutMs), Observed(s, moves[0], retryTimeoutMs);
      OneMove(s, moves[0], i, retryTimeoutMs);
      EveryRunTakesTurns(n, moves[1..], i, retryTimeoutMs);
      TurnsAppend(e, History(n, moves[1..], retryTimeoutMs), i, IsPending(s, i));
    }
  }

  lemma {:induction false} EveryRunAlternates(s: Shared, moves: seq<Move>, retryTimeoutMs: int)
    requires CanRun(s, moves, retryTimeoutMs)
    ensures var n, h := Run(s, moves, retryTimeoutMs), History(s, moves, retryTimeoutMs);
      InAndOut(h, s.state == HalfOpen) && Half(h, s.state == HalfOpen) == (n.state == HalfOpen)
    decreases |moves|
  {
    if moves != [] {
      var n, e := Step(s, moves[0], retryTimeoutMs), Observed(s, moves[0], retryTimeoutMs);
      OneMoveInOrOut(s, moves[0], retryTimeoutMs);
      EveryRunAlternates(n, moves[1..], retryTimeoutMs);
      InAndOutAppend(e, History(n, moves[1..], retryTimeoutMs), s.state == HalfOpen);
    }
  }

  // ---------------------------------------------------------------- passes and transitions belong together

  /** Thread i neither makes the breaker half-open nor is given a probe from lo to hi. */
  predicate Quiet(h: seq<Event>, lo: nat, hi: nat, i: nat)
    requires hi <= |h|
  {
    forall k :: lo <= k < hi ==> h[k] != Entered(i) && !IsProbePass(h[k], i)
  }

  /** The transition behind pass p, -1 if it was pending from the start. */
  lemma {:induction false} TransitionOf(h: seq<Event>, i: nat, pending: bool, p: nat) returns (q: int)
    requires TakeTurns(h, i, pending) && p < |h| && IsProbePass(h[p], i)
    ensures -1 <= q < p && Quiet(h, q + 1, p, i)
    ensures if q == -1 then pending else h[q] == Entered(i)
  {
    if p == 0 {
      q := -1;
    } else {
      var next := if h[0] == Entered(i) then true else if IsProbePass(h[0], i) then false else pending;
      var r := TransitionOf(h[1..], i, next, p - 1);
      q := if r >= 0 then r + 1 else if h[0] == Entered(i) then 0 else -1;
      forall k | q + 1 <= k < p
        ensures h[k] != Entered(i) && !IsProbePass(h[k], i)
      {
        if k > 0 {
          assert h[k] == h[1..][k - 1];
        }
      }
    }
  }

  /** The first pass of a thread with one pending, |h| if it is not yet returned. */
  lemma {:induction false} PendingPass(h: seq<Event>, i: nat) returns (p: nat)
    requires TakeTurns(h, i, true)
    ensures p <= |h| && Quiet(h, 0, p, i)
    ensures if p < |h| then IsProbePass(h[p], i) else Pending(h, i, true)
  {
    if h == [] || IsProbePass(h[0], i) {
      p := 0;
    } else {
      var r := PendingPass(h[1..], i);
      p := r + 1;
      forall k | 0 <= k < p
        ensures h[k] != Entered(i) && !IsProbePass(h[k], i)
      {
        if k > 0 {
          assert h[k] == h[1..][k - 1];
        }
      }
    }
  }

  /** The pass that transition q leads to, |h| if it is not yet returned. */
  lemma {:induction false} PassOf(h: seq<Event>, i: nat, pending: bool, q: nat) returns (p: nat)
    requires TakeTurns(h, i, pending) && q < |h| && h[q] == Entered(i)
    ensures q < p <= |h| && Quiet(h, q + 1, p, i)
    ensures if p < |h| then IsProbePass(h[p], i) else Pending(h, i, pending)
  {
    if q == 0 {
      var r := PendingPass(h[1..], i);
      p := r + 1;
    } else {
      var next := if h[0] == Entered(i) then true else if IsProbePass(h[0], i) then false else pending;
      var r := PassOf(h[1..], i, next, q - 1);
      p := r + 1;
    }
    forall k | q + 1 <= k < p
      ensures h[k] != Entered(i) && !IsProbePass(h[k], i)
    {
      assert h[k] == h[1..][k - 1];
    }
  }

  /** No exit while the breaker is not half-open. */
  lemma {:induction false} NoExit(h: seq<Event>, b: nat)
    requires InAndOut(h, false) && b <= |h| && forall k :: 0 <= k < b ==> !h[k].Entered?
    ensures forall k :: 0 <= k < b ==> h[k] != Left
  {
    if b > 0 {
      assert h[0] != Left;
      forall k | 0 <= k < b - 1
        ensures h[1..][k] == h[k + 1]
      {
      }
      NoExit(h[1..], b - 1);
      forall k | 0 <= k < b
        ensures h[k] != Left
      {
        if k > 0 {
          assert h[k] == h[1..][k - 1];
        }
      }
    }
  }

  /** A half-open breaker is left exactly once before it can be entered again. */
  lemma {:induction false} ExitBefore(h: seq<Event>, b: nat) returns (c: nat)
    requires InAndOut(h, true) && b < |h| && h[b].Entered? && forall k :: 0 <= k < b ==> !h[k].Entered?
    ensures c < b && h[c] == Left && forall k :: 0 <= k < b && h[k] == Left ==> k == c
  {
    forall k | 0 <= k < |h| - 1
      ensures h[1..][k] == h[k + 1]
    {
    }
    if h[0] == Left {
      c := 0;
      NoExit(h[1..], b - 1);
    } else {
      var r := ExitBefore(h[1..], b - 1);
      c := r + 1;
    }
    forall k | 0 <= k < b && h[k] == Left
      ensures k == c
    {
      if k > 0 {
        assert h[k] == h[1..][k - 1];
      }
    }
  }

  lemma {:induction false} ExitBetween(h: seq<Event>, half: bool, a: nat, b: nat) returns (c: nat)
    requires InAndOut(h, half) && a < b < |h| && h[a].Entered? && h[b].Entered?
    requires forall k :: a < k < b ==> !h[k].Entered?
    ensures a < c < b && h[c] == Left && forall k :: a < k < b && h[k] == Left ==> k == c
  {
    forall k | 0 <= k < |h| - 1
      ensures h[1..][k] == h[k + 1]
    {
    }
    if a == 0 {
      var r := ExitBefore(h[1..], b - 1);
      c := r + 1;
    } else {
      var next := match h[0] case Entered(_) => true case Left => false case Returned(_, _, _) => half;
      var r := ExitBetween(h[1..], next, a - 1, b - 1);
      c := r + 1;
    }
    forall k | a < k < b && h[k] == Left
      ensures k == c
    {
      assert h[k] == h[1..][k - 1];
    }
  }

  lemma NobodyElseMoves(s: Shared, moves: seq<Move>, retryTimeoutMs: int)
    requires CanRun(s, moves, retryTimeoutMs)
    ensures forall e :: e in History(s, moves, retryTimeoutMs) ==>
      (e.Entered? ==> e.i < |s.threads|) && (e.Returned? ==> e.i < |s.threads|)
    decreases |moves|
  {
    if moves != [] {
      NobodyElseMoves(Step(s, moves[0], retryTimeoutMs), moves[1..], retryTimeoutMs);
    }
  }

  /** The pass that belongs to transition q is on its way: thread i is about to return it. */
  ghost predicate OnItsWay(h: seq<Event>, q: nat, n: Shared)
    requires q < |h| && h[q].Entered?
  {
    h[q].i < |n.threads| && Quiet(h, q + 1, |h|, h[q].i) && IsPending(n, h[q].i)
  }

  /** Every interleaving from the start: a caller that had read Open is given a pass for each transition to half-open
      its thread made and for nothing else. Every such pass has its own transition, every transition has its own pass
      or its thread is about to return it. */
  lemma PassesAreTransitions(threads: nat, now: nat, moves: seq<Move>, retryTimeoutMs: int)
    requires CanRun(Init(threads, now), moves, retryTimeoutMs)
    ensures var h, n := History(Init(threads, now), moves, retryTimeoutMs),
      Run(Init(threads, now), moves, retryTimeoutMs);
      && (forall p, i :: 0 <= p < |h| && IsProbePass(h[p], i) ==> exists q: nat :: Partners(h, q, p))
      && (forall q, r, p :: Partners(h, q, p) && Partners(h, r, p) ==> q == r)
      && (forall q :: 0 <= q < |h| && h[q].Entered? ==> OnItsWay(h, q, n) != exists p: nat :: Partners(h, q, p))
      && (forall q, p, r :: Partners(h, q, p) && Partners(h, q, r) ==> p == r)
  {
    var s := Init(threads, now);
    var h, n := History(s, moves, retryTimeoutMs), Run(s, moves, retryTimeoutMs);
    NobodyElseMoves(s, moves, retryTimeoutMs);
    forall p, i | 0 <= p < |h| && IsProbePass(h[p], i)
      ensures exists q: nat :: Partners(h, q, p)
    {
      assert h[p] in h;
      EveryRunTakesTurns(s, moves, i, retryTimeoutMs);
      var q := TransitionOf(h, i, false, p);
      assert Partners(h, q, p);
    }
    forall q | 0 <= q < |h| && h[q].Entered?
      ensures OnItsWay(h, q, n) != exists p: nat :: Partners(h, q, p)
    {
      var i := h[q].i;
      assert h[q] in h;
      EveryRunTakesTurns(s, moves, i, retryTimeoutMs);
      var p := PassOf(h, i, false, q);
      if p < |h| {
        assert Partners(h, q, p);
      }
    }
  }

  /** Every interleaving from the start: between two transitions to half-open the breaker left that state once. */
  lemma OneExitBetweenProbes(threads: nat, now: nat, moves: seq<Move>, a: nat, b: nat, retryTimeoutMs: int)
    requires CanRun(Init(threads, now), moves, retryTimeoutMs)
    requires var h := History(Init(threads, now), moves, retryTimeoutMs);
      a < b < |h| && h[a].Entered? && h[b].Entered? && forall k :: a < k < b ==> !h[k].Entered?
    ensures var h := History(Init(threads, now), moves, retryTimeoutMs);
      exists c :: a < c < b && h[c] == Left && forall k :: a < k < b && h[k] == Left ==> k == c
  {
    var h := History(Init(threads, now), moves, retryTimeoutMs);
    EveryRunAlternates(Init(threads, now), moves, retryTimeoutMs);
    var c := ExitBetween(h, false, a, b);
  }

  function Entries(h: seq<Event>): nat {
    if h == [] then 0 else (if h[0].Entered? then 1 else 0) + Entries(h[1..])
  }

  function Exits(h: seq<Event>): nat {
    if h == [] then 0 else (if h[0] == Left then 1 else 0) + Exits(h[1..])
  }

  lemma {:induction false} BalanceOf(h: seq<Event>, half: bool)
    requires InAndOut(h, half)
    ensures Entries(h) - Exits(h) == (if Half(h, half) then 1 else 0) - if half then 1 else 0
  {
    if h != [] {
      BalanceOf(h[1..], match h[0] case Entered(_) => true case Left => false case Returned(_, _, _) => half);
    }
  }

  /** Every interleaving from the start: one more transition to half-open than exits from it exactly while half-open. */
  lemma ProbesBalance(threads: nat, now: nat, moves: seq<Move>, retryTimeoutMs: int)
    requires CanRun(Init(threads, now), moves, retryTimeoutMs)
    ensures var h, n := History(Init(threads, now), moves, retryTimeoutMs),
      Run(Init(threads, now), moves, retryTimeoutMs);
      Entries(h) - Exits(h) == if n.state == HalfOpen then 1 else 0
  {
    var h := History(Init(threads, now), moves, retryTimeoutMs);
    EveryRunAlternates(Init(threads, now), moves, retryTimeoutMs);
    BalanceOf(h, false);
  }

  // ---------------------------------------------------------------- retry times

  /** A timestamp lies a retry timeout behind a clock reading made after its epoch's opening and before the next. */
  predicate StampOk(t: Stamp, s: Shared, retryTimeoutMs: int) {
    && t.epoch <= |s.openings|
    && (t.epoch > 0 ==> s.openings[t.epoch - 1] + retryTimeoutMs <= t.value)
    && t.value <= (if t.epoch < |s.openings| then s.openings[t.epoch] else s.clock) + retryTimeoutMs
  }

  predicate ReadingOk(r: Reading, s: Shared, retryTimeoutMs: int) {
    StampOk(r.stamp, s, retryTimeoutMs) && r.stamp.epoch <= r.freshest <= r.openings <= |s.openings|
  }

  predicate ThreadOk(s: Shared, pc: Pc, retryTimeoutMs: int) {
    match pc
    case AtRetryLoad(now) => now <= s.clock
    case AtRetryClock(seen) => ReadingOk(seen, s, retryTimeoutMs)
    case AtProbeCas(seen) => ReadingOk(seen, s, retryTimeoutMs) && seen.stamp.value <= s.clock
    case AtStampStore(stamp) => StampOk(stamp, s, retryTimeoutMs)
    case _ => true
  }

  ghost predicate OpeningsOk(s: Shared) {
    && 0 <= s.clock
    && (forall k :: 0 <= k < |s.openings| ==> 0 <= s.openings[k] <= s.clock)
    && (forall j, k :: 0 <= j < k < |s.openings| ==> s.openings[j] <= s.openings[k])
    && (s.state != Closed ==> s.openings != [])
  }

  ghost predicate ThreadsOk(s: Shared, retryTimeoutMs: int) {
    forall i :: 0 <= i < |s.threads| ==> ThreadOk(s, s.threads[i], retryTimeoutMs)
  }

  /** Openings are in order of time; every timestamp is in order with them. */
  ghost predicate TimesOk(s: Shared, retryTimeoutMs: int) {
    OpeningsOk(s) && ReadingOk(Load(s), s, retryTimeoutMs) && ThreadsOk(s, retryTimeoutMs)
  }

  /** Time goes on and at most one opening joins the others. */
  predicate Grows(s: Shared, n: Shared) {
    s.clock <= n.clock && (n.openings == s.openings || n.openings == s.openings + [s.clock])
  }

  lemma StampStays(t: Stamp, s: Shared, n: Shared, retryTimeoutMs: nat)
    requires Grows(s, n) && StampOk(t, s, retryTimeoutMs)
    ensures StampOk(t, n, retryTimeoutMs)
  {
  }

  lemma ThreadStays(s: Shared, n: Shared, pc: Pc, retryTimeoutMs: nat)
    requires Grows(s, n) && ThreadOk(s, pc, retryTimeoutMs)
    ensures ThreadOk(n, pc, retryTimeoutMs)
  {
    match pc
    case AtRetryClock(seen) => StampStays(seen.stamp, s, n, retryTimeoutMs);
    case AtProbeCas(seen) => StampStays(seen.stamp, s, n, retryTimeoutMs);
    case AtStampStore(stamp) => StampStays(stamp, s, n, retryTimeoutMs);
    case _ =>
  }

  lemma StepGrows(s: Shared, m: Move, retryTimeoutMs: nat)
    requires CanMove(s, m)
    ensures Grows(s, Step(s, m, retryTimeoutMs))
  {
  }

  /** The thread that moves. */
  lemma MoverOk(s: Shared, i: nat, choice: bool, retryTimeoutMs: nat)
    requires i < |s.threads| && ThreadOk(s, s.threads[i], retryTimeoutMs) && ReadingOk(Load(s), s, retryTimeoutMs)
    requires forall k :: 0 <= k < |s.openings| ==> s.openings[k] <= s.clock
    ensures var n := Advance(s, i, choice, retryTimeoutMs); ThreadOk(n, n.threads[i], retryTimeoutMs)
  {
    var n := Advance(s, i, choice, retryTimeoutMs);
    match s.threads[i]
    case AtRetryClock(seen) => StampStays(seen.stamp, s, n, retryTimeoutMs);
    case AtRetryCheck => StampStays(s.nextRetry, s, n, retryTimeoutMs);
    case AtRetryLoad(_) => StampStays(s.nextRetry, s, n, retryTimeoutMs);
    case _ =>
  }

  lemma LoadOk(s: Shared, m: Move, retryTimeoutMs: nat)
    requires TimesOk(s, retryTimeoutMs) && CanMove(s, m)
    ensures var n := Step(s, m, retryTimeoutMs); ReadingOk(Load(n), n, retryTimeoutMs)
  {
    var n := Step(s, m, retryTimeoutMs);
    StepGrows(s, m, retryTimeoutMs);
    StampStays(s.nextRetry, s, n, retryTimeoutMs);
    if m.Go? {
      assert ThreadOk(s, s.threads[m.i], retryTimeoutMs);
    }
  }

  lemma StepKeepsThreads(s: Shared, m: Move, retryTimeoutMs: nat)
    requires TimesOk(s, retryTimeoutMs) && CanMove(s, m)
    ensures ThreadsOk(Step(s, m, retryTimeoutMs), retryTimeoutMs)
  {
    var n := Step(s, m, retryTimeoutMs);
    StepGrows(s, m, retryTimeoutMs);
    forall k | 0 <= k < |n.threads|
      ensures ThreadOk(n, n.threads[k], retryTimeoutMs)
    {
      assert ThreadOk(s, s.threads[k], retryTimeoutMs);
      if m.Go? && k == m.i {
        MoverOk(s, k, m.choice, retryTimeoutMs);
      } else if m.Tick? || k != m.i {
        ThreadStays(s, n, s.threads[k], retryTimeoutMs);
      }
    }
  }

  lemma StepKeepsTimes(s: Shared, m: Move, retryTimeoutMs: nat)
    requires TimesOk(s, retryTimeoutMs) && CanMove(s, m)
    ensures TimesOk(Step(s, m, retryTimeoutMs), retryTimeoutMs)
  {
    StepGrows(s, m, retryTimeoutMs);
    LoadOk(s, m, retryTimeoutMs);
    StepKeepsThreads(s, m, retryTimeoutMs);
  }

  lemma {:induction false} EveryRunKeepsTimes(s: Shared, moves: seq<Move>, retryTimeoutMs: nat)
    requires TimesOk(s, retryTimeoutMs) && CanRun(s, moves, retryTimeoutMs)
    ensures TimesOk(Run(s, moves, retryTimeoutMs), retryTimeoutMs)
    decreases |moves|
  {
    if moves != [] {
      StepKeepsTimes(s, moves[0], retryTimeoutMs);
      EveryRunKeepsTimes(Step(s, moves[0], retryTimeoutMs), moves[1..], retryTimeoutMs);
    }
  }

  /** Openings whose own timestamp is not yet stored: some thread is between its compare-and-swap and its store. */
  predicate IsStoring(s: Shared, pc: Pc) {
    pc == AtStampClock || (pc.AtStampStore? && pc.stamp.epoch == |s.openings|)
  }

  ghost predicate StoreIsComing(s: Shared) {
    s.freshest < |s.openings| ==> exists i :: 0 <= i < |s.threads| && IsStoring(s, s.threads[i])
  }

  lemma StepKeepsStoring(s: Shared, m: Move, retryTimeoutMs: nat)
    requires TimesOk(s, retryTimeoutMs) && StoreIsComing(s) && CanMove(s, m)
    ensures StoreIsComing(Step(s, m, retryTimeoutMs))
  {
    var n := Step(s, m, retryTimeoutMs);
    if n.freshest < |n.openings| {
      if |n.openings| > |s.openings| {
        assert IsStoring(n, n.threads[m.i]);
      } else {
        var i :| 0 <= i < |s.threads| && IsStoring(s, s.threads[i]);
        assert IsStoring(n, n.threads[i]);
      }
    }
  }

  lemma {:induction false} EveryRunKeepsStoring(s: Shared, moves: seq<Move>, retryTimeoutMs: nat)
    requires TimesOk(s, retryTimeoutMs) && StoreIsComing(s) && CanRun(s, moves, retryTimeoutMs)
    ensures StoreIsComing(Run(s, moves, retryTimeoutMs))
    decreases |moves|
  {
    if moves != [] {
      StepKeepsTimes(s, moves[0], retryTimeoutMs);
      StepKeepsStoring(s, moves[0], retryTimeoutMs);
      EveryRunKeepsStoring(Step(s, moves[0], retryTimeoutMs), moves[1..], retryTimeoutMs);
    }
  }

  /** Thread i is about to make the breaker half-open. */
  predicate StartsProbe(s: Shared, i: nat) {
    i < |s.threads| && s.threads[i].AtProbeCas? && s.state == Open
  }

  /** The time since the latest opening. */
  function Since(s: Shared): int
    requires s.openings != []
  {
    s.clock - s.openings[|s.openings| - 1]
  }

  /** The three ways in which a check can have seen an outdated timestamp: it came before the latest opening, or before
      that opening's timestamp was stored, or after an older timestamp was stored over it. */
  predicate CameEarly(r: Reading, s: Shared) {
    r.openings < |s.openings|
  }

  predicate CameBeforeStore(r: Reading, s: Shared) {
    r.freshest < r.openings == |s.openings|
  }

  predicate CameAfterOverwriting(r: Reading, s: Shared) {
    r.stamp.epoch < r.freshest == |s.openings|
  }

  /** Every interleaving from the start: the check behind a probe has waited for a retry timeout after the latest
      opening if and only if it did not see an outdated timestamp in one of the three ways, or saw one whose clock was
      read in the very millisecond of that opening. It has always waited so after the opening of its own epoch. */
  lemma ProbeIsOnTimeIff(threads: nat, now: nat, moves: seq<Move>, i: nat, retryTimeoutMs: nat)
    requires CanRun(Init(threads, now), moves, retryTimeoutMs)
    requires StartsProbe(Run(Init(threads, now), moves, retryTimeoutMs), i)
    ensures var s := Run(Init(threads, now), moves, retryTimeoutMs);
      && s.openings != []
      && var r := s.threads[i].seen;
      && r.stamp.value <= s.clock
      && r.stamp.epoch <= |s.openings|
      && var outdated := CameEarly(r, s) || CameBeforeStore(r, s) || CameAfterOverwriting(r, s);
      && var latest := s.openings[|s.openings| - 1];
      && (r.stamp.value >= latest + retryTimeoutMs <==> !outdated || r.stamp.value == latest + retryTimeoutMs)
      && (!outdated ==> Since(s) >= retryTimeoutMs)
      && (r.stamp.epoch > 0 ==> s.clock >= s.openings[r.stamp.epoch - 1] + retryTimeoutMs)
  {
    var init := Init(threads, now);
    assert TimesOk(init, retryTimeoutMs);
    EveryRunKeepsTimes(init, moves, retryTimeoutMs);
    var s := Run(init, moves, retryTimeoutMs);
    assert ThreadOk(s, s.threads[i], retryTimeoutMs);
    var r := s.threads[i].seen;
    if r.stamp.epoch < |s.openings| {
      assert s.openings[r.stamp.epoch] <= s.openings[|s.openings| - 1];
    }
  }

  /** A timestamp can be outdated in the second way only while an opener is between its swap and its store. */
  lemma MissingStoreIsComing(threads: nat, now: nat, moves: seq<Move>, retryTimeoutMs: nat)
    requires CanRun(Init(threads, now), moves, retryTimeoutMs)
    ensures var s := Run(Init(threads, now), moves, retryTimeoutMs);
      CameBeforeStore(Load(s), s) ==> exists i :: 0 <= i < |s.threads| && IsStoring(s, s.threads[i])
  {
    EveryRunKeepsStoring(Init(threads, now), moves, retryTimeoutMs);
  }

  // ---------------------------------------------------------------- each of the three ways leads to an early probe

  lemma {:induction false} RunAppend(s: Shared, a: seq<Move>, b: seq<Move>, retryTimeoutMs: int)
    requires CanRun(s, a, retryTimeoutMs) && CanRun(Run(s, a, retryTimeoutMs), b, retryTimeoutMs)
    ensures CanRun(s, a + b, retryTimeoutMs)
    ensures Run(s, a + b, retryTimeoutMs) == Run(Run(s, a, retryTimeoutMs), b, retryTimeoutMs)
    decreases |a|
  {
    if a == [] {
      assert a + b == b;
    } else {
      assert (a + b)[0] == a[0] && (a + b)[1..] == a[1..] + b;
      RunAppend(Step(s, a[0], retryTimeoutMs), a[1..], b, retryTimeoutMs);
    }
  }

  /** n can be reached from s. */
  ghost predicate Reaches(s: Shared, n: Shared, retryTimeoutMs: int) {
    exists moves :: CanRun(s, moves, retryTimeoutMs) && Run(s, moves, retryTimeoutMs) == n
  }

  lemma OneStep(s: Shared, m: Move, retryTimeoutMs: int)
    requires CanMove(s, m)
    ensures Reaches(s, Step(s, m, retryTimeoutMs), retryTimeoutMs)
  {
    var n := Step(s, m, retryTimeoutMs);
    assert [m][1..] == [];
    assert CanRun(n, [], retryTimeoutMs);
    assert CanRun(s, [m], retryTimeoutMs) && Run(s, [m], retryTimeoutMs) == n;
  }

  lemma Next(s: Shared, n: Shared, m: Move, retryTimeoutMs: int)
    requires Reaches(s, n, retryTimeoutMs) && CanMove(n, m)
    ensures Reaches(s, Step(n, m, retryTimeoutMs), retryTimeoutMs)
  {
    var a :| CanRun(s, a, retryTimeoutMs) && Run(s, a, retryTimeoutMs) == n;
    OneStep(n, m, retryTimeoutMs);
    var b :| CanRun(n, b, retryTimeoutMs) && Run(n, b, retryTimeoutMs) == Step(n, m, retryTimeoutMs);
    RunAppend(s, a, b, retryTimeoutMs);
  }

  lemma Twice(s: Shared, i: nat, a: Pc, b: Pc)
    requires i < |s.threads|
    ensures At(At(s, i, a), i, b) == At(s, i, b)
  {
    assert s.threads[i := a][i := b] == s.threads[i := b];
  }

  /** A move of thread i from a to b that takes the shared values from n to t. */
  lemma Moves(s: Shared, n: Shared, t: Shared, i: nat, a: Pc, b: Pc, choice: bool, retryTimeoutMs: int)
    requires i < |n.threads| && n.threads == t.threads && a != Idle && Reaches(s, At(n, i, a), retryTimeoutMs)
    requires Advance(At(n, i, a), i, choice, retryTimeoutMs) == At(At(t, i, a), i, b)
    ensures Reaches(s, At(t, i, b), retryTimeoutMs)
  {
    Next(s, At(n, i, a), Go(i, choice), retryTimeoutMs);
    Twice(t, i, a, b);
  }

  /** A bad completion at a closed breaker whose counters are over the threshold. */
  lemma Opens(s: Shared, n: Shared, i: nat, retryTimeoutMs: int)
    requires Reaches(s, n, retryTimeoutMs) && i < |n.threads| && n.threads[i] == Idle && n.state == Closed
    ensures Reaches(s, At(Opening(n), i, AtStampClock), retryTimeoutMs)
  {
    Next(s, n, Complete(i, true), retryTimeoutMs);
    Moves(s, n, n, i, AtSecondLoad(true), AtThreshold, true, retryTimeoutMs);
    Moves(s, n, n, i, AtThreshold, AtThirdLoad, true, retryTimeoutMs);
    Moves(s, n, n, i, AtThirdLoad, AtCloseCas, true, retryTimeoutMs);
    Moves(s, n, Opening(n), i, AtCloseCas, AtStampClock, true, retryTimeoutMs);
  }

  /** A bad completion at a half-open breaker. */
  lemma Reopens(s: Shared, n: Shared, i: nat, retryTimeoutMs: int)
    requires Reaches(s, n, retryTimeoutMs) && i < |n.threads| && n.threads[i] == Idle && n.state == HalfOpen
    ensures Reaches(s, At(Opening(n), i, AtStampClock), retryTimeoutMs)
  {
    Next(s, n, Complete(i, true), retryTimeoutMs);
    Moves(s, n, n, i, AtSecondLoad(true), AtHalfOpenCas(true), true, retryTimeoutMs);
    Moves(s, n, Opening(n), i, AtHalfOpenCas(true), AtStampClock, true, retryTimeoutMs);
  }

  lemma ReadsClock(s: Shared, n: Shared, i: nat, retryTimeoutMs: int)
    requires i < |n.threads| && Reaches(s, At(n, i, AtStampClock), retryTimeoutMs)
    ensures Reaches(s, At(n, i, AtStampStore(Stamp(n.clock + retryTimeoutMs, |n.openings|))), retryTimeoutMs)
  {
    Moves(s, n, n, i, AtStampClock, AtStampStore(Stamp(n.clock + retryTimeoutMs, |n.openings|)), true, retryTimeoutMs);
  }

  lemma Stores(s: Shared, n: Shared, i: nat, stamp: Stamp, retryTimeoutMs: int)
    requires i < |n.threads| && Reaches(s, At(n, i, AtStampStore(stamp)), retryTimeoutMs)
    ensures Reaches(s, At(Stored(n, stamp), i, Idle), retryTimeoutMs)
  {
    Moves(s, n, Stored(n, stamp), i, AtStampStore(stamp), Idle, true, retryTimeoutMs);
  }

  /** TryPass at an open breaker whose timestamp has arrived, up to the compare-and-swap. */
  lemma Checks(s: Shared, n: Shared, i: nat, retryTimeoutMs: int)
    requires Reaches(s, n, retryTimeoutMs) && i < |n.threads| && n.threads[i] == Idle && n.state == Open
    requires n.nextRetry.value <= n.clock
    ensures Reaches(s, At(n, i, AtProbeCas(Load(n))), retryTimeoutMs)
  {
    Next(s, n, Try(i), retryTimeoutMs);
    Moves(s, n, n, i, AtRetryCheck, AtRetryClock(Load(n)), false, retryTimeoutMs);
    Moves(s, n, n, i, AtRetryClock(Load(n)), AtProbeCas(Load(n)), true, retryTimeoutMs);
  }

  lemma Probes(s: Shared, n: Shared, i: nat, retryTimeoutMs: int)
    requires Reaches(s, n, retryTimeoutMs) && i < |n.threads| && n.threads[i] == Idle && n.state == Open
    requires n.nextRetry.value <= n.clock
    ensures Reaches(s, At(n.(state := HalfOpen), i, Idle), retryTimeoutMs)
  {
    Checks(s, n, i, retryTimeoutMs);
    var half := n.(state := HalfOpen);
    Moves(s, n, half, i, AtProbeCas(Load(n)), AtReturn(Open, true), true, retryTimeoutMs);
    Moves(s, half, half, i, AtReturn(Open, true), Idle, true, retryTimeoutMs);
  }

  lemma Starts(s: Shared, retryTimeoutMs: int)
    ensures Reaches(s, s, retryTimeoutMs)
  {
    assert CanRun(s, [], retryTimeoutMs) && Run(s, [], retryTimeoutMs) == s;
  }

  /** A probe in the millisecond of the opening, because its timestamp is not yet stored. */
  lemma ProbeBeforeTheStore(threads: nat, now: nat, retryTimeoutMs: nat)
    requires threads >= 2 && retryTimeoutMs > 0
    ensures exists n ::
      && Reaches(Init(threads, now), n, retryTimeoutMs) && StartsProbe(n, 1) && n.openings != []
      && CameBeforeStore(n.threads[1].seen, n) && Since(n) == 0
  {
    var s := Init(threads, now);
    Starts(s, retryTimeoutMs);
    Opens(s, s, 0, retryTimeoutMs);
    var a := At(Opening(s), 0, AtStampClock);
    Checks(s, a, 1, retryTimeoutMs);
    var n := At(a, 1, AtProbeCas(Load(a)));
    assert Reaches(s, n, retryTimeoutMs) && StartsProbe(n, 1);
  }

  /** A probe in the millisecond of a reopening that overtook its check, every timestamp being stored at once. */
  lemma ProbeAfterReopening(threads: nat, now: nat, retryTimeoutMs: nat)
    requires threads >= 2 && retryTimeoutMs > 0
    ensures exists n ::
      && Reaches(Init(threads, now), n, retryTimeoutMs) && StartsProbe(n, 1) && n.openings != []
      && CameEarly(n.threads[1].seen, n) && n.nextRetry.epoch == |n.openings| && Since(n) == 0
  {
    var s := Init(threads, now);
    Starts(s, retryTimeoutMs);
    Opens(s, s, 0, retryTimeoutMs);
    ReadsClock(s, Opening(s), 0, retryTimeoutMs);
    Stores(s, Opening(s), 0, Stamp(now + retryTimeoutMs, 1), retryTimeoutMs);
    var a := At(Stored(Opening(s), Stamp(now + retryTimeoutMs, 1)), 0, Idle);
    Next(s, a, Tick(now + retryTimeoutMs), retryTimeoutMs);
    var b := a.(clock := now + retryTimeoutMs);
    Checks(s, b, 1, retryTimeoutMs);
    var c := At(b, 1, AtProbeCas(Load(b)));
    Probes(s, c, 0, retryTimeoutMs);
    var d := At(c.(state := HalfOpen), 0, Idle);
    Reopens(s, d, 0, retryTimeoutMs);
    ReadsClock(s, Opening(d), 0, retryTimeoutMs);
    var stamp := Stamp(now + 2 * retryTimeoutMs, 2);
    Stores(s, Opening(d), 0, stamp, retryTimeoutMs);
    var n := At(Stored(Opening(d), stamp), 0, Idle);
    assert Reaches(s, n, retryTimeoutMs) && StartsProbe(n, 1);
  }

  /** A probe less than a retry timeout after a reopening, because an opener that had been held up between reading its
      clock and storing its timestamp stored it over that of the reopening. */
  lemma ProbeAfterOverwriting(threads: nat, now: nat, delay: nat, retryTimeoutMs: nat)
    requires threads >= 2 && 0 < delay <= retryTimeoutMs
    ensures exists n ::
      && Reaches(Init(threads, now), n, retryTimeoutMs) && StartsProbe(n, 1) && n.openings != []
      && CameAfterOverwriting(n.threads[1].seen, n) && Since(n) == retryTimeoutMs - delay
  {
    var s := Init(threads, now);
    Starts(s, retryTimeoutMs);
    Opens(s, s, 0, retryTimeoutMs);
    ReadsClock(s, Opening(s), 0, retryTimeoutMs);
    var held := Stamp(now + retryTimeoutMs, 1);
    var a := At(Opening(s), 0, AtStampStore(held));
    Probes(s, a, 1, retryTimeoutMs);
    var b := At(a.(state := HalfOpen), 1, Idle);
    Next(s, b, Tick(now + delay), retryTimeoutMs);
    var c := b.(clock := now + delay);
    Reopens(s, c, 1, retryTimeoutMs);
    ReadsClock(s, Opening(c), 1, retryTimeoutMs);
    var stamp := Stamp(now + delay + retryTimeoutMs, 2);
    Stores(s, Opening(c), 1, stamp, retryTimeoutMs);
    var d := At(Stored(Opening(c), stamp), 1, Idle);
    assert d == At(d, 0, AtStampStore(held)) by {
      assert d.threads[0 := AtStampStore(held)] == d.threads;
    }
    Stores(s, d, 0, held, retryTimeoutMs);
    var e := At(Stored(d, held), 0, Idle);
    Next(s, e, Tick(now + retryTimeoutMs), retryTimeoutMs);
    var f := e.(clock := now + retryTimeoutMs);
    Checks(s, f, 1, retryTimeoutMs);
    var n := At(f, 1, AtProbeCas(Load(f)));
    assert Reaches(s, n, retryTimeoutMs) && StartsProbe(n, 1);
  }

  // ---------------------------------------------------------------- when probes are on time in all runs

  /** Whatever a lone thread holds was computed since the latest opening. */
  predicate HoldsLatest(s: Shared, pc: Pc) {
    match pc
    case AtRetryClock(seen) => seen.stamp.epoch == |s.openings|
    case AtProbeCas(seen) => seen.stamp.epoch == |s.openings|
    case AtStampStore(stamp) => stamp.epoch == |s.openings|
    case _ => true
  }

  /** Only between its swap and its store is the stored timestamp not the latest. */
  predicate LoneOk(s: Shared) {
    |s.threads| <= 1
    && if s.threads == [] then s.nextRetry.epoch == |s.openings|
       else HoldsLatest(s, s.threads[0])
            && (!s.threads[0].AtStampClock? && !s.threads[0].AtStampStore? ==> s.nextRetry.epoch == |s.openings|)
  }

  lemma {:induction false} LoneRun(s: Shared, moves: seq<Move>, retryTimeoutMs: int)
    requires LoneOk(s) && CanRun(s, moves, retryTimeoutMs)
    ensures LoneOk(Run(s, moves, retryTimeoutMs))
    decreases |moves|
  {
    if moves != [] {
      LoneRun(Step(s, moves[0], retryTimeoutMs), moves[1..], retryTimeoutMs);
    }
  }

  /** In every run each probe starts at least the retry timeout after the latest opening. */
  ghost predicate ProbesAreOnTime(threads: nat, now: nat, retryTimeoutMs: nat) {
    forall s, i :: Reaches(Init(threads, now), s, retryTimeoutMs) && StartsProbe(s, i) ==>
      s.openings != [] && Since(s) >= retryTimeoutMs
  }

  lemma LoneProbeIsOnTime(threads: nat, now: nat, moves: seq<Move>, i: nat, retryTimeoutMs: nat)
    requires threads <= 1 && CanRun(Init(threads, now), moves, retryTimeoutMs)
    requires StartsProbe(Run(Init(threads, now), moves, retryTimeoutMs), i)
    ensures var s := Run(Init(threads, now), moves, retryTimeoutMs);
      s.openings != [] && Since(s) >= retryTimeoutMs
  {
    LoneRun(Init(threads, now), moves, retryTimeoutMs);
    ProbeIsOnTimeIff(threads, now, moves, i, retryTimeoutMs);
  }

  lemma ProbeFollowsOpening(threads: nat, now: nat, moves: seq<Move>, i: nat, retryTimeoutMs: nat)
    requires CanRun(Init(threads, now), moves, retryTimeoutMs)
    requires StartsProbe(Run(Init(threads, now), moves, retryTimeoutMs), i)
    ensures var s := Run(Init(threads, now), moves, retryTimeoutMs); s.openings != [] && Since(s) >= 0
  {
    EveryRunKeepsTimes(Init(threads, now), moves, retryTimeoutMs);
  }

  /** For which breakers that is so: those that one thread alone uses, and those without a timeout. */
  lemma ProbesAreOnTimeIff(threads: nat, now: nat, retryTimeoutMs: nat)
    ensures ProbesAreOnTime(threads, now, retryTimeoutMs) <==> threads <= 1 || retryTimeoutMs == 0
  {
    if threads <= 1 || retryTimeoutMs == 0 {
      forall s, i | Reaches(Init(threads, now), s, retryTimeoutMs) && StartsProbe(s, i)
        ensures s.openings != [] && Since(s) >= retryTimeoutMs
      {
        var moves :|
          CanRun(Init(threads, now), moves, retryTimeoutMs) && Run(Init(threads, now), moves, retryTimeoutMs) == s;
        if threads <= 1 {
          LoneProbeIsOnTime(threads, now, moves, i, retryTimeoutMs);
        } else {
          ProbeFollowsOpening(threads, now, moves, i, retryTimeoutMs);
        }
      }
    } else {
      ProbeBeforeTheStore(threads, now, retryTimeoutMs);
    }
  }
}
