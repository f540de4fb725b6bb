/** The throttling checker: a leaky bucket that gives every request its place in a schedule. */
module Throttling {

  datatype Outcome = Pass | Wait(ms: int) | Blocked

  /** std::round of a non-negative number: halves go up. */
  function Round(x: real): int {
    (x + 0.5).Floor
  }

  /** The time a request takes up, in milliseconds. */
  function Cost(acquireCount: int, threshold: real): int
    requires threshold > 0.0
  {
    Round(acquireCount as real / threshold * 1000.0)
  }

  /** One call, with its readings of the clock. */
  datatype Request = Request(t1: int, t2: int, t3: int, count: int)

  datatype Result = Result(last: int, outcome: Outcome)

  function Check(last: int, r: Request, threshold: real, maxTimeout: int): Result {
    if r.count < 0 then Result(last, Pass)
    else if threshold <= 0.0 then Result(last, Blocked)
    else
      var next := last + Cost(r.count, threshold);
      if next <= r.t1 then Result(r.t1, Pass)
      else if next - r.t2 > maxTimeout || next - r.t3 > maxTimeout then Result(last, Blocked)
      else Result(next, if next - r.t3 > 0 then Wait(next - r.t3) else Pass)
  }

  class ThrottlingChecker {
    const maxTimeout: int
    /** Not initialised by the constructor. */
    var lastPassedTime: int

    constructor (maxTimeout: int, uninitialised: int)
      ensures this.maxTimeout == maxTimeout && lastPassedTime == uninitialised
    {
      this.maxTimeout := maxTimeout;
      lastPassedTime := uninitialised;
    }

    method DoCheck(acquireCount: int, threshold: real, t1: int, t2: int, t3: int) returns (outcome: Outcome)
      modifies this
      ensures Result(lastPassedTime, outcome)
           == Check(old(lastPassedTime), Request(t1, t2, t3, acquireCount), threshold, maxTimeout)
    {
      if acquireCount < 0 {
        return Pass;
      }
      if threshold <= 0.0 {
        return Blocked;
      }
      var costTime := Round(acquireCount as real / threshold * 1000.0);
      var expectedTime := costTime + lastPassedTime;
      if expectedTime <= t1 {
        lastPassedTime := t1;
        return Pass;
      }
      var waitTime := costTime + lastPassedTime - t2;
      if waitTime > maxTimeout {
        return Blocked;
      }
      var oldTime := costTime + lastPassedTime;
      lastPassedTime := lastPassedTime + costTime;
      waitTime := oldTime - t3;
      if waitTime > maxTimeout {
        lastPassedTime := lastPassedTime - costTime;
        return Blocked;
      }
      if waitTime > 0 {
        return Wait(waitTime);
      }
      return Pass;
    }
  }

  // ---------------------------------------------------------------- runs

  /** Each request reads the clock in order, after the one before; counts are not negative. */
  predicate InTime(rs: seq<Request>, clock: int)
    decreases |rs|
  {
    rs == [] || (clock <= rs[0].t1 <= rs[0].t2 <= rs[0].t3 && rs[0].count >= 0 && InTime(rs[1..], rs[0].t3))
  }

  /** An accepted request: its scheduled time, its cost, its tokens, and the time it came. */
  datatype Slot = Slot(scheduled: int, cost: int, count: int, arrived: int)

  function Last(last: int, rs: seq<Request>, threshold: real, maxTimeout: int): int
    decreases |rs|
  {
    if rs == [] then last else Last(Check(last, rs[0], threshold, maxTimeout).last, rs[1..], threshold, maxTimeout)
  }

  function Accepted(last: int, rs: seq<Request>, threshold: real, maxTimeout: int): seq<Slot>
    requires threshold > 0.0
    decreases |rs|
  {
    if rs == [] then []
    else
      var r := Check(last, rs[0], threshold, maxTimeout);
      (if r.outcome != Blocked then [Slot(r.last, Cost(rs[0].count, threshold), rs[0].count, rs[0].t1)]
       else [])
      + Accepted(r.last, rs[1..], threshold, maxTimeout)
  }

  /** The second timeout check finds nothing the first did not: whether a request is blocked, and where the schedule
      moves to, is settled by the readings before it. */
  lemma SecondCheckIsIdle(last: int, r: Request, threshold: real, maxTimeout: int)
    requires r.t2 <= r.t3
    ensures var now, early := Check(last, r, threshold, maxTimeout), Check(last, r.(t3 := r.t2), threshold, maxTimeout);
      (now.outcome == Blocked <==> early.outcome == Blocked) && now.last == early.last
    ensures threshold > 0.0 && r.count >= 0 ==>
      (Check(last, r, threshold, maxTimeout).outcome == Blocked
       <==> last + Cost(r.count, threshold) > r.t1 && last + Cost(r.count, threshold) > r.t2 + maxTimeout)
  {
  }

  /** The exact decision. A request's place is its cost after the last one, or its own time when that is over. It is
      blocked if and only if its place lies ahead, and more than the timeout; otherwise the schedule moves to just that
      place, and the request waits for it if it has not come yet. */
  lemma WaitEndsOnSchedule(last: int, r: Request, threshold: real, maxTimeout: int)
    requires threshold > 0.0 && r.count >= 0 && r.t1 <= r.t2 <= r.t3
    ensures var d, due := Check(last, r, threshold, maxTimeout), last + Cost(r.count, threshold);
      var place := if due <= r.t1 then r.t1 else due;
      if place > r.t1 && place - r.t2 > maxTimeout then d == Result(last, Blocked)
      else d == Result(place, if place > r.t3 then Wait(place - r.t3) else Pass)
    ensures match Check(last, r, threshold, maxTimeout).outcome
      case Wait(ms) => 0 < ms <= maxTimeout
      case _ => true
  {
  }

  /** Without tokens to ask for nothing is scheduled, and without a threshold nothing passes. */
  lemma NothingToSchedule(last: int, r: Request, threshold: real, maxTimeout: int)
    requires r.count < 0 || threshold <= 0.0
    ensures Check(last, r, threshold, maxTimeout) == Result(last, if r.count < 0 then Pass else Blocked)
  {
  }

  lemma AcceptedMoves(last: int, r: Request, threshold: real, maxTimeout: int)
    requires threshold > 0.0 && r.count >= 0
    ensures var d := Check(last, r, threshold, maxTimeout);
      if d.outcome == Blocked then d.last == last else d.last >= last + Cost(r.count, threshold)
  {
  }

  /** A cost is the request's share of a second at the threshold, within half a millisecond. */
  lemma CostBounds(count: nat, threshold: real)
    requires threshold > 0.0
    ensures 0 <= Cost(count, threshold)
    ensures count as real <= threshold * ((Cost(count, threshold) as real + 0.5) / 1000.0)
    ensures threshold * ((Cost(count, threshold) as real - 0.5) / 1000.0) <= count as real
    ensures var exact := count as real / threshold * 1000.0;
      Cost(count, threshold) as real - 0.5 <= exact < Cost(count, threshold) as real + 0.5
  {
    var q, c := count as real / threshold, Cost(count, threshold);
    QuotientSign(count as real, threshold);
    assert c as real - 0.5 <= q * 1000.0 <= c as real + 0.5;
    ScaleUp(q, (c as real + 0.5) / 1000.0, threshold);
    ScaleUp((c as real - 0.5) / 1000.0, q, threshold);
    assert q * threshold == count as real;
    Commutes(threshold, q);
  }

  lemma Commutes(a: real, b: real)
    ensures a * b == b * a
  {
  }

  lemma QuotientSign(a: real, b: real)
    requires a >= 0.0 && b > 0.0
    ensures a / b >= 0.0
  {
  }

  lemma ScaleUp(a: real, b: real, k: real)
    requires a <= b && k >= 0.0
    ensures k * a <= k * b
  {
    assert k * (b - a) >= 0.0;
  }

  // ---------------------------------------------------------------- pacing

  function Costs(slots: seq<Slot>): int {
    if slots == [] then 0 else slots[0].cost + Costs(slots[1..])
  }

  function Tokens(slots: seq<Slot>): int {
    if slots == [] then 0 else slots[0].count + Tokens(slots[1..])
  }

  /** Each slot is scheduled at least its cost after the one before. */
  predicate Paced(slots: seq<Slot>, last: int) {
    slots == [] || (slots[0].scheduled >= last + slots[0].cost && Paced(slots[1..], slots[0].scheduled))
  }

  lemma {:induction false} RunIsPaced(last: int, rs: seq<Request>, threshold: real, maxTimeout: int, clock: int)
    requires threshold > 0.0 && InTime(rs, clock)
    ensures Paced(Accepted(last, rs, threshold, maxTimeout), last)
    decreases |rs|
  {
    if rs != [] {
      var d := Check(last, rs[0], threshold, maxTimeout);
      AcceptedMoves(last, rs[0], threshold, maxTimeout);
      RunIsPaced(d.last, rs[1..], threshold, maxTimeout, rs[0].t3);
      var rest := Accepted(d.last, rs[1..], threshold, maxTimeout);
      if d.outcome == Blocked {
        assert [] + rest == rest;
      } else {
        var s := Slot(d.last, Cost(rs[0].count, threshold), rs[0].count, rs[0].t1);
        assert ([s] + rest)[1..] == rest;
      }
    }
  }

  lemma {:induction false} PacedTotal(slots: seq<Slot>, last: int, k: nat)
    requires Paced(slots, last) && k < |slots|
    ensures slots[k].scheduled - last >= Costs(slots[..k + 1])
  {
    if k == 0 {
      assert slots[..1] == [slots[0]] && [slots[0]][1..] == [];
    } else {
      PacedTotal(slots[1..], slots[0].scheduled, k - 1);
      assert slots[..k + 1][1..] == slots[1..][..k];
    }
  }

  lemma {:induction false} PacedFrom(slots: seq<Slot>, last: int, i: nat)
    requires Paced(slots, last) && i < |slots|
    ensures Paced(slots[i + 1..], slots[i].scheduled)
  {
    if i > 0 {
      PacedFrom(slots[1..], slots[0].scheduled, i - 1);
      assert slots[1..][i..] == slots[i + 1..];
    }
  }

  /** The pacing theorem: accepted requests i < j are scheduled at least the costs of i + 1 .. j apart. */
  lemma Pacing(last: int, rs: seq<Request>, threshold: real, maxTimeout: int, clock: int, i: nat, j: nat)
    requires threshold > 0.0 && InTime(rs, clock)
    requires i < j < |Accepted(last, rs, threshold, maxTimeout)|
    ensures var a := Accepted(last, rs, threshold, maxTimeout);
      a[j].scheduled - a[i].scheduled >= Costs(a[i + 1..j + 1])
  {
    var a := Accepted(last, rs, threshold, maxTimeout);
    RunIsPaced(last, rs, threshold, maxTimeout, clock);
    PacedFrom(a, last, i);
    PacedTotal(a[i + 1..], a[i].scheduled, j - i - 1);
    assert a[i + 1..][..j - i] == a[i + 1..j + 1];
  }

  // ---------------------------------------------------------------- no later than needed

  /** Each slot is its cost after the one before, or when its request came if that is later. */
  predicate IsTight(slots: seq<Slot>, last: int) {
    slots == []
    || ((slots[0].scheduled == last + slots[0].cost || slots[0].scheduled == slots[0].arrived)
        && slots[0].scheduled >= last + slots[0].cost && slots[0].scheduled >= slots[0].arrived
        && IsTight(slots[1..], slots[0].scheduled))
  }

  lemma {:induction false} RunIsTight(last: int, rs: seq<Request>, threshold: real, maxTimeout: int, clock: int)
    requires threshold > 0.0 && InTime(rs, clock)
    ensures IsTight(Accepted(last, rs, threshold, maxTimeout), last)
    decreases |rs|
  {
    if rs != [] {
      var d := Check(last, rs[0], threshold, maxTimeout);
      WaitEndsOnSchedule(last, rs[0], threshold, maxTimeout);
      RunIsTight(d.last, rs[1..], threshold, maxTimeout, rs[0].t3);
      var rest := Accepted(d.last, rs[1..], threshold, maxTimeout);
      if d.outcome == Blocked {
        assert [] + rest == rest;
      } else {
        var s := Slot(d.last, Cost(rs[0].count, threshold), rs[0].count, rs[0].t1);
        assert ([s] + rest)[1..] == rest;
      }
    }
  }

  /** Times for the accepted requests that keep their costs apart and precede no arrival. */
  predicate IsSchedule(slots: seq<Slot>, times: seq<int>, last: int) {
    |times| == |slots|
    && (slots == []
        || (times[0] >= last + slots[0].cost && times[0] >= slots[0].arrived
            && IsSchedule(slots[1..], times[1..], times[0])))
  }

  lemma {:induction false} TightIsEarliest(slots: seq<Slot>, last: int, times: seq<int>, from: int, k: nat)
    requires IsTight(slots, last) && IsSchedule(slots, times, from) && last <= from && k < |slots|
    ensures slots[k].scheduled <= times[k]
  {
    if k > 0 {
      TightIsEarliest(slots[1..], slots[0].scheduled, times[1..], times[0], k - 1);
    }
  }

  /** The accepted requests get the earliest schedule there is: no other that keeps the costs apart and precedes no
      arrival has any of them sooner. */
  lemma EarliestSchedule(last: int, rs: seq<Request>, threshold: real, maxTimeout: int, clock: int, times: seq<int>,
                         k: nat)
    requires threshold > 0.0 && InTime(rs, clock)
    requires IsSchedule(Accepted(last, rs, threshold, maxTimeout), times, last) && k < |times|
    ensures Accepted(last, rs, threshold, maxTimeout)[k].scheduled <= times[k]
  {
    RunIsTight(last, rs, threshold, maxTimeout, clock);
    TightIsEarliest(Accepted(last, rs, threshold, maxTimeout), last, times, last, k);
  }

  lemma {:induction false} ScheduledTimes(slots: seq<Slot>, last: int) returns (times: seq<int>)
    requires IsTight(slots, last)
    ensures IsSchedule(slots, times, last) && forall k :: 0 <= k < |slots| ==> times[k] == slots[k].scheduled
  {
    if slots == [] {
      times := [];
    } else {
      var rest := ScheduledTimes(slots[1..], slots[0].scheduled);
      times := [slots[0].scheduled] + rest;
      assert times[1..] == rest;
    }
  }

  /** And it is one itself. */
  lemma RunIsSchedule(last: int, rs: seq<Request>, threshold: real, maxTimeout: int, clock: int)
      returns (times: seq<int>)
    requires threshold > 0.0 && InTime(rs, clock)
    ensures var a := Accepted(last, rs, threshold, maxTimeout);
      IsSchedule(a, times, last) && forall k :: 0 <= k < |a| ==> times[k] == a[k].scheduled
  {
    RunIsTight(last, rs, threshold, maxTimeout, clock);
    times := ScheduledTimes(Accepted(last, rs, threshold, maxTimeout), last);
  }

  // ---------------------------------------------------------------- tokens

  ghost predicate Costed(slots: seq<Slot>, threshold: real)
    requires threshold > 0.0
  {
    forall i :: 0 <= i < |slots| ==> slots[i].count >= 0 && slots[i].cost == Cost(slots[i].count, threshold)
  }

  lemma {:induction false} AcceptedAreCosted(last: int, rs: seq<Request>, threshold: real, maxTimeout: int, clock: int)
    requires threshold > 0.0 && InTime(rs, clock)
    ensures Costed(Accepted(last, rs, threshold, maxTimeout), threshold)
    decreases |rs|
  {
    if rs != [] {
      AcceptedAreCosted(Check(last, rs[0], threshold, maxTimeout).last, rs[1..], threshold, maxTimeout, rs[0].t3);
    }
  }

  /** The threshold, per second, over `span` milliseconds and half a millisecond for each of n requests. */
  function Allowance(threshold: real, span: int, n: nat): real {
    threshold * ((span as real + 0.5 * n as real) / 1000.0)
  }

  lemma AllowanceAdds(threshold: real, a: int, b: int, n: nat)
    ensures threshold * ((a as real + 0.5) / 1000.0) + Allowance(threshold, b, n) == Allowance(threshold, a + b, n + 1)
  {
    var x, y := a as real + 0.5, b as real + 0.5 * n as real;
    Distribute(threshold, x, y);
    assert x + y == (a + b) as real + 0.5 * (n + 1) as real;
  }

  lemma AllowanceGrows(threshold: real, a: int, b: int, n: nat)
    requires threshold >= 0.0 && a <= b
    ensures Allowance(threshold, a, n) <= Allowance(threshold, b, n)
  {
    var h := 0.5 * n as real;
    ScaleUp((a as real + h) / 1000.0, (b as real + h) / 1000.0, threshold);
  }

  /** Tokens cost their share of the schedule, up to half a millisecond a request. */
  lemma {:induction false} TokensCost(slots: seq<Slot>, threshold: real)
    requires threshold > 0.0 && Costed(slots, threshold)
    ensures Tokens(slots) as real <= Allowance(threshold, Costs(slots), |slots|)
  {
    if slots == [] {
      ScaleUp(0.0, 0.0, threshold);
      assert Allowance(threshold, 0, 0) == threshold * 0.0;
    } else {
      CostBounds(slots[0].count, threshold);
      TokensCost(slots[1..], threshold);
      AllowanceAdds(threshold, slots[0].cost, Costs(slots[1..]), |slots| - 1);
    }
  }

  lemma Distribute(k: real, a: real, b: real)
    ensures k * (a / 1000.0) + k * (b / 1000.0) == k * ((a + b) / 1000.0)
  {
    assert a / 1000.0 + b / 1000.0 == (a + b) / 1000.0;
  }

  /** The schedule never runs further ahead of the clock than the timeout, except where it began. */
  lemma {:induction false} ScheduleWithinTimeout(last: int, rs: seq<Request>, threshold: real, maxTimeout: int,
                                                 clock: int, end: int, k: nat)
    requires threshold > 0.0 && InTime(rs, clock) && maxTimeout >= 0
    requires forall i :: 0 <= i < |rs| ==> rs[i].t3 <= end
    requires k < |Accepted(last, rs, threshold, maxTimeout)|
    ensures clock <= Accepted(last, rs, threshold, maxTimeout)[k].scheduled <= end + maxTimeout
    decreases |rs|
  {
    var d := Check(last, rs[0], threshold, maxTimeout);
    var rest := Accepted(d.last, rs[1..], threshold, maxTimeout);
    if d.outcome == Blocked {
      assert [] + rest == rest;
      ScheduleWithinTimeout(d.last, rs[1..], threshold, maxTimeout, rs[0].t3, end, k);
    } else if k > 0 {
      ScheduleWithinTimeout(d.last, rs[1..], threshold, maxTimeout, rs[0].t3, end, k - 1);
    }
  }

  lemma TokensOfPaced(a: seq<Slot>, threshold: real, last: int, from: int, to: int)
    requires threshold > 0.0 && Costed(a, threshold) && Paced(a, last) && a != []
    requires from <= a[0].scheduled && a[|a| - 1].scheduled <= to
    ensures Tokens(a[1..]) as real <= Allowance(threshold, to - from, |a| - 1)
  {
    var later := a[1..];
    if later != [] {
      PacedTotal(later, a[0].scheduled, |later| - 1);
      assert later[..|later|] == later;
    }
    TokensCost(later, threshold);
    AllowanceGrows(threshold, Costs(later), to - from, |later|);
  }

  /** The tokens accepted after the first request are bounded by the threshold over the elapsed time, the timeout and
      half a millisecond a request, whatever value the schedule started from. */
  lemma TokensBounded(last: int, rs: seq<Request>, threshold: real, maxTimeout: int, clock: int, end: int)
    requires threshold > 0.0 && InTime(rs, clock) && maxTimeout >= 0
    requires forall i :: 0 <= i < |rs| ==> rs[i].t3 <= end
    requires Accepted(last, rs, threshold, maxTimeout) != []
    ensures var a := Accepted(last, rs, threshold, maxTimeout);
      Tokens(a[1..]) as real <= Allowance(threshold, end + maxTimeout - clock, |a| - 1)
  {
    var a := Accepted(last, rs, threshold, maxTimeout);
    AcceptedAreCosted(last, rs, threshold, maxTimeout, clock);
    RunIsPaced(last, rs, threshold, maxTimeout, clock);
    ScheduleWithinTimeout(last, rs, threshold, maxTimeout, clock, end, 0);
    ScheduleWithinTimeout(last, rs, threshold, maxTimeout, clock, end, |a| - 1);
    TokensOfPaced(a, threshold, last, clock, end + maxTimeout);
  }

  /** Between any two accepted requests the tokens are bounded by the threshold over their distance on the schedule and
      half a millisecond a request. */
  lemma TokensBetween(last: int, rs: seq<Request>, threshold: real, maxTimeout: int, clock: int, i: nat, j: nat)
    requires threshold > 0.0 && InTime(rs, clock)
    requires i < j < |Accepted(last, rs, threshold, maxTimeout)|
    ensures var a := Accepted(last, rs, threshold, maxTimeout);
      Tokens(a[i + 1..j + 1]) as real <= Allowance(threshold, a[j].scheduled - a[i].scheduled, j - i)
  {
    var a := Accepted(last, rs, threshold, maxTimeout);
    AcceptedAreCosted(last, rs, threshold, maxTimeout, clock);
    Pacing(last, rs, threshold, maxTimeout, clock, i, j);
    TokensCost(a[i + 1..j + 1], threshold);
    AllowanceGrows(threshold, Costs(a[i + 1..j + 1]), a[j].scheduled - a[i].scheduled, j - i);
  }
}
