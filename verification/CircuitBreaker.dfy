/** The breaker as an object: sequential calls on its counters, its state and its retry timestamp. */
module CircuitBreaker {
  import opened Ring
  import opened LeapArray
  import opened BreakerSpec

  ghost function SumOfSeq(values: seq<Counter>, f: Counter -> int): int {
    if values == [] then 0 else f(values[0]) + SumOfSeq(values[1..], f)
  }

  lemma {:induction false} SumOfValues(sh: Shape, slots: Slots<Counter>, t: int, f: Counter -> int)
    ensures SumOfSeq(ValuesOf(Live(sh, slots, t)), f) == SumOfLive(sh, slots, t, f)
  {
    if slots != [] {
      SumOfValues(sh, slots[1..], t, f);
      var rest := Live(sh, slots[1..], t);
      if IsLive(sh, t, slots[0]) {
        var all := ValuesOf([slots[0].value] + rest);
        assert all[1..] == ValuesOf(rest);
      } else {
        assert [] + rest == rest;
      }
    }
  }

  class CircuitBreaker {
    const rule: Rule
    var currentState: State
    var nextRetryTimestamp: int
    const slidingCounter: LeapArray<Counter>

    ghost predicate Valid()
      reads this, slidingCounter, slidingCounter.slots
    {
      && IsValidRule(rule) && slidingCounter.Valid()
      && slidingCounter.shape == ShapeOf(rule) && slidingCounter.empty == ZERO
    }

    ghost function Contents(): Breaker
      reads this, slidingCounter, slidingCounter.slots
    {
      Breaker(currentState, nextRetryTimestamp, slidingCounter.Contents())
    }

    constructor (rule: Rule)
      requires IsValidRule(rule)
      ensures Valid() && fresh(slidingCounter) && fresh(slidingCounter.slots)
      ensures this.rule == rule && Contents() == NewBreaker(rule)
    {
      this.rule := rule;
      currentState, nextRetryTimestamp := Closed, 0;
      slidingCounter := new LeapArray(1, rule.statIntervalMs, ZERO);
    }

    method RetryTimeoutArrived(t: nat) returns (arrived: bool)
      ensures arrived == (t >= nextRetryTimestamp)
    {
      arrived := t >= nextRetryTimestamp;
    }

    /** compare_exchange_strong on the state. */
    method CompareExchange(expected: State, desired: State) returns (ok: bool)
      modifies this`currentState
      ensures ok == (old(currentState) == expected)
      ensures currentState == if ok then desired else old(currentState)
    {
      ok := currentState == expected;
      if ok {
        currentState := desired;
      }
    }

    method FromCloseToOpen(t: nat) returns (ok: bool)
      modifies this`currentState, this`nextRetryTimestamp
      ensures ok == (old(currentState) == Closed)
      ensures currentState == if ok then Open else old(currentState)
      ensures nextRetryTimestamp == if ok then t + rule.retryTimeoutMs else old(nextRetryTimestamp)
    {
      ok := CompareExchange(Closed, Open);
      if ok {
        nextRetryTimestamp := t + rule.retryTimeoutMs;
      }
    }

    method FromHalfOpenToOpen(t: nat) returns (ok: bool)
      modifies this`currentState, this`nextRetryTimestamp
      ensures ok == (old(currentState) == HalfOpen)
      ensures currentState == if ok then Open else old(currentState)
      ensures nextRetryTimestamp == if ok then t + rule.retryTimeoutMs else old(nextRetryTimestamp)
    {
      ok := CompareExchange(HalfOpen, Open);
      if ok {
        nextRetryTimestamp := t + rule.retryTimeoutMs;
      }
    }

    method FromHalfOpenToClose(t: nat) returns (ok: bool)
      requires Valid()
      modifies this`currentState, slidingCounter.slots
      ensures Valid() && ok == (old(currentState) == HalfOpen)
      ensures currentState == if ok then Closed else old(currentState)
      ensures slidingCounter.Contents()
           == if ok then Count(rule, old(slidingCounter.Contents()), t, Clear) else old(slidingCounter.Contents())
    {
      ok := CompareExchange(HalfOpen, Closed);
      if ok {
        slidingCounter.Update(t, c => Apply(c, Clear));
      }
    }

    method TryPass(t: nat) returns (passes: bool)
      requires Valid()
      modifies this`currentState
      ensures Valid()
      ensures Contents() == BreakerSpec.TryPass(old(Contents()), t).breaker
      ensures passes == BreakerSpec.TryPass(old(Contents()), t).passes
    {
      if currentState == Closed {
        return true;
      }
      if currentState == Open {
        passes := RetryTimeoutArrived(t);
        if passes {
          passes := CompareExchange(Open, HalfOpen);
        }
        return;
      }
      return false;
    }

    /** The loop over the live counters. */
    method SumUp(t: nat) returns (bad: int, total: int)
      requires Valid()
      ensures bad == SumOfLive(ShapeOf(rule), slidingCounter.Contents(), t, BadOf())
      ensures total == SumOfLive(ShapeOf(rule), slidingCounter.Contents(), t, TotalOf())
    {
      var counters := slidingCounter.Values(t);
      SumOfValues(ShapeOf(rule), slidingCounter.Contents(), t, BadOf());
      SumOfValues(ShapeOf(rule), slidingCounter.Contents(), t, TotalOf());
      bad, total := 0, 0;
      var i := 0;
      assert counters[0..] == counters;
      while i < |counters|
        invariant 0 <= i <= |counters|
        invariant bad + SumOfSeq(counters[i..], BadOf()) == SumOfSeq(counters, BadOf())
        invariant total + SumOfSeq(counters[i..], TotalOf()) == SumOfSeq(counters, TotalOf())
      {
        assert counters[i..][1..] == counters[i + 1..];
        bad := bad + counters[i].bad;
        total := total + counters[i].total;
        i := i + 1;
      }
    }

    method HandleStateChange(at: Clocks, isBad: bool)
      requires Valid()
      modifies this`currentState, this`nextRetryTimestamp, slidingCounter.slots
      ensures Valid()
      ensures old(currentState) == Open ==> Contents() == old(Contents())
      ensures old(currentState) == HalfOpen ==>
        Contents() == if isBad then old(Contents()).(state := Open, nextRetry := at.last + rule.retryTimeoutMs)
                      else old(Contents()).(state := Closed,
                                                 slots := Count(rule, old(Contents()).slots, at.last, Clear))
      ensures old(currentState) == Closed ==>
        var bad := SumOfLive(ShapeOf(rule), old(Contents()).slots, at.sum, BadOf());
        var total := SumOfLive(ShapeOf(rule), old(Contents()).slots, at.sum, TotalOf());
        var tooMany := total >= rule.minRequestAmount
          && if rule.strategy == ErrorCount then bad as real > rule.threshold
             else total > 0 && bad as real / total as real > rule.threshold;
        Contents() == if tooMany
                      then old(Contents()).(state := Open, nextRetry := at.last + rule.retryTimeoutMs)
                      else old(Contents())
    {
      if currentState == Open {
        return;
      }
      if currentState == HalfOpen {
        if isBad {
          var _ := FromHalfOpenToOpen(at.last);
        } else {
          var _ := FromHalfOpenToClose(at.last);
        }
        return;
      }
      var bad, total := SumUp(at.sum);
      TripsInNumbers(rule, bad, total);
      if total < rule.minRequestAmount {
        return;
      }
      if Exceeds(rule, bad, total) {
        var _ := FromCloseToOpen(at.last);
      }
    }

    method RecordComplete(at: Clocks, c: Completion)
      requires Valid()
      modifies this`currentState, this`nextRetryTimestamp, slidingCounter.slots
      ensures Valid() && Contents() == BreakerSpec.RecordComplete(rule, old(Contents()), at, c)
    {
      var bad := IsBad(rule, c);
      slidingCounter.Update(at.count, x => Apply(x, Done(bad)));
      HandleStateChange(at, bad);
    }
  }
}
