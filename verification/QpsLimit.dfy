/** The default checker with a QPS rule: how many tokens a sequential run can pass. */
module QpsLimit {
  import opened Ring
  import opened SlidingWindow

  /** DefaultTrafficShapingChecker::DoCheck. */
  predicate Admits(curPass: real, acquireCount: int, threshold: real) {
    !(curPass + acquireCount as real > threshold)
  }

  /** The rate of `sum` events over the interval, per second. */
  function Rate(sum: int, interval: nat): real
    requires interval >= 1
  {
    sum as real / (interval as real / 1000.0)
  }

  /** An entry reads the clock twice to sum up the window and once more to record its outcome; `othersPass` tells
      what the other slots and rules say. Other calls record anything that is not a pass. */
  datatype Step =
    | Enter(t1: nat, t2: nat, t3: nat, count: int, othersPass: bool)
    | Other(t: nat, event: Event)

  predicate IsStep(s: Step, clock: nat) {
    match s
    case Enter(t1, t2, t3, count, _) => clock <= t1 <= t2 <= t3 && count >= 0
    case Other(t, e) => clock <= t && (e.Count? ==> e.event != PASS)
  }

  function EndOf(s: Step): nat {
    if s.Enter? then s.t3 else s.t
  }

  predicate Passes(sh: Shape, threshold: real, h: History, s: Step)
    requires IsExact(sh) && s.Enter?
  {
    s.othersPass
    && Admits(Rate(InSight(sh, h, Horizon(sh, Id(sh, s.t1), s.t2), Weight(PASS)), sh.interval), s.count, threshold)
  }

  function Next(sh: Shape, threshold: real, h: History, s: Step): History
    requires IsExact(sh)
  {
    match s
    case Enter(_, _, t3, count, _) =>
      h + [Stamped(t3, Count(if Passes(sh, threshold, h, s) then PASS else BLOCK, count))]
    case Other(t, e) => h + [Stamped(t, e)]
  }

  predicate IsRun(steps: seq<Step>, clock: nat) {
    steps == [] || (IsStep(steps[0], clock) && IsRun(steps[1..], EndOf(steps[0])))
  }

  function Run(sh: Shape, threshold: real, h: History, steps: seq<Step>): History
    requires IsExact(sh)
    decreases |steps|
  {
    if steps == [] then h else Run(sh, threshold, Next(sh, threshold, h, steps[0]), steps[1..])
  }

  // ---------------------------------------------------------------- tokens

  function Tokens(e: Event): int {
    Weight(PASS)(e)
  }

  /** The tokens passed in the bucket ids from lo + 1 to hi. */
  function Passed(sh: Shape, h: History, lo: int, hi: int): int
    requires IsShape(sh)
  {
    if h == [] then 0
    else
      var e := h[|h| - 1];
      Passed(sh, h[..|h| - 1], lo, hi) + if lo < Id(sh, e.time) <= hi then Tokens(e.event) else 0
  }

  /** The tokens passed in the `samples` consecutive bucket ids up to m. */
  function PassedUpTo(sh: Shape, h: History, m: int): int
    requires IsShape(sh)
  {
    Passed(sh, h, m - sh.samples, m)
  }

  /** The tokens passed from time `from` to time `to`. */
  function PassedBetween(h: History, from: int, to: int): int {
    if h == [] then 0
    else
      var e := h[|h| - 1];
      PassedBetween(h[..|h| - 1], from, to) + if from <= e.time <= to then Tokens(e.event) else 0
  }

  ghost predicate NonNegative(h: History) {
    forall i :: 0 <= i < |h| ==> Tokens(h[i].event) >= 0
  }

  lemma {:induction false} PassedIsInSight(sh: Shape, h: History, lo: int, hi: int, wider: int)
    requires IsShape(sh) && NonNegative(h) && wider <= lo
    ensures 0 <= Passed(sh, h, lo, hi) <= InSight(sh, h, wider, Weight(PASS))
  {
    if h != [] {
      assert Tokens(h[|h| - 1].event) >= 0;
      PassedIsInSight(sh, h[..|h| - 1], lo, hi, wider);
    }
  }

  lemma PassedLast(sh: Shape, h: History, s: Stamped<Event>, lo: int, hi: int)
    requires IsShape(sh)
    ensures Passed(sh, h + [s], lo, hi)
         == Passed(sh, h, lo, hi) + if lo < Id(sh, s.time) <= hi then Tokens(s.event) else 0
  {
    assert (h + [s])[..|h + [s]| - 1] == h;
  }

  /** What the rule allows in a window: the configured rate over the interval, or one second's worth when the
      interval is shorter than a second. */
  function Allowance(threshold: real, interval: nat): real {
    if interval >= 1000 then threshold * (interval as real / 1000.0) else threshold
  }

  lemma CheckedSum(sum: int, before: int, count: int, threshold: real, interval: nat)
    requires interval >= 1 && 0 <= before <= sum && count >= 0
    requires Admits(Rate(sum, interval), count, threshold)
    ensures (before + count) as real <= Allowance(threshold, interval)
  {
    var i, q, a := interval as real / 1000.0, Rate(sum, interval), count as real;
    assert q * i == sum as real;
    SignOfProduct(q, i);
    if interval >= 1000 {
      assert i >= 1.0;
      Scale(a, i);
      assert q * i + a * i == (q + a) * i;
      ScaleBoth(q + a, threshold, i);
    } else {
      assert i <= 1.0;
      Shrink(q, i);
    }
  }

  lemma SignOfProduct(q: real, i: real)
    requires i > 0.0
    ensures q < 0.0 ==> q * i < 0.0
  {
    if q < 0.0 {
      assert (-q) * i > 0.0;
    }
  }

  lemma Scale(a: real, i: real)
    requires a >= 0.0 && i >= 1.0
    ensures a <= a * i
  {
    assert a * (i - 1.0) >= 0.0;
  }

  lemma Shrink(a: real, i: real)
    requires a >= 0.0 && i <= 1.0
    ensures a * i <= a
  {
    assert a * (1.0 - i) >= 0.0;
  }

  lemma ScaleBoth(a: real, b: real, i: real)
    requires a <= b && i >= 0.0
    ensures a * i <= b * i
  {
    assert (b - a) * i >= 0.0;
  }

  /** What every step keeps: no window of consecutive buckets holds more than the allowance. */
  ghost predicate WithinAllowance(sh: Shape, threshold: real, h: History)
    requires IsShape(sh)
  {
    forall m :: PassedUpTo(sh, h, m) as real <= Allowance(threshold, sh.interval)
  }

  lemma HorizonBefore(sh: Shape, t1: nat, t2: nat, t3: nat)
    requires IsExact(sh) && t1 <= t2 <= t3
    ensures Horizon(sh, Id(sh, t1), t2) <= Id(sh, t3) - sh.samples
  {
    IdMonotone(sh, t2, t3);
  }

  lemma StepWithinAllowance(sh: Shape, threshold: real, h: History, s: Step, clock: nat)
    requires IsExact(sh) && IsStep(s, clock) && NonNegative(h) && WithinAllowance(sh, threshold, h)
    ensures NonNegative(Next(sh, threshold, h, s)) && WithinAllowance(sh, threshold, Next(sh, threshold, h, s))
  {
    var g := Next(sh, threshold, h, s);
    var e := g[|g| - 1];
    assert g == h + [e] && e.time == EndOf(s);
    forall m ensures PassedUpTo(sh, g, m) as real <= Allowance(threshold, sh.interval) {
      PassedLast(sh, h, e, m - sh.samples, m);
      assert PassedUpTo(sh, h, m) as real <= Allowance(threshold, sh.interval);
      if s.Enter? && Passes(sh, threshold, h, s) && m - sh.samples < Id(sh, e.time) <= m {
        var lo := Horizon(sh, Id(sh, s.t1), s.t2);
        HorizonBefore(sh, s.t1, s.t2, s.t3);
        PassedIsInSight(sh, h, m - sh.samples, m, lo);
        CheckedSum(InSight(sh, h, lo, Weight(PASS)), Passed(sh, h, m - sh.samples, m), s.count, threshold, sh.interval);
      }
    }
  }

  /** In every sequential run, any `samples` consecutive buckets hold at most the allowance. */
  lemma {:induction false} RunWithinAllowance(sh: Shape, threshold: real, h: History, steps: seq<Step>, clock: nat)
    requires IsExact(sh) && IsRun(steps, clock) && NonNegative(h) && WithinAllowance(sh, threshold, h)
    ensures NonNegative(Run(sh, threshold, h, steps)) && WithinAllowance(sh, threshold, Run(sh, threshold, h, steps))
    decreases |steps|
  {
    if steps != [] {
      StepWithinAllowance(sh, threshold, h, steps[0], clock);
      RunWithinAllowance(sh, threshold, Next(sh, threshold, h, steps[0]), steps[1..], EndOf(steps[0]));
    }
  }

  lemma NothingPassedYet(sh: Shape, threshold: real)
    requires IsShape(sh) && threshold >= 0.0
    ensures WithinAllowance(sh, threshold, []) && Allowance(threshold, sh.interval) >= 0.0
  {
    ScaleBoth(0.0, threshold, sh.interval as real / 1000.0);
  }

  /** The configured number of tokens for the interval. */
  function Quota(threshold: real, interval: nat): real {
    threshold * (interval as real / 1000.0)
  }

  ghost predicate QuotaHolds(sh: Shape, threshold: real, steps: seq<Step>, m: int)
    requires IsExact(sh)
  {
    PassedUpTo(sh, Run(sh, threshold, [], steps), m) as real <= Quota(threshold, sh.interval)
  }

  lemma FirstEntry(sh: Shape, threshold: real, count: nat)
    requires IsExact(sh) && count as real <= threshold
    ensures Next(sh, threshold, [], Enter(0, 0, 0, count, true)) == [Stamped(0, Count(PASS, count))]
  {
    assert Rate(0, sh.interval) == 0.0;
    assert Passes(sh, threshold, [], Enter(0, 0, 0, count, true));
  }

  lemma SingleEntry(sh: Shape, threshold: real, count: nat)
    requires IsExact(sh) && count as real <= threshold
    ensures PassedUpTo(sh, Run(sh, threshold, [], [Enter(0, 0, 0, count, true)]), 0) == count
  {
    var s, h := Enter(0, 0, 0, count, true), [Stamped(0, Count(PASS, count))];
    FirstEntry(sh, threshold, count);
    assert [s][1..] == [];
    assert Run(sh, threshold, [], [s]) == Run(sh, threshold, h, []) == h;
    assert Id(sh, 0) == 0 by {
      StartIsIdTimesLength(sh, 0);
    }
    PassedLast(sh, [], h[0], 0 - sh.samples, 0);
    assert [] + [h[0]] == h;
  }

  /** Every run keeps every window within the quota exactly when the interval is a second or more, or the whole
      tokens of one second already fit. (The check adds a token count to a rate per second.) */
  lemma QuotaHoldsIff(sh: Shape, threshold: real)
    requires IsExact(sh) && threshold >= 0.0
    ensures (forall steps, m :: IsRun(steps, 0) ==> QuotaHolds(sh, threshold, steps, m))
       <==> (sh.interval >= 1000 || threshold.Floor as real <= Quota(threshold, sh.interval))
  {
    if sh.interval >= 1000 || threshold.Floor as real <= Quota(threshold, sh.interval) {
      forall steps, m | IsRun(steps, 0) ensures QuotaHolds(sh, threshold, steps, m) {
        NothingPassedYet(sh, threshold);
        RunWithinAllowance(sh, threshold, [], steps, 0);
        var p := PassedUpTo(sh, Run(sh, threshold, [], steps), m);
        assert p as real <= Allowance(threshold, sh.interval);
        assert sh.interval < 1000 ==> p <= threshold.Floor;
      }
    }
    if forall steps, m :: IsRun(steps, 0) ==> QuotaHolds(sh, threshold, steps, m) {
      var steps := [Enter(0, 0, 0, threshold.Floor, true)];
      SingleEntry(sh, threshold, threshold.Floor);
      assert steps[1..] == [];
      assert IsRun(steps, 0);
      assert QuotaHolds(sh, threshold, steps, 0);
    }
  }

  // ---------------------------------------------------------------- who is refused

  /** More than the threshold per second, without dividing: `sum` events in the interval and `count` more. */
  predicate IsTooMuch(sum: int, count: int, threshold: real, interval: nat) {
    (sum * 1000 + count * interval) as real > threshold * interval as real
  }

  lemma RateIsTooMuch(sum: int, count: int, threshold: real, interval: nat)
    requires interval >= 1
    ensures Admits(Rate(sum, interval), count, threshold) <==> !IsTooMuch(sum, count, threshold, interval)
  {
    var q, i, c := Rate(sum, interval), interval as real, count as real;
    assert q * (i / 1000.0) == sum as real;
    assert q * i == sum as real * 1000.0;
    assert (sum * 1000 + count * interval) as real == q * i + c * i == (q + c) * i;
    if q + c > threshold {
      assert (q + c - threshold) * i > 0.0;
    } else {
      ScaleBoth(q + c, threshold, i);
    }
  }

  lemma {:induction false} RunThenOne(sh: Shape, threshold: real, h: History, steps: seq<Step>, s: Step, clock: nat)
    requires IsExact(sh) && IsRun(steps + [s], clock) && UpTo(h, clock)
    ensures Run(sh, threshold, h, steps + [s]) == Next(sh, threshold, Run(sh, threshold, h, steps), s)
    ensures UpTo(Run(sh, threshold, h, steps), if s.Enter? then s.t1 else s.t)
    ensures s.Enter? ==> s.t1 <= s.t2
    decreases |steps|
  {
    var all := steps + [s];
    if steps == [] {
      assert all == [s] && all[1..] == [];
    } else {
      assert all[0] == steps[0] && all[1..] == steps[1..] + [s];
      RunThenOne(sh, threshold, Next(sh, threshold, h, steps[0]), steps[1..], s, EndOf(steps[0]));
    }
  }

  /** In every run an entry that all others let pass is refused if and only if the tokens passed in the window and its
      own, per second, are more than the threshold. */
  lemma RefusedIff(sh: Shape, threshold: real, steps: seq<Step>, e: Step)
    requires IsExact(sh) && e.Enter? && e.othersPass && IsRun(steps + [e], 0)
    ensures var h := Run(sh, threshold, [], steps);
      Run(sh, threshold, [], steps + [e])
      == h + [Stamped(e.t3, Count(if IsTooMuch(Shown(sh, h, PASS, e.t1, e.t2), e.count, threshold, sh.interval)
                                  then BLOCK else PASS, e.count))]
  {
    var h := Run(sh, threshold, [], steps);
    RunThenOne(sh, threshold, [], steps, e, 0);
    ShownIsInSight(sh, h, PASS, e.t1, e.t2);
    RateIsTooMuch(Shown(sh, h, PASS, e.t1, e.t2), e.count, threshold, sh.interval);
  }

  // ---------------------------------------------------------------- spans of time

  lemma {:induction false} SpanInWindow(sh: Shape, h: History, from: nat, m: int)
    requires IsShape(sh) && NonNegative(h) && m == Id(sh, from) + sh.samples - 1
    ensures PassedBetween(h, from, from + (sh.samples - 1) * Length(sh)) <= PassedUpTo(sh, h, m)
  {
    if h != [] {
      var e := h[|h| - 1];
      SpanInWindow(sh, h[..|h| - 1], from, m);
      assert Tokens(e.event) >= 0;
      if from <= e.time <= from + (sh.samples - 1) * Length(sh) {
        IdMonotone(sh, from, e.time);
        StartIsIdTimesLength(sh, from);
        StartIsIdTimesLength(sh, e.time);
        assert (Id(sh, from) + sh.samples) * Length(sh)
            == Id(sh, from) * Length(sh) + (sh.samples - 1) * Length(sh) + Length(sh);
        MulOrder(Id(sh, e.time), Id(sh, from) + sh.samples, Length(sh));
      }
    }
  }

  /** In any span of samples - 1 bucket lengths, wherever it begins, no more tokens pass than the allowance. */
  lemma SpanWithinAllowance(sh: Shape, threshold: real, steps: seq<Step>, from: nat)
    requires IsExact(sh) && threshold >= 0.0 && IsRun(steps, 0)
    ensures PassedBetween(Run(sh, threshold, [], steps), from, from + (sh.samples - 1) * Length(sh)) as real
         <= Allowance(threshold, sh.interval)
  {
    NothingPassedYet(sh, threshold);
    RunWithinAllowance(sh, threshold, [], steps, 0);
    var m := Id(sh, from) + sh.samples - 1;
    SpanInWindow(sh, Run(sh, threshold, [], steps), from, m);
    assert PassedUpTo(sh, Run(sh, threshold, [], steps), m) as real <= Allowance(threshold, sh.interval);
  }
}
