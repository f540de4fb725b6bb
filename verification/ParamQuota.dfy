/** The hot parameter check: how many tokens of one parameter value the rules let pass. */
module ParamQuota {
  import opened Ring
  import opened Seqs
  import opened ParamMetric
  import opened ParamWindow
  import opened Options
  import LruSpec
  import Cache = ScalableCache

  /** A rule on the rate of a parameter's values; `items` are the values with a threshold of their own. Thresholds are
      checked to be 0 or more when a rule is loaded, and cut to whole numbers where they are compared. */
  datatype Rule<!V> = Rule(key: Key, threshold: nat, items: map<V, nat>)

  function Limit<V>(rule: Rule<V>, value: V): nat {
    if value in rule.items then rule.items[value] else rule.threshold
  }

  /** An entry with its tokens and parameters; `othersPass` is what the other slots say. */
  datatype Request<V> = Request(count: nat, params: seq<V>, othersPass: bool)

  /** What the clock shows: step n of a run reads it at 2n and 2n + 1, an addition once more for each window. */
  datatype Clock = Clock(now: nat -> nat, when: (nat, Key) -> nat)

  ghost predicate IsClock(c: Clock) {
    && (forall i: nat, j: nat :: i <= j ==> c.now(i) <= c.now(j))
    && (forall n: nat, k: Key :: c.now(2 * n) <= c.when(n, k) <= c.now(2 * n + 1))
  }

  ghost predicate Follows<V>(ops: seq<Op<V>>, c: Clock) {
    IsRun(ops) && ClockOf(ops) <= c.now(2 * |ops|)
  }

  function ReadAt<V>(c: Clock, n: nat, k: Key, value: V): Op<V> {
    Read(c.now(2 * n), c.now(2 * n + 1), k, PASS, value)
  }

  function AddAt<V>(c: Clock, n: nat, kind: Kind, count: int, params: seq<V>): Op<V> {
    AddTo(k => c.when(n, k), c.now(2 * n + 1), kind, count, params)
  }

  lemma Extends<V>(ops: seq<Op<V>>, op: Op<V>, c: Clock)
    requires IsClock(c) && Follows(ops, c)
    requires InTime(op, c.now(2 * |ops|)) && TimeOf(op, c.now(2 * |ops|)) <= c.now(2 * |ops| + 1)
    ensures Follows(ops + [op], c) && ClockOf(ops + [op]) == TimeOf(op, ClockOf(ops))
  {
    var all := ops + [op];
    assert all[..|all| - 1] == ops && Last(all) == op;
    assert c.now(2 * |ops|) <= c.now(2 * |ops| + 1) <= c.now(2 * |all|);
  }

  // ---------------------------------------------------------------- the check

  /** Operations that pass nothing. */
  predicate IsQuiet<V>(op: Op<V>) {
    op.AddTo? ==> op.kind == BLOCK && op.count >= 0
  }

  ghost predicate Quietly<V>(before: seq<Op<V>>, after: seq<Op<V>>) {
    before <= after && forall i :: |before| <= i < |after| ==> IsQuiet(after[i])
  }

  lemma QuietlyThen<V>(a: seq<Op<V>>, b: seq<Op<V>>, c: seq<Op<V>>)
    requires Quietly(a, b) && Quietly(b, c)
    ensures Quietly(a, c)
  {
    assert c == b + c[|b|..] && b == a + b[|a|..];
    forall i | |a| <= i < |c| ensures IsQuiet(c[i]) {
      if i < |b| {
        assert c[i] == b[i];
      }
    }
  }

  /** The operations on the parameter metric so far, and the verdict. */
  datatype Outcome<V> = Outcome(ops: seq<Op<V>>, passed: bool)

  /** PassInterval. */
  ghost function PassInterval<V>(env: Env<V>, ops: seq<Op<V>>, read: Op<V>): int
    requires IsRun(ops) && read.Read?
  {
    GetInterval(env, Run(env, ops), read.t, read.u, read.k, read.kind, read.value).sum
  }

  /** PassLocalCheck: every parameter of the call, whichever the rule watches, until one does not pass. */
  ghost function CheckParams<V>(env: Env<V>, c: Clock, ops: seq<Op<V>>, rule: Rule<V>, count: nat, params: seq<V>)
      : (r: Outcome<V>)
    requires IsClock(c) && Follows(ops, c)
    ensures Follows(r.ops, c) && Quietly(ops, r.ops)
    decreases |params|
  {
    if params == [] then Outcome(ops, true)
    else
      var read := ReadAt(c, |ops|, rule.key, params[0]);
      var next := ops + [read];
      Extends(ops, read, c);
      if count + PassInterval(env, ops, read) <= Limit(rule, params[0])
      then CheckParams(env, c, next, rule, count, params[1..])
      else Outcome(next, false)
  }

  ghost predicate AreRules<V>(rules: seq<Rule<V>>) {
    forall i :: 0 <= i < |rules| ==> IsShape(ShapeOf(rules[i].key))
  }

  lemma AddExtends<V>(ops: seq<Op<V>>, c: Clock, kind: Kind, count: int, params: seq<V>)
    requires IsClock(c) && Follows(ops, c)
    ensures Follows(ops + [AddAt(c, |ops|, kind, count, params)], c)
  {
    var add := AddAt(c, |ops|, kind, count, params);
    assert forall k :: add.when(k) == c.when(|ops|, k);
    assert InTime(add, c.now(2 * |ops|));
    Extends(ops, add, c);
  }

  /** The block that a refusal records. */
  ghost function Block<V>(c: Clock, ops: seq<Op<V>>, count: nat, params: seq<V>): (r: seq<Op<V>>)
    requires IsClock(c) && Follows(ops, c)
    ensures Follows(r, c) && Quietly(ops, r)
  {
    AddExtends(ops, c, BLOCK, count, params);
    ops + [AddAt(c, |ops|, BLOCK, count, params)]
  }

  /** initHotParamMetricsFor and PassCheck. */
  ghost function CheckRule<V>(env: Env<V>, c: Clock, ops: seq<Op<V>>, rule: Rule<V>, count: nat, params: seq<V>)
      : (r: Outcome<V>)
    requires IsClock(c) && Follows(ops, c) && IsShape(ShapeOf(rule.key))
    ensures Follows(r.ops, c) && Quietly(ops, r.ops)
  {
    var first := ops + [Initialize(rule.key)];
    Extends(ops, Initialize(rule.key), c);
    var r := CheckParams(env, c, first, rule, count, params);
    QuietlyThen(ops, first, r.ops);
    r
  }

  /** CheckFlow: the rules in turn, until one blocks. */
  ghost function CheckRules<V>(env: Env<V>, c: Clock, ops: seq<Op<V>>, rules: seq<Rule<V>>, count: nat, params: seq<V>)
      : (r: Outcome<V>)
    requires IsClock(c) && Follows(ops, c) && AreRules(rules)
    ensures Follows(r.ops, c) && Quietly(ops, r.ops)
    decreases |rules|
  {
    if rules == [] then Outcome(ops, true)
    else
      var checked := CheckRule(env, c, ops, rules[0], count, params);
      if checked.passed then
        var r := CheckRules(env, c, checked.ops, rules[1..], count, params);
        QuietlyThen(ops, checked.ops, r.ops);
        r
      else
        var blocked := Block(c, checked.ops, count, params);
        QuietlyThen(ops, checked.ops, blocked);
        Outcome(blocked, false)
  }

  /** An entry: its tokens are added when every slot lets it pass. */
  ghost function Enter<V>(env: Env<V>, c: Clock, ops: seq<Op<V>>, rules: seq<Rule<V>>, e: Request<V>): (r: seq<Op<V>>)
    requires IsClock(c) && Follows(ops, c) && AreRules(rules)
    ensures Follows(r, c)
  {
    var checked := CheckRules(env, c, ops, rules, e.count, e.params);
    if checked.passed && e.othersPass then
      AddExtends(checked.ops, c, PASS, e.count, e.params);
      checked.ops + [AddAt(c, |checked.ops|, PASS, e.count, e.params)]
    else checked.ops
  }

  ghost function EnterAll<V>(env: Env<V>, c: Clock, rules: seq<Rule<V>>, entries: seq<Request<V>>): (r: seq<Op<V>>)
    requires IsClock(c) && AreRules(rules)
    ensures Follows(r, c)
    decreases |entries|
  {
    if entries == [] then [] else Enter(env, c, EnterAll(env, c, rules, entries[..|entries| - 1]), rules, Last(entries))
  }

  lemma EnterAllNext<V>(env: Env<V>, c: Clock, rules: seq<Rule<V>>, before: seq<Request<V>>, e: Request<V>)
    requires IsClock(c) && AreRules(rules)
    ensures EnterAll(env, c, rules, before + [e]) == Enter(env, c, EnterAll(env, c, rules, before), rules, e)
  {
    assert (before + [e])[..|before + [e]| - 1] == before;
  }

  // ---------------------------------------------------------------- what quiet operations keep

  lemma LoggedLast<V>(ops: seq<Op<V>>, op: Op<V>, k: Key, lo: int, value: V)
    requires IsShape(ShapeOf(k))
    ensures Logged(ops + [op], k, lo, PASS, value)
         == Logged(ops, k, lo, PASS, value) + if Initialised(ops, k) then Entry(op, k, lo, PASS, value) else 0
  {
    assert (ops + [op])[..|ops + [op]| - 1] == ops;
  }

  lemma {:induction false} LoggedOrder<V>(ops: seq<Op<V>>, k: Key, lo: int, hi: int, value: V)
    requires IsShape(ShapeOf(k)) && CountsNotNegative(ops) && lo <= hi
    ensures 0 <= Logged(ops, k, hi, PASS, value) <= Logged(ops, k, lo, PASS, value)
  {
    if ops != [] {
      LoggedOrder(ops[..|ops| - 1], k, lo, hi, value);
    }
  }

  lemma {:induction false} QuietLogsNothing<V>(before: seq<Op<V>>, after: seq<Op<V>>, k: Key, lo: int, value: V)
    requires IsShape(ShapeOf(k)) && Quietly(before, after)
    ensures Logged(after, k, lo, PASS, value) == Logged(before, k, lo, PASS, value)
    decreases |after|
  {
    if |after| == |before| {
      assert after == before;
    } else {
      var init := after[..|after| - 1];
      QuietLogsNothing(before, init, k, lo, value);
      assert after == init + [Last(after)] && IsQuiet(Last(after));
      LoggedLast(init, Last(after), k, lo, value);
    }
  }

  lemma {:induction false} ClockGoesOn<V>(before: seq<Op<V>>, after: seq<Op<V>>)
    requires IsRun(after) && before <= after
    ensures ClockOf(before) <= ClockOf(after)
    decreases |after|
  {
    if |after| == |before| {
      assert after == before;
    } else {
      ClockGoesOn(before, after[..|after| - 1]);
    }
  }

  lemma InitialisedStays<V>(before: seq<Op<V>>, after: seq<Op<V>>, k: Key)
    requires before <= after && Initialised(before, k)
    ensures Initialised(after, k)
  {
    var i :| 0 <= i < |before| && before[i] == Initialize(k);
    assert after[i] == Initialize(k);
  }

  /** The window up to now has room for `count` more tokens of the value. */
  ghost predicate HasRoom<V>(ops: seq<Op<V>>, k: Key, value: V, limit: nat, count: nat)
    requires IsShape(ShapeOf(k))
  {
    count + Logged(ops, k, Id(ShapeOf(k), ClockOf(ops)) - k.sampleCount, PASS, value) <= limit
  }

  lemma QuietKeepsRoom<V>(before: seq<Op<V>>, after: seq<Op<V>>, k: Key, value: V, limit: nat, count: nat)
    requires IsShape(ShapeOf(k)) && Quietly(before, after) && IsRun(after) && CountsNotNegative(before)
    requires HasRoom(before, k, value, limit, count)
    ensures HasRoom(after, k, value, limit, count)
  {
    var n := k.sampleCount;
    var lo, hi := Id(ShapeOf(k), ClockOf(before)) - n, Id(ShapeOf(k), ClockOf(after)) - n;
    ClockGoesOn(before, after);
    IdOrder(ShapeOf(k), ClockOf(before), ClockOf(after));
    LoggedOrder(before, k, lo, hi, value);
    QuietLogsNothing(before, after, k, hi, value);
  }

  // ---------------------------------------------------------------- what a passed check means

  /** Too few other values share the value's shard to push its counter out. */
  ghost predicate Uncrowded<V(!new)>(env: Env<V>, k: Key, value: V) {
    IsEnv(env) && !Cache.Crowded(LayoutOf(env, k), value)
  }

  lemma NeverEvictedUncrowded<V(!new)>(env: Env<V>, k: Key, h: History<V>, lo: int, value: V)
    requires IsShape(ShapeOf(k)) && Uncrowded(env, k, value)
    ensures NeverEvicted(LayoutOf(env, k), ShapeOf(k), h, lo, PASS, value)
  {
    var l := LayoutOf(env, k);
    forall id: nat | id > lo ensures !Cache.EverEvicted(l, OpsOf(ShapeOf(k), h, id, PASS), value) {
      if Cache.EverEvicted(l, OpsOf(ShapeOf(k), h, id, PASS), value) {
        Cache.EvictedOnlyIfCrowded(l, OpsOf(ShapeOf(k), h, id, PASS), value);
      }
    }
  }

  /** No counter is negative, and one that was never pushed out holds all that was recorded. */
  lemma CountsAtLeast<V(!new)>(env: Env<V>, k: Key, h: History<V>, lo: int, value: V)
    requires IsEnv(env) && IsShape(ShapeOf(k)) && NonNegative(h)
    ensures var l, m := LayoutOf(env, k), CountOf(LayoutOf(env, k), PASS, value);
      && (forall id: nat :: m(BucketOf(ShapeOf(k), h, id, EmptyBucket(l), Apply(l))) >= 0)
      && (Uncrowded(env, k, value) ==>
            AtLeast(ShapeOf(k), h, lo, m, Weight(PASS, value), EmptyBucket(l), Apply(l)))
  {
    var l, sh, m := LayoutOf(env, k), ShapeOf(k), CountOf(LayoutOf(env, k), PASS, value);
    if Uncrowded(env, k, value) {
      NeverEvictedUncrowded(env, k, h, lo, value);
      WindowCounts(l, sh, h, lo, PASS, value);
    }
    forall id: nat ensures m(BucketOf(sh, h, id, EmptyBucket(l), Apply(l))) >= 0 {
      var ops := OpsOf(sh, h, id, PASS);
      BucketRuns(l, sh, h, id, PASS);
      OpsCountOnly(sh, h, id, PASS);
      Cache.CountNeverExceeds(l, ops, value);
    }
  }

  lemma {:induction false} SumNotNegative<V>(sh: Shape, r: Slots<Bucket<V>>, t: int, f: Bucket<V> -> int)
    requires forall i :: 0 <= i < |r| && r[i].Some? ==> f(r[i].value.value) >= 0
    ensures SumOfLive(sh, r, t, f) >= 0
  {
    if r != [] {
      assert r[0].Some? ==> f(r[0].value.value) >= 0;
      SumNotNegative(sh, r[1..], t, f);
    }
  }

  lemma ArrayAtLeast<V(!new)>(env: Env<V>, a: Array<V>, clock: nat, t: nat, u: nat, value: V)
    requires IsEnv(env) && IsArray(a) && ArrayInv(env, a, clock) && NonNegative(a.history) && clock <= t <= u
    ensures var l, sh := LayoutOf(env, a.key), ShapeOf(a.key);
      var sum := SumOfLive(sh, Current(sh, a.slots, t, EmptyBucket(l)), u, CountOf(l, PASS, value));
      && sum >= 0
      && (Uncrowded(env, a.key, value) ==>
            sum >= InSight(sh, a.history, Id(sh, u) - sh.samples, Weight(PASS, value)))
  {
    var l, sh, m := LayoutOf(env, a.key), ShapeOf(a.key), CountOf(LayoutOf(env, a.key), PASS, value);
    var r := Current(sh, a.slots, t, EmptyBucket(l));
    IdOrder(sh, clock, t);
    IdOrder(sh, t, u);
    CurrentTracks(sh, a.slots, a.history, a.last, t, EmptyBucket(l), Apply(l));
    CountsAtLeast(env, a.key, a.history, Id(sh, u) - sh.samples, value);
    forall i | 0 <= i < |r| && r[i].Some? ensures m(r[i].value.value) >= 0 {
      assert SlotTracks(sh, r[i], i, a.history, Id(sh, t), EmptyBucket(l), Apply(l));
    }
    SumNotNegative(sh, r, u, m);
    if Uncrowded(env, a.key, value) {
      LiveSumAtLeast(sh, r, a.history, Id(sh, t), u, m, Weight(PASS, value), EmptyBucket(l), Apply(l));
    }
  }

  /** What a reading says about the true count: it is not negative, and not below the count when the other values
      cannot push this one out. */
  ghost predicate ReportsAtLeast<V(!new)>(env: Env<V>, m: Metric<V>, t: nat, u: nat, k: Key, value: V, count: int)
    requires AreArrays(m)
  {
    var sum := GetInterval(env, m, t, u, k, PASS, value).sum;
    sum >= 0 && (Uncrowded(env, k, value) ==> sum >= count)
  }

  lemma StateAtLeast<V(!new)>(env: Env<V>, m: Metric<V>, clock: nat, t: nat, u: nat, k: Key, value: V)
    requires IsEnv(env) && Inv(env, m, clock) && AllNonNegative(m) && clock <= t <= u
    requires k in m.rolling && IsShape(ShapeOf(k))
    ensures ReportsAtLeast(env, m, t, u, k, value, Recorded(m, k, Id(ShapeOf(k), u) - k.sampleCount, PASS, value))
  {
    ArrayOfKey(env, m, clock, k);
    ArrayAtLeast(env, ArrayOf(m, k), clock, t, u, value);
  }

  /** Of a value that the others cannot push out a reading is never less than what the latest `samples` buckets have
      recorded, whatever the shape. */
  lemma {:induction false} IntervalAtLeast<V(!new)>(env: Env<V>, ops: seq<Op<V>>, t: nat, u: nat, k: Key, value: V)
    requires IsEnv(env) && IsRun(ops) && CountsNotNegative(ops) && ClockOf(ops) <= t <= u
    requires IsShape(ShapeOf(k)) && Initialised(ops, k)
    ensures ReportsAtLeast(env, Run(env, ops), t, u, k, value,
                           Logged(ops, k, Id(ShapeOf(k), u) - k.sampleCount, PASS, value))
  {
    RunKeeps(env, ops);
    RunStaysNonNegative(env, ops);
    RollingIsInitialised(env, ops, k);
    StateAtLeast(env, Run(env, ops), ClockOf(ops), t, u, k, value);
    HistoryIsLog(env, ops, k, Id(ShapeOf(k), u) - k.sampleCount, PASS, value);
  }

  /** When the rule keeps the quota of a value: nothing may pass, or no other values can push its counter out. */
  ghost predicate Holds<V(!new)>(env: Env<V>, rule: Rule<V>, value: V) {
    Limit(rule, value) == 0 || Uncrowded(env, rule.key, value)
  }

  /** The tokens asked for fit in, if there are any. */
  ghost predicate Fits<V>(ops: seq<Op<V>>, rule: Rule<V>, value: V, count: nat)
    requires IsShape(ShapeOf(rule.key))
  {
    count > 0 ==> HasRoom(ops, rule.key, value, Limit(rule, value), count)
  }

  lemma ReadFindsRoom<V>(ops: seq<Op<V>>, t: nat, u: nat, k: Key, value: V, limit: nat, count: nat)
    requires IsShape(ShapeOf(k))
    requires count + Logged(ops, k, Id(ShapeOf(k), u) - k.sampleCount, PASS, value) <= limit
    ensures HasRoom(ops + [Read(t, u, k, PASS, value)], k, value, limit, count)
  {
    var read := Read(t, u, k, PASS, value);
    assert Last(ops + [read]) == read;
    LoggedLast(ops, read, k, Id(ShapeOf(k), u) - k.sampleCount, value);
  }

  lemma PassedFits<V(!new)>(env: Env<V>, ops: seq<Op<V>>, t: nat, u: nat, rule: Rule<V>, value: V, count: nat)
    requires IsEnv(env) && IsShape(ShapeOf(rule.key)) && Holds(env, rule, value) && Initialised(ops, rule.key)
    requires IsRun(ops) && CountsNotNegative(ops) && ClockOf(ops) <= t <= u
    requires count + PassInterval(env, ops, Read(t, u, rule.key, PASS, value)) <= Limit(rule, value)
    ensures Fits(ops + [Read(t, u, rule.key, PASS, value)], rule, value, count)
  {
    if count > 0 {
      IntervalAtLeast(env, ops, t, u, rule.key, value);
      ReadFindsRoom(ops, t, u, rule.key, value, Limit(rule, value), count);
    }
  }

  lemma QuietlyFits<V>(before: seq<Op<V>>, after: seq<Op<V>>, rule: Rule<V>, value: V, count: nat)
    requires IsShape(ShapeOf(rule.key)) && Quietly(before, after) && IsRun(after) && CountsNotNegative(before)
    requires Fits(before, rule, value, count)
    ensures Fits(after, rule, value, count)
  {
    if count > 0 {
      QuietKeepsRoom(before, after, rule.key, value, Limit(rule, value), count);
    }
  }

  lemma QuietlyOn<V>(a: seq<Op<V>>, b: seq<Op<V>>)
    requires Quietly(a, b) && CountsNotNegative(a)
    ensures CountsNotNegative(b)
  {
    forall i | 0 <= i < |b| && b[i].AddTo? ensures b[i].count >= 0 {
      if i < |a| {
        assert b[i] == a[i];
      }
    }
  }

  /** A call that passes a rule finds room for each of its parameters. */
  lemma {:induction false} ParamsFit<V(!new)>(env: Env<V>, c: Clock, ops: seq<Op<V>>, rule: Rule<V>, count: nat,
                                              params: seq<V>, value: V)
    requires IsEnv(env) && IsClock(c) && Follows(ops, c) && CountsNotNegative(ops) && Initialised(ops, rule.key)
    requires IsShape(ShapeOf(rule.key)) && Holds(env, rule, value) && value in params
    requires CheckParams(env, c, ops, rule, count, params).passed
    ensures Fits(CheckParams(env, c, ops, rule, count, params).ops, rule, value, count)
    decreases |params|
  {
    var read := ReadAt(c, |ops|, rule.key, params[0]);
    var next := ops + [read];
    Extends(ops, read, c);
    assert Quietly(ops, next);
    QuietlyOn(ops, next);
    if params[0] == value {
      assert c.now(2 * |ops|) <= c.now(2 * |ops| + 1);
      PassedFits(env, ops, read.t, read.u, rule, value, count);
      QuietlyFits(next, CheckParams(env, c, next, rule, count, params[1..]).ops, rule, value, count);
    } else {
      assert params == [params[0]] + params[1..];
      InitialisedStays(ops, next, rule.key);
      ParamsFit(env, c, next, rule, count, params[1..], value);
    }
  }

  lemma RuleFits<V(!new)>(env: Env<V>, c: Clock, ops: seq<Op<V>>, rule: Rule<V>, count: nat,
                                             params: seq<V>, value: V)
    requires IsEnv(env) && IsClock(c) && Follows(ops, c) && CountsNotNegative(ops) && IsShape(ShapeOf(rule.key))
    requires Holds(env, rule, value) && value in params && CheckRule(env, c, ops, rule, count, params).passed
    ensures Fits(CheckRule(env, c, ops, rule, count, params).ops, rule, value, count)
  {
    var first := ops + [Initialize(rule.key)];
    Extends(ops, Initialize(rule.key), c);
    assert first[|ops|] == Initialize(rule.key);
    QuietlyOn(ops, first);
    ParamsFit(env, c, first, rule, count, params, value);
  }

  lemma {:induction false} RulesFit<V(!new)>(env: Env<V>, c: Clock, ops: seq<Op<V>>, rules: seq<Rule<V>>, count: nat,
                                             params: seq<V>, rule: Rule<V>, value: V)
    requires IsEnv(env) && IsClock(c) && Follows(ops, c) && CountsNotNegative(ops) && AreRules(rules) && rule in rules
    requires Holds(env, rule, value) && value in params && CheckRules(env, c, ops, rules, count, params).passed
    ensures Fits(CheckRules(env, c, ops, rules, count, params).ops, rule, value, count)
    decreases |rules|
  {
    var checked := CheckRule(env, c, ops, rules[0], count, params).ops;
    if rules[0] == rule {
      var all := CheckRules(env, c, checked, rules[1..], count, params).ops;
      RuleFits(env, c, ops, rule, count, params, value);
      QuietlyOn(ops, checked);
      QuietlyFits(checked, all, rule, value, count);
    } else {
      QuietlyOn(ops, checked);
      assert rule in rules[1..];
      RulesFit(env, c, checked, rules[1..], count, params, rule, value);
    }
  }

  // ---------------------------------------------------------------- every run keeps the quota

  /** Of any `samples` consecutive buckets: what has passed with the value. */
  ghost function Passed<V>(ops: seq<Op<V>>, k: Key, lo: int, value: V): int
    requires IsShape(ShapeOf(k))
  {
    Logged(ops, k, lo, PASS, value) - Logged(ops, k, lo + k.sampleCount, PASS, value)
  }

  ghost predicate WithinQuota<V>(ops: seq<Op<V>>, rule: Rule<V>, value: V)
    requires IsShape(ShapeOf(rule.key))
  {
    forall lo :: Passed(ops, rule.key, lo, value) <= Limit(rule, value)
  }

  /** Tokens that fit in may be added. */
  lemma PassKeepsQuota<V>(ops: seq<Op<V>>, op: Op<V>, rule: Rule<V>, value: V)
    requires IsShape(ShapeOf(rule.key)) && CountsNotNegative(ops) && WithinQuota(ops, rule, value)
    requires op.AddTo? && op.kind == PASS && op.count >= 0 && InTime(op, ClockOf(ops))
    requires value in op.params ==> Fits(ops, rule, value, op.count)
    ensures WithinQuota(ops + [op], rule, value)
  {
    var k, sh := rule.key, ShapeOf(rule.key);
    var n := k.sampleCount;
    var last := Id(sh, ClockOf(ops)) - n;
    IdOrder(sh, ClockOf(ops), op.when(k));
    forall lo ensures Passed(ops + [op], k, lo, value) <= Limit(rule, value) {
      LoggedLast(ops, op, k, lo, value);
      LoggedLast(ops, op, k, lo + n, value);
      assert Passed(ops, k, lo, value) <= Limit(rule, value);
      if Entry(op, k, lo, PASS, value) > 0 && Entry(op, k, lo + n, PASS, value) == 0 {
        assert op.params[k.paramIdx] == value && lo >= last;
        LoggedOrder(ops, k, last, lo, value);
        LoggedOrder(ops, k, lo, lo + n, value);
      }
    }
  }

  lemma QuietKeepsQuota<V>(before: seq<Op<V>>, after: seq<Op<V>>, rule: Rule<V>, value: V)
    requires IsShape(ShapeOf(rule.key)) && Quietly(before, after) && WithinQuota(before, rule, value)
    ensures WithinQuota(after, rule, value)
  {
    var k := rule.key;
    forall lo ensures Passed(after, k, lo, value) <= Limit(rule, value) {
      assert Passed(before, k, lo, value) <= Limit(rule, value);
      QuietLogsNothing(before, after, k, lo, value);
      QuietLogsNothing(before, after, k, lo + k.sampleCount, value);
    }
  }

  lemma EnterKeepsQuota<V(!new)>(env: Env<V>, c: Clock, ops: seq<Op<V>>, rules: seq<Rule<V>>, e: Request<V>,
                                 rule: Rule<V>, value: V)
    requires IsEnv(env) && IsClock(c) && Follows(ops, c) && CountsNotNegative(ops) && AreRules(rules) && rule in rules
    requires IsShape(ShapeOf(rule.key)) && Holds(env, rule, value) && WithinQuota(ops, rule, value)
    ensures var next := Enter(env, c, ops, rules, e); CountsNotNegative(next) && WithinQuota(next, rule, value)
  {
    var checked := CheckRules(env, c, ops, rules, e.count, e.params);
    QuietlyOn(ops, checked.ops);
    QuietKeepsQuota(ops, checked.ops, rule, value);
    if checked.passed && e.othersPass {
      var pass := AddAt(c, |checked.ops|, PASS, e.count, e.params);
      if value in e.params {
        RulesFit(env, c, ops, rules, e.count, e.params, rule, value);
      }
      PassKeepsQuota(checked.ops, pass, rule, value);
    }
  }

  lemma {:induction false} RunKeepsQuota<V(!new)>(env: Env<V>, c: Clock, rules: seq<Rule<V>>, entries: seq<Request<V>>,
                                                  rule: Rule<V>, value: V)
    requires IsEnv(env) && IsClock(c) && AreRules(rules) && rule in rules
    requires IsShape(ShapeOf(rule.key)) && Holds(env, rule, value)
    ensures var ops := EnterAll(env, c, rules, entries); CountsNotNegative(ops) && WithinQuota(ops, rule, value)
    decreases |entries|
  {
    if entries != [] {
      var before := entries[..|entries| - 1];
      RunKeepsQuota(env, c, rules, before, rule, value);
      EnterKeepsQuota(env, c, EnterAll(env, c, rules, before), rules, Last(entries), rule, value);
    }
  }

  /** No `samples` consecutive buckets hold more than `most` passed tokens of the value. */
  ghost predicate AtMostPassed<V>(ops: seq<Op<V>>, k: Key, value: V, most: nat)
    requires IsShape(ShapeOf(k))
  {
    forall lo :: Passed(ops, k, lo, value) <= most
  }

  /** In every run any `samples` consecutive buckets hold at most the number a rule has for the value, its own or else
      the threshold, of passed tokens; for each rule and each value that the others cannot push out of its cache. */
  lemma EntriesKeepQuota<V(!new)>(env: Env<V>, c: Clock, rules: seq<Rule<V>>, entries: seq<Request<V>>, rule: Rule<V>,
                                  value: V)
    requires IsEnv(env) && IsClock(c) && AreRules(rules) && rule in rules
    requires IsShape(ShapeOf(rule.key)) && !Cache.Crowded(LayoutOf(env, rule.key), value)
    ensures var ops := EnterAll(env, c, rules, entries);
      && (value in rule.items ==> AtMostPassed(ops, rule.key, value, rule.items[value]))
      && (value !in rule.items ==> AtMostPassed(ops, rule.key, value, rule.threshold))
  {
    var ops := EnterAll(env, c, rules, entries);
    RunKeepsQuota(env, c, rules, entries, rule, value);
    assert WithinQuota(ops, rule, value);
  }

  // ---------------------------------------------------------------- who is refused

  /** `count` tokens more than `most` with what the window, refreshed at t and read at u, has recorded of the value. */
  ghost predicate IsBeyond<V>(ops: seq<Op<V>>, k: Key, t: nat, u: nat, value: V, count: nat, most: nat)
    requires IsShape(ShapeOf(k))
  {
    ClockOf(ops) <= t <= u && count + Logged(ops, k, Oldest(k, t, u), PASS, value) > most
  }

  lemma ReadBeyond<V>(env: Env<V>, before: seq<Op<V>>, ops: seq<Op<V>>, t: nat, u: nat, k: Key, value: V, count: nat,
                      most: nat)
    requires IsEnv(env) && IsRun(ops) && CountsNotNegative(ops) && Quietly(before, ops) && Initialised(ops, k)
    requires ClockOf(ops) <= t <= u && IsExact(ShapeOf(k))
    requires count + PassInterval(env, ops, Read(t, u, k, PASS, value)) > most
    ensures IsBeyond(before, k, t, u, value, count, most)
  {
    IntervalNeverExceeds(env, ops, t, u, k, PASS, value);
    QuietLogsNothing(before, ops, k, Oldest(k, t, u), value);
    ClockGoesOn(before, ops);
  }

  /** The value has too little room left under the rule: its own number, or else the threshold. */
  ghost predicate IsRefusal<V>(ops: seq<Op<V>>, rule: Rule<V>, t: nat, u: nat, value: V, count: nat)
    requires IsShape(ShapeOf(rule.key))
  {
    IsBeyond(ops, rule.key, t, u, value, count, if value in rule.items then rule.items[value] else rule.threshold)
  }

  lemma {:induction false} ValueRefused<V>(env: Env<V>, c: Clock, before: seq<Op<V>>, ops: seq<Op<V>>, rule: Rule<V>,
                                           count: nat, value: V)
      returns (t: nat, u: nat)
    requires IsEnv(env) && IsClock(c) && Follows(ops, c) && CountsNotNegative(ops) && Quietly(before, ops)
    requires Initialised(ops, rule.key) && IsExact(ShapeOf(rule.key))
    requires count + PassInterval(env, ops, ReadAt(c, |ops|, rule.key, value)) > Limit(rule, value)
    ensures IsRefusal(before, rule, t, u, value, count)
  {
    t, u := c.now(2 * |ops|), c.now(2 * |ops| + 1);
    ReadBeyond(env, before, ops, t, u, rule.key, value, count,
               if value in rule.items then rule.items[value] else rule.threshold);
  }

  lemma {:induction false} ParamsRefused<V>(env: Env<V>, c: Clock, before: seq<Op<V>>, ops: seq<Op<V>>, rule: Rule<V>,
                                            count: nat, params: seq<V>)
      returns (i: nat, t: nat, u: nat)
    requires IsEnv(env) && IsClock(c) && Follows(ops, c) && CountsNotNegative(ops) && Quietly(before, ops)
    requires Initialised(ops, rule.key) && IsExact(ShapeOf(rule.key))
    requires !CheckParams(env, c, ops, rule, count, params).passed
    ensures i < |params| && IsRefusal(before, rule, t, u, params[i], count)
    decreases |params|
  {
    var read := ReadAt(c, |ops|, rule.key, params[0]);
    if count + PassInterval(env, ops, read) <= Limit(rule, params[0]) {
      var next := ReadOn(c, before, ops, rule.key, params[0]);
      i, t, u := ParamsRefused(env, c, before, next, rule, count, params[1..]);
      i := i + 1;
    } else {
      i := 0;
      t, u := ValueRefused(env, c, before, ops, rule, count, params[0]);
    }
  }

  lemma ReadOn<V>(c: Clock, before: seq<Op<V>>, ops: seq<Op<V>>, k: Key, value: V) returns (next: seq<Op<V>>)
    requires IsClock(c) && Follows(ops, c) && CountsNotNegative(ops) && Quietly(before, ops) && Initialised(ops, k)
    ensures next == ops + [ReadAt(c, |ops|, k, value)] && Follows(next, c) && CountsNotNegative(next)
    ensures Quietly(before, next) && Initialised(next, k)
  {
    next := ops + [ReadAt(c, |ops|, k, value)];
    Extends(ops, ReadAt(c, |ops|, k, value), c);
    assert Quietly(ops, next);
    QuietlyThen(before, ops, next);
    QuietlyOn(ops, next);
    InitialisedStays(ops, next, k);
  }

  lemma InitializedOn<V>(c: Clock, before: seq<Op<V>>, ops: seq<Op<V>>, k: Key) returns (next: seq<Op<V>>)
    requires IsClock(c) && Follows(ops, c) && CountsNotNegative(ops) && Quietly(before, ops) && IsShape(ShapeOf(k))
    ensures next == ops + [Initialize(k)] && Follows(next, c) && CountsNotNegative(next)
    ensures Quietly(before, next) && Initialised(next, k)
  {
    next := ops + [Initialize(k)];
    Extends(ops, Initialize(k), c);
    assert Quietly(ops, next) && next[|ops|] == Initialize(k);
    QuietlyThen(before, ops, next);
    QuietlyOn(ops, next);
  }

  lemma {:induction false} RuleRefused<V>(env: Env<V>, c: Clock, before: seq<Op<V>>, ops: seq<Op<V>>, rule: Rule<V>,
                                          count: nat, params: seq<V>)
      returns (i: nat, t: nat, u: nat)
    requires IsEnv(env) && IsClock(c) && Follows(ops, c) && CountsNotNegative(ops) && Quietly(before, ops)
    requires IsExact(ShapeOf(rule.key)) && !CheckRule(env, c, ops, rule, count, params).passed
    ensures i < |params| && IsRefusal(before, rule, t, u, params[i], count)
  {
    var first := InitializedOn(c, before, ops, rule.key);
    i, t, u := ParamsRefused(env, c, before, first, rule, count, params);
  }

  ghost predicate AreExact<V>(rules: seq<Rule<V>>) {
    AreRules(rules) && forall i :: 0 <= i < |rules| ==> IsExact(ShapeOf(rules[i].key))
  }

  lemma {:induction false} RulesRefused<V>(env: Env<V>, c: Clock, before: seq<Op<V>>, ops: seq<Op<V>>,
                                           rules: seq<Rule<V>>, count: nat, params: seq<V>)
      returns (j: nat, i: nat, t: nat, u: nat)
    requires IsEnv(env) && IsClock(c) && Follows(ops, c) && CountsNotNegative(ops) && Quietly(before, ops)
    requires AreExact(rules) && !CheckRules(env, c, ops, rules, count, params).passed
    ensures j < |rules| && i < |params| && IsRefusal(before, rules[j], t, u, params[i], count)
    decreases |rules|
  {
    var checked := CheckRule(env, c, ops, rules[0], count, params);
    if checked.passed {
      QuietlyThen(before, ops, checked.ops);
      QuietlyOn(ops, checked.ops);
      j, i, t, u := RulesRefused(env, c, before, checked.ops, rules[1..], count, params);
      j := j + 1;
    } else {
      i, t, u := RuleRefused(env, c, before, ops, rules[0], count, params);
      j := 0;
    }
  }

  // ---------------------------------------------------------------- what is counted

  datatype Counted<V> = Counted(kind: Kind, count: int, params: seq<V>)

  /** The additions of a run, in order. */
  ghost function Additions<V>(ops: seq<Op<V>>): seq<Counted<V>> {
    if ops == [] then []
    else
      var op := Last(ops);
      Additions(ops[..|ops| - 1]) + if op.AddTo? then [Counted(op.kind, op.count, op.params)] else []
  }

  lemma AdditionsLast<V>(ops: seq<Op<V>>, op: Op<V>)
    ensures Additions(ops + [op])
         == Additions(ops) + if op.AddTo? then [Counted(op.kind, op.count, op.params)] else []
  {
    assert (ops + [op])[..|ops + [op]| - 1] == ops;
  }

  lemma {:induction false} ParamsAddNothing<V>(env: Env<V>, c: Clock, ops: seq<Op<V>>, rule: Rule<V>, count: nat,
                                               params: seq<V>)
    requires IsClock(c) && Follows(ops, c)
    ensures Additions(CheckParams(env, c, ops, rule, count, params).ops) == Additions(ops)
    decreases |params|
  {
    if params != [] {
      var read := ReadAt(c, |ops|, rule.key, params[0]);
      Extends(ops, read, c);
      AdditionsLast(ops, read);
      assert Additions(ops) + [] == Additions(ops);
      ParamsAddNothing(env, c, ops + [read], rule, count, params[1..]);
    }
  }

  lemma {:induction false} RuleAddsNothing<V>(env: Env<V>, c: Clock, ops: seq<Op<V>>, rule: Rule<V>, count: nat,
                                              params: seq<V>)
    requires IsClock(c) && Follows(ops, c) && IsShape(ShapeOf(rule.key))
    ensures Additions(CheckRule(env, c, ops, rule, count, params).ops) == Additions(ops)
  {
    Extends(ops, Initialize(rule.key), c);
    AdditionsLast(ops, Initialize(rule.key));
    assert Additions(ops) + [] == Additions(ops);
    ParamsAddNothing(env, c, ops + [Initialize(rule.key)], rule, count, params);
  }

  lemma {:induction false} RulesAdd<V>(env: Env<V>, c: Clock, ops: seq<Op<V>>, rules: seq<Rule<V>>, count: nat,
                                       params: seq<V>)
    requires IsClock(c) && Follows(ops, c) && AreRules(rules)
    ensures var r := CheckRules(env, c, ops, rules, count, params);
      Additions(r.ops) == Additions(ops) + if r.passed then [] else [Counted(BLOCK, count, params)]
    decreases |rules|
  {
    if rules == [] {
      assert Additions(ops) + [] == Additions(ops);
    } else {
      var checked := CheckRule(env, c, ops, rules[0], count, params);
      RuleAddsNothing(env, c, ops, rules[0], count, params);
      if checked.passed {
        RulesAdd(env, c, checked.ops, rules[1..], count, params);
      } else {
        AdditionsLast(checked.ops, AddAt(c, |checked.ops|, BLOCK, count, params));
      }
    }
  }

  /** Every entry is counted once at most: as blocked when a rule refuses it, as passed when all others let it pass too;
      and a rule refuses it only if it has too little room left for the value of some parameter. */
  lemma EntryIsCounted<V>(env: Env<V>, c: Clock, rules: seq<Rule<V>>, entries: seq<Request<V>>, e: Request<V>)
      returns (refused: bool, j: nat, i: nat, t: nat, u: nat)
    requires IsEnv(env) && IsClock(c) && AreExact(rules)
    ensures Additions(EnterAll(env, c, rules, entries + [e])) == Additions(EnterAll(env, c, rules, entries))
      + (if refused then [Counted(BLOCK, e.count, e.params)]
         else if e.othersPass then [Counted(PASS, e.count, e.params)] else [])
    ensures refused ==> j < |rules| && i < |e.params|
                        && IsRefusal(EnterAll(env, c, rules, entries), rules[j], t, u, e.params[i], e.count)
  {
    var ops := EnterAll(env, c, rules, entries);
    var checked := CheckRules(env, c, ops, rules, e.count, e.params);
    EnterAllNext(env, c, rules, entries, e);
    RulesAdd(env, c, ops, rules, e.count, e.params);
    AdditionsLast(checked.ops, AddAt(c, |checked.ops|, PASS, e.count, e.params));
    refused, j, i, t, u := !checked.passed, 0, 0, 0, 0;
    if refused {
      RunNotNegative(env, c, rules, entries);
      j, i, t, u := RulesRefused(env, c, ops, ops, rules, e.count, e.params);
    } else {
      assert Additions(ops) + [] == Additions(ops);
    }
  }

  lemma {:induction false} RunNotNegative<V>(env: Env<V>, c: Clock, rules: seq<Rule<V>>, entries: seq<Request<V>>)
    requires IsClock(c) && AreRules(rules)
    ensures CountsNotNegative(EnterAll(env, c, rules, entries))
    decreases |entries|
  {
    if entries != [] {
      var e, ops := Last(entries), EnterAll(env, c, rules, entries[..|entries| - 1]);
      RunNotNegative(env, c, rules, entries[..|entries| - 1]);
      QuietlyOn(ops, CheckRules(env, c, ops, rules, e.count, e.params).ops);
    }
  }

  // ---------------------------------------------------------------- a value that can be pushed out

  const START := Clock(_ => 0, (_, _) => 0)

  /** A window in which everything has happened in its first bucket. */
  ghost predicate AtStart<V>(env: Env<V>, a: Array<V>) {
    && IsArray(a)
    && (a.slots[0].Some? ==> a.slots[0].value.start == 0 && |a.slots[0].value.value.pass| == env.numShards)
    && forall i :: 0 < i < |a.slots| ==> a.slots[i].None?
  }

  /** The shard of its cache that serves the value. */
  ghost function CacheOf<V>(env: Env<V>, a: Array<V>, value: V): LruSpec.Cache<V>
    requires IsEnv(env) && AtStart(env, a)
  {
    if a.slots[0].None? then LruSpec.Empty()
    else a.slots[0].value.value.pass[Cache.ShardOf(LayoutOf(env, a.key), value)]
  }

  /** Its first bucket, which is empty before the first use. */
  function FirstBucket<V(==)>(env: Env<V>, a: Array<V>): Bucket<V>
    requires IsArray(a)
  {
    if a.slots[0].Some? then a.slots[0].value.value else EmptyBucket(LayoutOf(env, a.key))
  }

  lemma FirstSlot<V>(env: Env<V>, a: Array<V>)
    requires IsEnv(env) && AtStart(env, a)
    ensures |FirstBucket(env, a).pass| == env.numShards
    ensures Current(ShapeOf(a.key), a.slots, 0, EmptyBucket(LayoutOf(env, a.key)))
         == a.slots[0 := Some(Wrap(0, FirstBucket(env, a)))]
    ensures forall v :: CacheOf(env, a, v) == FirstBucket(env, a).pass[Cache.ShardOf(LayoutOf(env, a.key), v)]
  {
  }

  lemma AbsentBucket<V>(l: Cache.Layout<V>, b: Bucket<V>, value: V)
    requires Cache.IsLayout(l) && |b.pass| == l.numShards && value !in b.pass[Cache.ShardOf(l, value)].count
    ensures Apply(l)(b, Get(PASS, value)) == b && CountOf(l, PASS, value)(b) == 0
  {
    assert Cache.Step(l, b.pass, LruSpec.Find(value)) == b.pass;
    ApplyOne(l, b, Get(PASS, value), PASS);
    ApplyOne(l, b, Get(PASS, value), BLOCK);
  }

  /** Asking for a value that is not there changes nothing. */
  lemma AbsentReadsNothing<V>(env: Env<V>, a: Array<V>, value: V)
    requires IsEnv(env) && AtStart(env, a) && value !in CacheOf(env, a, value).count
    ensures var l, sh := LayoutOf(env, a.key), ShapeOf(a.key);
      SumOfLive(sh, Current(sh, a.slots, 0, EmptyBucket(l)), 0, CountOf(l, PASS, value)) == 0
    ensures var p := Peeked(env, a, 0, 0, PASS, value);
      p.key == a.key && p.slots == a.slots[0 := Some(Wrap(0, FirstBucket(env, a)))]
  {
    var l, sh := LayoutOf(env, a.key), ShapeOf(a.key);
    var r := Current(sh, a.slots, 0, EmptyBucket(l));
    FirstSlot(env, a);
    AbsentBucket(l, FirstBucket(env, a), value);
    NothingBehind(sh, r[1..], 0, CountOf(l, PASS, value));
    assert PokeLive(sh, r, 0, b => Apply(l)(b, Get(PASS, value))) == r;
  }

  lemma FirstReplaced<V>(env: Env<V>, a: Array<V>, p: Array<V>, b: Bucket<V>)
    requires IsEnv(env) && AtStart(env, a) && IsArray(p) && p.key == a.key
    requires p.slots == a.slots[0 := Some(Wrap(0, b))] && |b.pass| == env.numShards
    ensures AtStart(env, p) && forall v :: CacheOf(env, p, v) == b.pass[Cache.ShardOf(LayoutOf(env, a.key), v)]
  {
  }

  lemma AddedToShard<V>(l: Cache.Layout<V>, b: Bucket<V>, value: V, count: int)
    requires Cache.IsLayout(l) && |b.pass| == l.numShards
    ensures var j, next := Cache.ShardOf(l, value), Apply(l)(b, Add(PASS, value, count));
      |next.pass| == l.numShards
      && next.pass[j] == LruSpec.Step(b.pass[j], LruSpec.Increase(value, count), Cache.RoomOf(l, j))
  {
    ApplyOne(l, b, Add(PASS, value, count), PASS);
  }

  lemma RecordedFirst<V>(env: Env<V>, a: Array<V>, e: Event<V>)
    requires IsEnv(env) && AtStart(env, a)
    ensures Record(env, a, 0, e).slots
         == a.slots[0 := Some(Wrap(0, Apply(LayoutOf(env, a.key))(FirstBucket(env, a), e)))]
  {
    FirstSlot(env, a);
  }

  lemma RecordsAtStart<V>(env: Env<V>, a: Array<V>, value: V, count: int)
    requires IsEnv(env) && AtStart(env, a)
    ensures var r, l := Record(env, a, 0, Add(PASS, value, count)), LayoutOf(env, a.key);
      && AtStart(env, r) && r.key == a.key
      && CacheOf(env, r, value)
         == LruSpec.Step(CacheOf(env, a, value), LruSpec.Increase(value, count),
                         Cache.RoomOf(l, Cache.ShardOf(l, value)))
  {
    var l, e, b := LayoutOf(env, a.key), Add(PASS, value, count), FirstBucket(env, a);
    FirstSlot(env, a);
    AddedToShard(l, b, value, count);
    RecordedFirst(env, a, e);
    FirstReplaced(env, a, Record(env, a, 0, e), Apply(l)(b, e));
  }

  function RoomFor<V>(env: Env<V>, k: Key, value: V): (r: nat)
    requires IsEnv(env)
    ensures r >= 1
  {
    Cache.RoomOf(LayoutOf(env, k), Cache.ShardOf(LayoutOf(env, k), value))
  }

  /** The values of the shard that have passed so far, the latest first: the cache holds the first of them. */
  ghost predicate Standing<V>(env: Env<V>, m: Metric<V>, k: Key, value: V, stack: seq<V>) {
    && IsEnv(env) && k in m.rolling && m.rolling[k] in m.arrays && ArrayOf(m, k).key == k && AtStart(env, ArrayOf(m, k))
    && var cache := CacheOf(env, ArrayOf(m, k), value);
       LruSpec.Wf(cache) && cache.keys == Take(stack, RoomFor(env, k, value))
  }

  /** A value of the same shard that is not in the cache. */
  predicate IsOut<V(==)>(env: Env<V>, k: Key, value: V, stack: seq<V>, x: V)
    requires IsEnv(env)
  {
    && Cache.ShardOf(LayoutOf(env, k), x) == Cache.ShardOf(LayoutOf(env, k), value)
    && x !in Take(stack, RoomFor(env, k, value))
  }

  lemma BlankStands<V>(env: Env<V>, k: Key, value: V)
    requires IsEnv(env) && IsShape(ShapeOf(k))
    ensures Standing(env, InitializeFor(Blank(), k), k, value, [])
  {
  }

  lemma NotThere<V>(env: Env<V>, m: Metric<V>, k: Key, value: V, stack: seq<V>, x: V)
    requires Standing(env, m, k, value, stack) && IsOut(env, k, value, stack, x)
    ensures x !in CacheOf(env, ArrayOf(m, k), x).count
  {
    var cache := CacheOf(env, ArrayOf(m, k), x);
    assert cache == CacheOf(env, ArrayOf(m, k), value);
    assert x !in Elements(cache.keys);
  }

  lemma ReadStands<V>(env: Env<V>, m: Metric<V>, k: Key, value: V, stack: seq<V>, x: V)
    requires AreArrays(m) && Standing(env, m, k, value, stack) && IsOut(env, k, value, stack, x)
    ensures var r := GetInterval(env, m, 0, 0, k, PASS, x); r.sum == 0 && Standing(env, r.metric, k, value, stack)
  {
    var a := ArrayOf(m, k);
    NotThere(env, m, k, value, stack, x);
    AbsentReadsNothing(env, a, x);
    FirstSlot(env, a);
    FirstReplaced(env, a, Peeked(env, a, 0, 0, PASS, x), FirstBucket(env, a));
  }

  lemma PushTaken<V>(cache: LruSpec.Cache<V>, stack: seq<V>, room: nat, x: V, count: int)
    requires LruSpec.Wf(cache) && room >= 1 && cache.keys == Take(stack, room) && x !in cache.count
    ensures var next := LruSpec.Step(cache, LruSpec.Increase(x, count), room);
      LruSpec.Wf(next) && next.keys == Take([x] + stack, room)
  {
    LruSpec.AddIsWf(cache, x, count, room);
    LruSpec.TakeCons(x, stack, room);
  }

  lemma AddStands<V>(env: Env<V>, m: Metric<V>, k: Key, value: V, stack: seq<V>, x: V, when: Key -> nat, count: int,
                     params: seq<V>)
    requires Linked(m) && Standing(env, m, k, value, stack) && IsOut(env, k, value, stack, x)
    requires 0 <= k.paramIdx < |params| && params[k.paramIdx] == x && when(k) == 0
    ensures Standing(env, AddFrom(env, m, when, PASS, count, params, 0), k, value, [x] + stack)
  {
    var a, n := ArrayOf(m, k), AddFrom(env, m, when, PASS, count, params, 0);
    AddFromEach(env, m, when, PASS, count, params, 0, m.rolling[k]);
    assert ArrayOf(n, k) == Record(env, a, 0, Add(PASS, x, count));
    NotThere(env, m, k, value, stack, x);
    RecordsAtStart(env, a, x, count);
    PushTaken(CacheOf(env, a, x), stack, RoomFor(env, k, value), x, count);
  }

  // ---------------------------------------------------------------- a run that pushes it out

  /** A run at the start of time, with what it has logged in the first window and beyond. */
  ghost predicate StandsAfter<V>(env: Env<V>, ops: seq<Op<V>>, k: Key, value: V, stack: seq<V>, total: int) {
    && Follows(ops, START) && IsShape(ShapeOf(k)) && Initialised(ops, k)
    && Standing(env, Run(env, ops), k, value, stack)
    && Logged(ops, k, -1, PASS, value) == total && Logged(ops, k, k.sampleCount - 1, PASS, value) == 0
  }

  lemma RunNext<V>(env: Env<V>, ops: seq<Op<V>>, op: Op<V>)
    requires IsRun(ops) && IsRun(ops + [op])
    ensures Run(env, ops + [op]) == Step(env, Run(env, ops), op)
  {
    assert (ops + [op])[..|ops + [op]| - 1] == ops;
  }

  lemma InitializeStandsAfter<V>(env: Env<V>, ops: seq<Op<V>>, k: Key, value: V, stack: seq<V>,
                                                    total: int)
    requires StandsAfter(env, ops, k, value, stack, total)
    ensures StandsAfter(env, ops + [Initialize(k)], k, value, stack, total)
  {
    Extends(ops, Initialize(k), START);
    RunNext(env, ops, Initialize(k));
    InitialisedStays(ops, ops + [Initialize(k)], k);
    LoggedLast(ops, Initialize(k), k, -1, value);
    LoggedLast(ops, Initialize(k), k, k.sampleCount - 1, value);
  }

  lemma FirstStandsAfter<V>(env: Env<V>, k: Key, value: V)
    requires IsEnv(env) && IsShape(ShapeOf(k))
    ensures StandsAfter(env, [Initialize(k)], k, value, [], 0)
  {
    InitializeRuns(env, k);
    BlankStands(env, k, value);
  }

  lemma ReadStandsAfter<V>(env: Env<V>, ops: seq<Op<V>>, k: Key, value: V, stack: seq<V>, total: int,
                                              x: V)
    requires StandsAfter(env, ops, k, value, stack, total) && IsOut(env, k, value, stack, x)
    ensures PassInterval(env, ops, ReadAt(START, |ops|, k, x)) == 0
    ensures StandsAfter(env, ops + [ReadAt(START, |ops|, k, x)], k, value, stack, total)
  {
    var read := ReadAt(START, |ops|, k, x);
    Extends(ops, read, START);
    RunNext(env, ops, read);
    ReadStands(env, Run(env, ops), k, value, stack, x);
    InitialisedStays(ops, ops + [read], k);
    LoggedLast(ops, read, k, -1, value);
    LoggedLast(ops, read, k, k.sampleCount - 1, value);
  }

  /** An addition of x at the start of time. */
  ghost predicate AddsAtStart<V>(op: Op<V>, k: Key, x: V) {
    && op.AddTo? && op.kind == PASS && op.when(k) == 0
    && 0 <= k.paramIdx < |op.params| && op.params[k.paramIdx] == x
  }

  lemma AddLogs<V>(ops: seq<Op<V>>, op: Op<V>, k: Key, value: V, x: V)
    requires IsShape(ShapeOf(k)) && Initialised(ops, k) && AddsAtStart(op, k, x)
    ensures Logged(ops + [op], k, -1, PASS, value)
         == Logged(ops, k, -1, PASS, value) + if x == value then op.count else 0
    ensures Logged(ops + [op], k, k.sampleCount - 1, PASS, value) == Logged(ops, k, k.sampleCount - 1, PASS, value)
  {
    LoggedLast(ops, op, k, -1, value);
    LoggedLast(ops, op, k, k.sampleCount - 1, value);
  }

  lemma StepStands<V>(env: Env<V>, m: Metric<V>, op: Op<V>, k: Key, value: V, stack: seq<V>, x: V)
    requires Linked(m) && Standing(env, m, k, value, stack) && IsOut(env, k, value, stack, x)
    requires AddsAtStart(op, k, x)
    ensures Standing(env, Step(env, m, op), k, value, [x] + stack)
  {
    AddStands(env, m, k, value, stack, x, op.when, op.count, op.params);
  }

  lemma RunStands<V>(env: Env<V>, ops: seq<Op<V>>, op: Op<V>, k: Key, value: V, stack: seq<V>, x: V)
    requires IsRun(ops) && IsRun(ops + [op]) && Standing(env, Run(env, ops), k, value, stack)
    requires IsOut(env, k, value, stack, x) && AddsAtStart(op, k, x)
    ensures Standing(env, Run(env, ops + [op]), k, value, [x] + stack)
  {
    RunNext(env, ops, op);
    RunKeeps(env, ops);
    StepStands(env, Run(env, ops), op, k, value, stack, x);
  }

  lemma AddStandsAfter<V>(env: Env<V>, ops: seq<Op<V>>, op: Op<V>, k: Key, value: V, stack: seq<V>,
                                             total: int, x: V)
    requires StandsAfter(env, ops, k, value, stack, total) && IsOut(env, k, value, stack, x)
    requires AddsAtStart(op, k, x) && Follows(ops + [op], START)
    ensures StandsAfter(env, ops + [op], k, value, [x] + stack, if x == value then total + op.count else total)
  {
    RunStands(env, ops, op, k, value, stack, x);
    InitialisedStays(ops, ops + [op], k);
    AddLogs(ops, op, k, value, x);
  }

  /** A call with the value at the watched position, and everywhere before it. */
  function Asks<V>(k: Key, x: V, count: nat): Request<V>
    requires k.paramIdx >= 0
  {
    Request(count, seq(k.paramIdx + 1, _ => x), true)
  }

  lemma {:induction false} ParamsStand<V>(env: Env<V>, ops: seq<Op<V>>, rule: Rule<V>, value: V, stack: seq<V>,
                                          total: int, x: V, count: nat, params: seq<V>)
    requires StandsAfter(env, ops, rule.key, value, stack, total) && IsOut(env, rule.key, value, stack, x)
    requires (forall i :: 0 <= i < |params| ==> params[i] == x) && count <= Limit(rule, x)
    ensures var r := CheckParams(env, START, ops, rule, count, params);
      r.passed && StandsAfter(env, r.ops, rule.key, value, stack, total)
    decreases |params|
  {
    if params != [] {
      var next := ops + [ReadAt(START, |ops|, rule.key, x)];
      ReadStandsAfter(env, ops, rule.key, value, stack, total, x);
      assert params[0] == x;
      ParamsStand(env, next, rule, value, stack, total, x, count, params[1..]);
    }
  }

  lemma OneRule<V>(env: Env<V>, c: Clock, ops: seq<Op<V>>, rule: Rule<V>, count: nat, params: seq<V>)
    requires IsClock(c) && Follows(ops, c) && IsShape(ShapeOf(rule.key))
    requires CheckRule(env, c, ops, rule, count, params).passed
    ensures CheckRules(env, c, ops, [rule], count, params) == CheckRule(env, c, ops, rule, count, params)
  {
    assert [rule][1..] == [];
  }

  lemma AsksPass<V>(env: Env<V>, ops: seq<Op<V>>, rule: Rule<V>, value: V, stack: seq<V>, total: int,
                                       x: V, count: nat)
      returns (checked: seq<Op<V>>)
    requires Follows(ops, START) && rule.key.paramIdx >= 0 && count <= Limit(rule, x)
    requires StandsAfter(env, ops + [Initialize(rule.key)], rule.key, value, stack, total)
    requires IsOut(env, rule.key, value, stack, x)
    ensures Follows(checked, START) && StandsAfter(env, checked, rule.key, value, stack, total)
    ensures CheckRules(env, START, ops, [rule], count, Asks(rule.key, x, count).params) == Outcome(checked, true)
  {
    var params := Asks(rule.key, x, count).params;
    ParamsStand(env, ops + [Initialize(rule.key)], rule, value, stack, total, x, count, params);
    OneRule(env, START, ops, rule, count, params);
    checked := CheckRule(env, START, ops, rule, count, params).ops;
  }

  lemma PassStands<V>(env: Env<V>, ops: seq<Op<V>>, k: Key, value: V, stack: seq<V>, total: int, x: V,
                                         count: nat, params: seq<V>)
    requires StandsAfter(env, ops, k, value, stack, total) && IsOut(env, k, value, stack, x)
    requires 0 <= k.paramIdx < |params| && params[k.paramIdx] == x
    ensures StandsAfter(env, ops + [AddAt(START, |ops|, PASS, count, params)], k, value, [x] + stack,
                        if x == value then total + count else total)
  {
    var pass := AddAt(START, |ops|, PASS, count, params);
    AddExtends(ops, START, PASS, count, params);
    AddStandsAfter(env, ops, pass, k, value, stack, total, x);
  }

  /** With the value out of its cache the call passes, whatever is in the window. */
  lemma EnterStands<V>(env: Env<V>, ops: seq<Op<V>>, rule: Rule<V>, value: V, stack: seq<V>,
                                          total: int, x: V, count: nat)
    requires Follows(ops, START) && rule.key.paramIdx >= 0 && count <= Limit(rule, x)
    requires StandsAfter(env, ops + [Initialize(rule.key)], rule.key, value, stack, total)
    requires IsOut(env, rule.key, value, stack, x)
    ensures StandsAfter(env, Enter(env, START, ops, [rule], Asks(rule.key, x, count)), rule.key, value, [x] + stack,
                        if x == value then total + count else total)
  {
    var checked := AsksPass(env, ops, rule, value, stack, total, x, count);
    PassStands(env, checked, rule.key, value, stack, total, x, count, Asks(rule.key, x, count).params);
  }

  /** The value, and then the others one by one. */
  function StackOf<V>(value: V, others: seq<V>, n: nat): (stack: seq<V>)
    requires n <= |others|
    ensures |stack| == n + 1 && stack[n] == value && forall i :: 0 <= i < n ==> stack[i] == others[n - 1 - i]
  {
    if n == 0 then [value] else [others[n - 1]] + StackOf(value, others, n - 1)
  }

  lemma {:induction false} NextStands<V>(env: Env<V>, rule: Rule<V>, before: seq<Request<V>>, value: V, stack: seq<V>,
                                         total: int, x: V, count: nat)
    requires IsEnv(env) && IsShape(ShapeOf(rule.key)) && rule.key.paramIdx >= 0 && count <= Limit(rule, x)
    requires StandsAfter(env, EnterAll(env, START, [rule], before) + [Initialize(rule.key)], rule.key, value, stack,
                         total)
    requires IsOut(env, rule.key, value, stack, x)
    ensures StandsAfter(env, EnterAll(env, START, [rule], before + [Asks(rule.key, x, count)]), rule.key, value,
                        [x] + stack, if x == value then total + count else total)
  {
    EnterStands(env, EnterAll(env, START, [rule], before), rule, value, stack, total, x, count);
    EnterAllNext(env, START, [rule], before, Asks(rule.key, x, count));
  }

  lemma ThenStands<V>(env: Env<V>, rule: Rule<V>, before: seq<Request<V>>, value: V, stack: seq<V>,
                                         total: int, x: V, count: nat)
    requires IsEnv(env) && IsShape(ShapeOf(rule.key)) && rule.key.paramIdx >= 0 && count <= Limit(rule, x)
    requires StandsAfter(env, EnterAll(env, START, [rule], before), rule.key, value, stack, total)
    requires IsOut(env, rule.key, value, stack, x)
    ensures StandsAfter(env, EnterAll(env, START, [rule], before + [Asks(rule.key, x, count)]), rule.key, value,
                        [x] + stack, if x == value then total + count else total)
  {
    InitializeStandsAfter(env, EnterAll(env, START, [rule], before), rule.key, value, stack, total);
    NextStands(env, rule, before, value, stack, total, x, count);
  }

  lemma BeforeAll<V>(env: Env<V>, rule: Rule<V>, value: V)
      returns (none: seq<Request<V>>, stack: seq<V>)
    requires IsEnv(env) && IsShape(ShapeOf(rule.key))
    ensures StandsAfter(env, EnterAll(env, START, [rule], none) + [Initialize(rule.key)], rule.key, value, stack, 0)
    ensures stack == []
  {
    none, stack := [], [];
    assert EnterAll(env, START, [rule], none) + [Initialize(rule.key)] == [Initialize(rule.key)];
    FirstStandsAfter(env, rule.key, value);
  }

  lemma FirstStands<V>(env: Env<V>, rule: Rule<V>, value: V) returns (entries: seq<Request<V>>)
    requires IsEnv(env) && IsShape(ShapeOf(rule.key)) && rule.key.paramIdx >= 0
    ensures StandsAfter(env, EnterAll(env, START, [rule], entries), rule.key, value, [value], Limit(rule, value))
  {
    var none, stack := BeforeAll(env, rule, value);
    NextStands(env, rule, none, value, stack, 0, value, Limit(rule, value));
    entries := none + [Asks(rule.key, value, Limit(rule, value))];
    assert [value] + stack == [value];
  }

  lemma StackMisses<V>(value: V, others: seq<V>, n: nat, room: nat, x: V)
    requires n <= |others| && x !in others[..n] && (x == value ==> room <= n)
    ensures x !in Take(StackOf(value, others, n), room)
  {
    var stack := StackOf(value, others, n);
    forall i | 0 <= i < n ensures stack[i] != x {
      assert others[n - 1 - i] in others[..n];
    }
  }

  lemma OfCrowd<V>(env: Env<V>, k: Key, value: V, others: seq<V>, i: nat)
    requires IsEnv(env) && i < |others| && Cache.IsCrowd(LayoutOf(env, k), value, others)
    ensures others[i] != value && others[i] !in others[..i]
    ensures Cache.ShardOf(LayoutOf(env, k), others[i]) == Cache.ShardOf(LayoutOf(env, k), value)
  {
    assert others[i] in others;
  }

  lemma OtherIsOut<V>(env: Env<V>, k: Key, value: V, others: seq<V>, n: nat)
    requires IsEnv(env) && n < |others| && Cache.IsCrowd(LayoutOf(env, k), value, others)
    ensures IsOut(env, k, value, StackOf(value, others, n), others[n])
  {
    OfCrowd(env, k, value, others, n);
    StackMisses(value, others, n, RoomFor(env, k, value), others[n]);
  }

  lemma PushedOut<V>(env: Env<V>, k: Key, value: V, others: seq<V>)
    requires IsEnv(env) && Cache.IsCrowd(LayoutOf(env, k), value, others)
    ensures IsOut(env, k, value, StackOf(value, others, |others|), value)
  {
    StackMisses(value, others, |others|, RoomFor(env, k, value), value);
  }

  /** A run in which the value's whole threshold has passed, and then n others, asking for nothing. */
  ghost predicate Flooded<V>(env: Env<V>, rule: Rule<V>, value: V, others: seq<V>, n: nat, entries: seq<Request<V>>) {
    && IsEnv(env) && IsShape(ShapeOf(rule.key)) && n <= |others|
    && StandsAfter(env, EnterAll(env, START, [rule], entries), rule.key, value, StackOf(value, others, n),
                   Limit(rule, value))
  }

  ghost predicate CanFlood<V(!new)>(env: Env<V>, rule: Rule<V>, value: V, others: seq<V>, n: nat) {
    exists entries :: Flooded(env, rule, value, others, n, entries)
  }

  lemma FirstFlooded<V(!new)>(env: Env<V>, rule: Rule<V>, value: V, others: seq<V>)
    requires IsEnv(env) && IsShape(ShapeOf(rule.key)) && rule.key.paramIdx >= 0
    ensures CanFlood(env, rule, value, others, 0)
  {
    var entries := FirstStands(env, rule, value);
    assert StackOf(value, others, 0) == [value];
    assert Flooded(env, rule, value, others, 0, entries);
  }

  lemma OtherFlooded<V>(env: Env<V>, rule: Rule<V>, value: V, others: seq<V>, n: nat,
                                           before: seq<Request<V>>)
      returns (entries: seq<Request<V>>)
    requires Flooded(env, rule, value, others, n, before) && rule.key.paramIdx >= 0 && n < |others|
    requires Cache.IsCrowd(LayoutOf(env, rule.key), value, others)
    ensures Flooded(env, rule, value, others, n + 1, entries)
  {
    OtherIsOut(env, rule.key, value, others, n);
    OfCrowd(env, rule.key, value, others, n);
    ThenStands(env, rule, before, value, StackOf(value, others, n), Limit(rule, value), others[n], 0);
    entries := before + [Asks(rule.key, others[n], 0)];
    assert StackOf(value, others, n + 1) == [others[n]] + StackOf(value, others, n);
  }

  lemma NextFlooded<V(!new)>(env: Env<V>, rule: Rule<V>, value: V, others: seq<V>, n: nat)
    requires CanFlood(env, rule, value, others, n) && rule.key.paramIdx >= 0 && n < |others| && IsEnv(env)
    requires Cache.IsCrowd(LayoutOf(env, rule.key), value, others)
    ensures CanFlood(env, rule, value, others, n + 1)
  {
    var before :| Flooded(env, rule, value, others, n, before);
    var entries := OtherFlooded(env, rule, value, others, n, before);
    assert Flooded(env, rule, value, others, n + 1, entries);
  }

  lemma {:induction false} UpTo(p: nat -> bool, n: nat)
    requires p(0) && forall i: nat :: i < n && p(i) ==> p(i + 1)
    ensures p(n)
    decreases n
  {
    if n > 0 {
      UpTo(p, n - 1);
      assert p(n - 1 + 1);
    }
  }

  lemma AllFlooded<V(!new)>(env: Env<V>, rule: Rule<V>, value: V, others: seq<V>)
    requires IsEnv(env) && IsShape(ShapeOf(rule.key)) && rule.key.paramIdx >= 0
    requires Cache.IsCrowd(LayoutOf(env, rule.key), value, others)
    ensures CanFlood(env, rule, value, others, |others|)
  {
    var p := (n: nat) => CanFlood(env, rule, value, others, n);
    FirstFlooded(env, rule, value, others);
    forall n: nat | n < |others| && p(n) ensures p(n + 1) {
      NextFlooded(env, rule, value, others, n);
    }
    UpTo(p, |others|);
  }

  /** So its whole threshold passes once more in the same window. */
  lemma PassesAgain<V>(env: Env<V>, rule: Rule<V>, value: V, others: seq<V>, before: seq<Request<V>>)
    requires Flooded(env, rule, value, others, |others|, before) && rule.key.paramIdx >= 0
    requires Cache.IsCrowd(LayoutOf(env, rule.key), value, others)
    ensures var entries := before + [Asks(rule.key, value, Limit(rule, value))];
      Passed(EnterAll(env, START, [rule], entries), rule.key, -1, value) == 2 * Limit(rule, value)
  {
    var limit := Limit(rule, value);
    PushedOut(env, rule.key, value, others);
    ThenStands(env, rule, before, value, StackOf(value, others, |others|), limit, value, limit);
  }

  lemma FloodBreaksQuota<V(!new)>(env: Env<V>, rule: Rule<V>, value: V, others: seq<V>)
      returns (entries: seq<Request<V>>)
    requires IsEnv(env) && IsShape(ShapeOf(rule.key)) && rule.key.paramIdx >= 0
    requires Cache.IsCrowd(LayoutOf(env, rule.key), value, others)
    ensures Passed(EnterAll(env, START, [rule], entries), rule.key, -1, value) == 2 * Limit(rule, value)
  {
    AllFlooded(env, rule, value, others);
    var before :| Flooded(env, rule, value, others, |others|, before);
    PassesAgain(env, rule, value, others, before);
    entries := before + [Asks(rule.key, value, Limit(rule, value))];
  }

  /** Of any `samples` consecutive buckets no more than the threshold of a value is passed, in all runs of a rule, if
      and only if that threshold is 0 or there are not enough other values in the shard of its cache to fill it.
      Nothing checks a rule's cache size against that. */
  lemma QuotaHoldsIff<V(!new)>(env: Env<V>, rule: Rule<V>, value: V)
    requires IsEnv(env) && IsShape(ShapeOf(rule.key)) && rule.key.paramIdx >= 0
    ensures var most := if value in rule.items then rule.items[value] else rule.threshold;
      (forall c, entries: seq<Request<V>> :: IsClock(c) ==>
         AtMostPassed(EnterAll(env, c, [rule], entries), rule.key, value, most))
      <==> (most == 0 || !Cache.Crowded(LayoutOf(env, rule.key), value))
  {
    var most := if value in rule.items then rule.items[value] else rule.threshold;
    if Holds(env, rule, value) {
      forall c, entries: seq<Request<V>> | IsClock(c)
        ensures AtMostPassed(EnterAll(env, c, [rule], entries), rule.key, value, most)
      {
        RunKeepsQuota(env, c, [rule], entries, rule, value);
        assert WithinQuota(EnterAll(env, c, [rule], entries), rule, value);
      }
    } else {
      var others: seq<V> :| Cache.IsCrowd(LayoutOf(env, rule.key), value, others);
      var entries := FloodBreaksQuota(env, rule, value, others);
      assert !AtMostPassed(EnterAll(env, START, [rule], entries), rule.key, value, most);
    }
  }
}
