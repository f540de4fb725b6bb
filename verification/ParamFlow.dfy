/** The hot parameter check as code: loops over parameters and rules on a parameter metric that every call changes. */
module ParamFlow {
  import opened Ring
  import opened ParamMetric
  import opened ParamQuota
  import Counters = ParamCounters

  /** The metric has seen exactly these operations. */
  ghost predicate HasSeen<V>(metric: Counters.ParamMetric<V>, ops: seq<Op<V>>, c: Clock)
    reads metric
  {
    metric.Valid() && IsClock(c) && Follows(ops, c) && metric.Contents() == Run(metric.env, ops)
  }

  /** ParamFlowChecker::PassSingleValueCheck; `n` is the number of operations so far. */
  method PassSingleValueCheck<V(==)>(metric: Counters.ParamMetric<V>, ghost ops: seq<Op<V>>, c: Clock, n: nat,
                                     rule: Rule<V>, count: nat, value: V)
      returns (passed: bool)
    requires HasSeen(metric, ops, c) && n == |ops|
    modifies metric
    ensures HasSeen(metric, ops + [ReadAt(c, n, rule.key, value)], c)
    ensures var most := if value in rule.items then rule.items[value] else rule.threshold;
      passed <==> count + PassInterval(metric.env, ops, ReadAt(c, n, rule.key, value)) <= most
  {
    ghost var read := ReadAt(c, n, rule.key, value);
    Extends(ops, read, c);
    RunNext(metric.env, ops, read);
    var current := metric.GetInterval(c.now(2 * n), c.now(2 * n + 1), rule.key, PASS, value);
    var threshold := rule.threshold;
    if value in rule.items {
      threshold := rule.items[value];
    }
    passed := count + current <= threshold;
  }

  /** ParamFlowChecker::PassLocalCheck. */
  method PassLocalCheck<V(==)>(metric: Counters.ParamMetric<V>, ghost ops: seq<Op<V>>, c: Clock, n: nat, rule: Rule<V>,
                               count: nat, params: seq<V>)
      returns (passed: bool, m: nat, ghost after: seq<Op<V>>)
    requires HasSeen(metric, ops, c) && n == |ops|
    modifies metric
    ensures HasSeen(metric, after, c) && m == |after|
    ensures Outcome(after, passed) == CheckParams(metric.env, c, ops, rule, count, params)
  {
    m, after := n, ops;
    ghost var all := CheckParams(metric.env, c, ops, rule, count, params);
    var i := 0;
    assert params[0..] == params;
    while i < |params|
      invariant 0 <= i <= |params| && HasSeen(metric, after, c) && m == |after|
      invariant CheckParams(metric.env, c, after, rule, count, params[i..]) == all
    {
      assert params[i..][0] == params[i] && params[i..][1..] == params[i + 1..];
      passed := PassSingleValueCheck(metric, after, c, m, rule, count, params[i]);
      after, m := after + [ReadAt(c, m, rule.key, params[i])], m + 1;
      if !passed {
        return;
      }
      i := i + 1;
    }
    passed := true;
  }

  /** ParamFlowSlot::initHotParamMetricsFor. */
  method InitHotParamMetricsFor<V(==)>(metric: Counters.ParamMetric<V>, ghost ops: seq<Op<V>>, c: Clock, rule: Rule<V>)
    requires HasSeen(metric, ops, c) && IsShape(ShapeOf(rule.key))
    modifies metric
    ensures HasSeen(metric, ops + [Initialize(rule.key)], c)
  {
    Extends(ops, Initialize(rule.key), c);
    RunNext(metric.env, ops, Initialize(rule.key));
    metric.InitializeForRule(rule.key);
  }

  /** ParamMetric::AddPass and AddBlock. */
  method AddCount<V(==)>(metric: Counters.ParamMetric<V>, ghost ops: seq<Op<V>>, c: Clock, n: nat, kind: Kind,
                         count: nat, params: seq<V>)
    requires HasSeen(metric, ops, c) && n == |ops|
    modifies metric
    ensures HasSeen(metric, ops + [AddAt(c, n, kind, count, params)], c)
  {
    AddExtends(ops, c, kind, count, params);
    RunNext(metric.env, ops, AddAt(c, n, kind, count, params));
    metric.Add(k => c.when(n, k), kind, count, params);
  }

  /** One rule of the loop: its window is set up if it has none yet, and the parameters are checked. */
  method CheckOne<V(==)>(metric: Counters.ParamMetric<V>, ghost ops: seq<Op<V>>, c: Clock, n: nat, rule: Rule<V>,
                         count: nat, params: seq<V>)
      returns (passed: bool, m: nat, ghost after: seq<Op<V>>)
    requires HasSeen(metric, ops, c) && n == |ops| && IsShape(ShapeOf(rule.key))
    modifies metric
    ensures HasSeen(metric, after, c) && m == |after|
    ensures Outcome(after, passed) == CheckRule(metric.env, c, ops, rule, count, params)
  {
    InitHotParamMetricsFor(metric, ops, c, rule);
    passed, m, after := PassLocalCheck(metric, ops + [Initialize(rule.key)], c, n + 1, rule, count, params);
  }

  /** ParamFlowSlot::CheckFlow. */
  method CheckFlow<V(==)>(metric: Counters.ParamMetric<V>, ghost ops: seq<Op<V>>, c: Clock, n: nat, rules: seq<Rule<V>>,
                          count: nat, params: seq<V>)
      returns (passed: bool, m: nat, ghost after: seq<Op<V>>)
    requires HasSeen(metric, ops, c) && n == |ops| && AreRules(rules)
    modifies metric
    ensures HasSeen(metric, after, c) && m == |after|
    ensures Outcome(after, passed) == CheckRules(metric.env, c, ops, rules, count, params)
  {
    m, after := n, ops;
    ghost var all := CheckRules(metric.env, c, ops, rules, count, params);
    var i := 0;
    assert rules[0..] == rules;
    while i < |rules|
      invariant 0 <= i <= |rules| && HasSeen(metric, after, c) && m == |after|
      invariant CheckRules(metric.env, c, after, rules[i..], count, params) == all
    {
      assert rules[i..][0] == rules[i] && rules[i..][1..] == rules[i + 1..];
      passed, m, after := CheckOne(metric, after, c, m, rules[i], count, params);
      if !passed {
        AddCount(metric, after, c, m, BLOCK, count, params);
        after, m := after + [AddAt(c, m, BLOCK, count, params)], m + 1;
        return;
      }
      i := i + 1;
    }
    passed := true;
  }

  /** An entry: ParamFlowSlot::Entry, the other slots, and StatisticSlot::OnPass when all of them let it pass. */
  method Entry<V(==)>(metric: Counters.ParamMetric<V>, ghost ops: seq<Op<V>>, c: Clock, n: nat, rules: seq<Rule<V>>,
                      e: Request<V>)
      returns (passed: bool)
    requires HasSeen(metric, ops, c) && n == |ops| && AreRules(rules)
    modifies metric
    ensures HasSeen(metric, Enter(metric.env, c, ops, rules, e), c)
    ensures passed == (CheckRules(metric.env, c, ops, rules, e.count, e.params).passed && e.othersPass)
  {
    var m;
    ghost var after;
    passed, m, after := CheckFlow(metric, ops, c, n, rules, e.count, e.params);
    passed := passed && e.othersPass;
    if passed {
      AddCount(metric, after, c, m, PASS, e.count, e.params);
    }
  }
}
