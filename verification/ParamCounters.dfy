/** The parameter metric as an object whose calls loop over parameters, windows and buckets. */
module ParamCounters {
  import opened Options
  import opened Ring
  import opened ParamWindow
  import Spec = ParamMetric

  lemma {:induction false} SumOfFirst<B>(sh: Shape, r: Slots<B>, n: nat, t: int, m: B -> int)
    requires n < |r|
    ensures SumOfLive(sh, r[..n + 1], t, m)
         == SumOfLive(sh, r[..n], t, m) + if IsLive(sh, t, r[n]) then m(r[n].value.value) else 0
    decreases n
  {
    if n == 0 {
      assert r[..1][1..] == [] && r[..0] == [];
    } else {
      SumOfFirst(sh, r[1..], n - 1, t, m);
      assert r[..n + 1][1..] == r[1..][..n] && r[..n][1..] == r[1..][..n - 1];
    }
  }

  ghost predicate AreArrays<V>(arrays: map<nat, Spec.Array<V>>) {
    forall a :: a in arrays ==> Spec.IsArray(arrays[a])
  }

  /** One window, if the address is one. */
  function RecordOne<V(==)>(env: Spec.Env<V>, arrays: map<nat, Spec.Array<V>>, a: nat, when: Spec.Key -> nat,
                            e: Spec.Event<V>)
      : (r: map<nat, Spec.Array<V>>)
    requires AreArrays(arrays)
    ensures AreArrays(r)
  {
    if a in arrays then arrays[a := Spec.Record(env, arrays[a], when(arrays[a].key), e)] else arrays
  }

  lemma RecordAtNext<V>(env: Spec.Env<V>, arrays: map<nat, Spec.Array<V>>, at: seq<nat>, i: nat,
                        when: Spec.Key -> nat, e: Spec.Event<V>)
    requires i < |at| && AreArrays(arrays)
    ensures Spec.RecordAt(env, arrays, at[i..], when, e)
         == Spec.RecordAt(env, RecordOne(env, arrays, at[i], when, e), at[i + 1..], when, e)
  {
    assert at[i..][0] == at[i] && at[i..][1..] == at[i + 1..];
  }

  lemma RecordAtNone<V>(env: Spec.Env<V>, arrays: map<nat, Spec.Array<V>>, at: seq<nat>, when: Spec.Key -> nat,
                        e: Spec.Event<V>)
    requires AreArrays(arrays)
    ensures Spec.RecordAt(env, arrays, at[|at|..], when, e) == arrays && at[0..] == at
  {
  }

  /** The windows of one parameter. */
  method AddToRange<V(==)>(env: Spec.Env<V>, arrays: map<nat, Spec.Array<V>>, at: seq<nat>, when: Spec.Key -> nat,
                           e: Spec.Event<V>)
      returns (r: map<nat, Spec.Array<V>>)
    requires AreArrays(arrays)
    ensures r == Spec.RecordAt(env, arrays, at, when, e)
  {
    r := arrays;
    var i := 0;
    ghost var all := Spec.RecordAt(env, arrays, at, when, e);
    RecordAtNone(env, arrays, at, when, e);
    while i < |at|
      invariant 0 <= i <= |at| && AreArrays(r)
      invariant Spec.RecordAt(env, r, at[i..], when, e) == all
    {
      ghost var next := RecordOne(env, r, at[i], when, e);
      assert Spec.RecordAt(env, next, at[i + 1..], when, e) == all by {
        RecordAtNext(env, r, at, i, when, e);
      }
      r := RecordOne(env, r, at[i], when, e);
      i := i + 1;
    }
    RecordAtNone(env, r, at, when, e);
  }

  lemma AddFromNext<V>(env: Spec.Env<V>, m: Spec.Metric<V>, n: Spec.Metric<V>, when: Spec.Key -> nat, kind: Spec.Kind,
                       count: int, params: seq<V>, idx: nat)
    requires Spec.AreArrays(m) && idx < |params|
    requires n == m.(arrays := Spec.RecordAt(env, m.arrays, if idx in m.index then m.index[idx] else [], when,
                                             Spec.Add(kind, params[idx], count)))
    ensures Spec.AreArrays(n)
    ensures Spec.AddFrom(env, m, when, kind, count, params, idx)
         == Spec.AddFrom(env, n, when, kind, count, params, idx + 1)
  {
  }

  /** All parameters of a call. */
  method AddParams<V(==)>(env: Spec.Env<V>, m: Spec.Metric<V>, when: Spec.Key -> nat, kind: Spec.Kind, count: int,
                          params: seq<V>)
      returns (n: Spec.Metric<V>)
    requires Spec.AreArrays(m)
    ensures n == Spec.AddFrom(env, m, when, kind, count, params, 0)
  {
    n := m;
    var idx := 0;
    ghost var all := Spec.AddFrom(env, m, when, kind, count, params, 0);
    while idx < |params|
      invariant 0 <= idx <= |params| && Spec.AreArrays(n)
      invariant Spec.AddFrom(env, n, when, kind, count, params, idx) == all
    {
      ghost var before := n;
      var at := if idx in n.index then n.index[idx] else [];
      var arrays := AddToRange(env, n.arrays, at, when, Spec.Add(kind, params[idx], count));
      n := n.(arrays := arrays);
      AddFromNext(env, before, n, when, kind, count, params, idx);
      idx := idx + 1;
    }
  }

  class ParamMetric<V(==)> {
    const env: Spec.Env<V>
    var arrays: map<nat, Spec.Array<V>>
    var rolling: map<Spec.Key, nat>
    var index: map<int, seq<nat>>
    var next: nat

    ghost predicate Valid()
      reads this
    {
      Spec.IsEnv(env) && Spec.AreArrays(Contents())
    }

    ghost function Contents(): Spec.Metric<V>
      reads this
    {
      Spec.Metric(arrays, rolling, index, next)
    }

    constructor (env: Spec.Env<V>)
      requires Spec.IsEnv(env)
      ensures Valid() && this.env == env && Contents() == Spec.Blank()
    {
      this.env := env;
      arrays, rolling, index, next := map[], map[], map[], 0;
    }

    method InitializeForRule(k: Spec.Key)
      requires Valid() && IsShape(Spec.ShapeOf(k))
      modifies this
      ensures Valid() && Contents() == Spec.InitializeFor(old(Contents()), k)
    {
      if k !in rolling {
        arrays := arrays[next := Spec.Array(k, Empty(Spec.ShapeOf(k)), [], -1)];
        rolling := rolling[k := next];
        index := index[k.paramIdx := (if k.paramIdx in index then index[k.paramIdx] else []) + [next]];
        next := next + 1;
      }
    }

    method Add(when: Spec.Key -> nat, kind: Spec.Kind, count: int, params: seq<V>)
      requires Valid()
      modifies this`arrays
      ensures Valid() && Contents() == Spec.AddFrom(env, old(Contents()), when, kind, count, params, 0)
    {
      var m := AddParams(env, Spec.Metric(arrays, rolling, index, next), when, kind, count, params);
      arrays := m.arrays;
    }

    /** The loop over the live buckets: each is asked for the value, and so moves it to the front of its cache. */
    method SumUp(a: Spec.Array<V>, slots: Slots<Spec.Bucket<V>>, t: nat, kind: Spec.Kind, value: V)
        returns (sum: int, read: Slots<Spec.Bucket<V>>)
      ensures var l, sh := Spec.LayoutOf(env, a.key), Spec.ShapeOf(a.key);
        && sum == SumOfLive(sh, slots, t, Spec.CountOf(l, kind, value))
        && read == PokeLive(sh, slots, t, b => Spec.Apply(l)(b, Spec.Get(kind, value)))
    {
      var l, sh := Spec.LayoutOf(env, a.key), Spec.ShapeOf(a.key);
      sum, read := 0, [];
      ghost var all := PokeLive(sh, slots, t, b => Spec.Apply(l)(b, Spec.Get(kind, value)));
      var i := 0;
      while i < |slots|
        invariant 0 <= i <= |slots| && read == all[..i]
        invariant sum == SumOfLive(sh, slots[..i], t, Spec.CountOf(l, kind, value))
      {
        SumOfFirst(sh, slots, i, t, Spec.CountOf(l, kind, value));
        if IsLive(sh, t, slots[i]) {
          var w := slots[i].value;
          sum := sum + Spec.CountOf(l, kind, value)(w.value);
          read := read + [Some(Wrap(w.start, Spec.Apply(l)(w.value, Spec.Get(kind, value))))];
        } else {
          read := read + [slots[i]];
        }
        i := i + 1;
      }
      assert slots[..i] == slots;
    }

    method GetInterval(t: nat, u: nat, k: Spec.Key, kind: Spec.Kind, value: V) returns (sum: int)
      requires Valid()
      modifies this`arrays
      ensures Valid()
      ensures Contents() == Spec.GetInterval(env, old(Contents()), t, u, k, kind, value).metric
      ensures sum == Spec.GetInterval(env, old(Contents()), t, u, k, kind, value).sum
    {
      sum := 0;
      if k in rolling && rolling[k] in arrays {
        var a := arrays[rolling[k]];
        var l, sh := Spec.LayoutOf(env, a.key), Spec.ShapeOf(a.key);
        var slots := Current(sh, a.slots, t, Spec.EmptyBucket(l));
        var read;
        sum, read := SumUp(a, slots, u, kind, value);
        var history := Spec.Peeked(env, a, t, u, kind, value).history;
        arrays := arrays[rolling[k] := Spec.Array(a.key, read, history, Id(sh, t))];
      }
    }
  }
}
