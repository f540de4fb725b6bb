/** Per-parameter counts: windows of sharded caches, looked up by rule key and fed by parameter index. */
module ParamMetric {
  import opened Options
  import opened Ring
  import opened ParamWindow
  import opened Seqs
  import LruSpec
  import Cache = ScalableCache

  datatype Kind = PASS | BLOCK

  /** The fields of a rule that decide which window it shares; equal keys are equal in all four. */
  datatype Key = Key(paramIdx: int, intervalMs: nat, sampleCount: nat, cacheSize: nat)

  /** The number of shards of every cache and the hash of the parameter values. */
  datatype Env<!V> = Env(numShards: nat, hash: V -> nat)

  datatype Bucket<V> = Bucket(pass: Cache.Shards<V>, block: Cache.Shards<V>)

  /** ParamBucket::Add and ParamBucket::Get, which refreshes the value's place in its cache. */
  datatype Event<V> = Add(kind: Kind, value: V, count: int) | Get(kind: Kind, value: V)

  predicate IsEnv<V>(env: Env<V>) {
    env.numShards >= 1
  }

  function ShapeOf(k: Key): Shape {
    Shape(k.sampleCount, k.intervalMs)
  }

  function LayoutOf<V>(env: Env<V>, k: Key): Cache.Layout<V> {
    Cache.Layout(k.cacheSize, env.numShards, env.hash)
  }

  function EmptyBucket<V(==)>(l: Cache.Layout<V>): Bucket<V> {
    Bucket(Cache.Empty(l), Cache.Empty(l))
  }

  function StepShards<V(==)>(l: Cache.Layout<V>, s: Cache.Shards<V>, op: LruSpec.Op<V>): Cache.Shards<V> {
    if Cache.IsLayout(l) && |s| == l.numShards then Cache.Step(l, s, op) else s
  }

  function OpOf<V>(e: Event<V>): LruSpec.Op<V> {
    match e
    case Add(_, v, n) => LruSpec.Increase(v, n)
    case Get(_, v) => LruSpec.Find(v)
  }

  function Apply<V(==)>(l: Cache.Layout<V>): (Bucket<V>, Event<V>) -> Bucket<V> {
    (b: Bucket<V>, e: Event<V>) =>
      if e.kind == PASS then b.(pass := StepShards(l, b.pass, OpOf(e)))
      else b.(block := StepShards(l, b.block, OpOf(e)))
  }

  function ShardsOf<V>(b: Bucket<V>, kind: Kind): Cache.Shards<V> {
    if kind == PASS then b.pass else b.block
  }

  /** What ParamBucket::Get returns. */
  function CountOf<V(==)>(l: Cache.Layout<V>, kind: Kind, value: V): Bucket<V> -> int {
    (b: Bucket<V>) =>
      if Cache.IsLayout(l) && |ShardsOf(b, kind)| == l.numShards then Cache.Count(l, ShardsOf(b, kind), value) else 0
  }

  function Weight<V(==)>(kind: Kind, value: V): Event<V> -> int {
    (e: Event<V>) => if e.Add? && e.kind == kind && e.value == value then e.count else 0
  }

  // ---------------------------------------------------------------- one window

  type History<V> = seq<Stamped<Event<V>>>

  /** What the caches of one bucket id have been asked to do. */
  function OpsOf<V>(sh: Shape, h: History<V>, id: int, kind: Kind): seq<LruSpec.Op<V>>
    requires IsShape(sh)
  {
    if h == [] then []
    else
      var e := h[|h| - 1];
      OpsOf(sh, h[..|h| - 1], id, kind) + if Id(sh, e.time) == id && e.event.kind == kind then [OpOf(e.event)] else []
  }

  lemma RunLast<V>(l: Cache.Layout<V>, ops: seq<LruSpec.Op<V>>, op: LruSpec.Op<V>)
    requires Cache.IsLayout(l)
    ensures Cache.Run(l, ops + [op]) == Cache.Step(l, Cache.Run(l, ops), op)
  {
    assert (ops + [op])[..|ops + [op]| - 1] == ops;
  }

  lemma ApplyOne<V>(l: Cache.Layout<V>, b: Bucket<V>, e: Event<V>, kind: Kind)
    ensures ShardsOf(Apply(l)(b, e), kind)
         == if e.kind == kind then StepShards(l, ShardsOf(b, kind), OpOf(e)) else ShardsOf(b, kind)
  {
  }

  lemma {:induction false} BucketRuns<V>(l: Cache.Layout<V>, sh: Shape, h: History<V>, id: int, kind: Kind)
    requires IsShape(sh) && Cache.IsLayout(l)
    ensures ShardsOf(BucketOf(sh, h, id, EmptyBucket(l), Apply(l)), kind) == Cache.Run(l, OpsOf(sh, h, id, kind))
  {
    if h != [] {
      var e, before := h[|h| - 1], h[..|h| - 1];
      var ops := OpsOf(sh, before, id, kind);
      BucketRuns(l, sh, before, id, kind);
      ApplyOne(l, BucketOf(sh, before, id, EmptyBucket(l), Apply(l)), e.event, kind);
      RunLast(l, ops, OpOf(e.event));
      assert ops + [] == ops;
    }
  }

  lemma {:induction false} OpsCountOnly<V>(sh: Shape, h: History<V>, id: int, kind: Kind)
    requires IsShape(sh)
    ensures LruSpec.CountsOnly(OpsOf(sh, h, id, kind))
    ensures NonNegative(h) ==> LruSpec.NonNegative(OpsOf(sh, h, id, kind))
  {
    if h != [] {
      OpsCountOnly(sh, h[..|h| - 1], id, kind);
    }
  }

  ghost predicate NonNegative<V>(h: History<V>) {
    forall i :: 0 <= i < |h| ==> h[i].event.Add? ==> h[i].event.count >= 0
  }

  lemma AddedLast<V>(ops: seq<LruSpec.Op<V>>, e: Event<V>, value: V)
    ensures LruSpec.Added(ops + [OpOf(e)], value)
         == LruSpec.Added(ops, value) + if e.Add? && e.value == value then e.count else 0
  {
    var all := ops + [OpOf(e)];
    assert all[..|all| - 1] == ops && Last(all) == OpOf(e);
  }

  lemma {:induction false} OpsAdd<V>(sh: Shape, h: History<V>, id: int, kind: Kind, value: V)
    requires IsShape(sh)
    ensures LruSpec.Added(OpsOf(sh, h, id, kind), value) == WeightOf(sh, h, id, Weight(kind, value))
  {
    if h != [] {
      var e, before := h[|h| - 1], h[..|h| - 1];
      OpsAdd(sh, before, id, kind, value);
      if Id(sh, e.time) == id && e.event.kind == kind {
        AddedLast(OpsOf(sh, before, id, kind), e.event, value);
      } else {
        assert OpsOf(sh, before, id, kind) + [] == OpsOf(sh, before, id, kind);
      }
    }
  }

  /** No bucket in sight ever dropped the value's counter for another value's. */
  ghost predicate NeverEvicted<V>(l: Cache.Layout<V>, sh: Shape, h: History<V>, lo: int, kind: Kind, value: V)
    requires IsShape(sh) && Cache.IsLayout(l)
  {
    forall id: nat :: id > lo ==> !Cache.EverEvicted(l, OpsOf(sh, h, id, kind), value)
  }

  lemma WindowCounts<V>(l: Cache.Layout<V>, sh: Shape, h: History<V>, lo: int, kind: Kind, value: V)
    requires IsShape(sh) && Cache.IsLayout(l)
    ensures NeverEvicted(l, sh, h, lo, kind, value) ==>
      Exactly(sh, h, lo, CountOf(l, kind, value), Weight(kind, value), EmptyBucket(l), Apply(l))
    ensures NonNegative(h) ==>
      AtMost(sh, h, lo, CountOf(l, kind, value), Weight(kind, value), EmptyBucket(l), Apply(l))
  {
    forall id: nat | id > lo
      ensures var c, w := CountOf(l, kind, value)(BucketOf(sh, h, id, EmptyBucket(l), Apply(l))),
                          WeightOf(sh, h, id, Weight(kind, value));
        (NeverEvicted(l, sh, h, lo, kind, value) ==> c == w) && (NonNegative(h) ==> c <= w)
    {
      var ops := OpsOf(sh, h, id, kind);
      BucketRuns(l, sh, h, id, kind);
      OpsCountOnly(sh, h, id, kind);
      OpsAdd(sh, h, id, kind, value);
      if NeverEvicted(l, sh, h, lo, kind, value) {
        Cache.CountExactIfNeverEvicted(l, ops, value);
      }
      if NonNegative(h) {
        Cache.CountNeverExceeds(l, ops, value);
      }
    }
  }

  // ---------------------------------------------------------------- the windows and their two maps

  /** A ParamLeapArray: its slots, and for the proofs what it has recorded. */
  datatype Array<V> = Array(key: Key, slots: Slots<Bucket<V>>, history: History<V>, last: int)

  /** Windows by address; `rolling` finds one by key, `index` finds all that watch a parameter. */
  datatype Metric<V> = Metric(arrays: map<nat, Array<V>>, rolling: map<Key, nat>, index: map<int, seq<nat>>, next: nat)

  /** An addition reads the clock for each window it records in, the one of key k at `when(k)`, and is over by `end`; a
      reading of a window refreshes its current bucket at t and collects the live ones at u. */
  datatype Op<V> =
    | Initialize(k: Key)
    | AddTo(when: Key -> nat, end: nat, kind: Kind, count: int, params: seq<V>)
    | Read(t: nat, u: nat, k: Key, kind: Kind, value: V)

  function Blank<V>(): Metric<V> {
    Metric(map[], map[], map[], 0)
  }

  predicate IsArray<V>(a: Array<V>) {
    IsShape(ShapeOf(a.key)) && |a.slots| == a.key.sampleCount
  }

  predicate AreArrays<V>(m: Metric<V>) {
    forall a :: a in m.arrays ==> IsArray(m.arrays[a])
  }

  /** initializeForRule: one window, under its key and under its parameter index. */
  function InitializeFor<V>(m: Metric<V>, k: Key): Metric<V> {
    if k in m.rolling then m
    else
      var all := if k.paramIdx in m.index then m.index[k.paramIdx] else [];
      Metric(m.arrays[m.next := Array(k, Empty(ShapeOf(k)), [], -1)], m.rolling[k := m.next],
             m.index[k.paramIdx := all + [m.next]], m.next + 1)
  }

  /** CurrentWindow()->Value()->Add(..). */
  function Record<V(==)>(env: Env<V>, a: Array<V>, t: nat, e: Event<V>): (r: Array<V>)
    requires IsArray(a)
    ensures IsArray(r) && r.key == a.key
  {
    var l := LayoutOf(env, a.key);
    a.(slots := Modify(ShapeOf(a.key), a.slots, t, EmptyBucket(l), b => Apply(l)(b, e)),
       history := a.history + [Stamped(t, e)], last := Id(ShapeOf(a.key), t))
  }

  /** The windows at the given addresses, in turn. */
  function RecordAt<V(==)>(env: Env<V>, arrays: map<nat, Array<V>>, at: seq<nat>, when: Key -> nat, e: Event<V>)
      : (r: map<nat, Array<V>>)
    requires forall a :: a in arrays ==> IsArray(arrays[a])
    ensures r.Keys == arrays.Keys && forall a :: a in r ==> IsArray(r[a]) && r[a].key == arrays[a].key
    decreases |at|
  {
    if at == [] then arrays
    else
      var now :=
        if at[0] in arrays then arrays[at[0] := Record(env, arrays[at[0]], when(arrays[at[0]].key), e)] else arrays;
      RecordAt(env, now, at[1..], when, e)
  }

  /** ParamMetric::Add, from parameter number idx on. */
  function AddFrom<V(==)>(env: Env<V>, m: Metric<V>, when: Key -> nat, kind: Kind, count: int, params: seq<V>, idx: nat)
      : (r: Metric<V>)
    requires AreArrays(m) && idx <= |params|
    ensures AreArrays(r) && r.rolling == m.rolling && r.index == m.index && r.next == m.next
    ensures r.arrays.Keys == m.arrays.Keys && forall a :: a in r.arrays ==> r.arrays[a].key == m.arrays[a].key
    decreases |params| - idx
  {
    if idx == |params| then m
    else
      var at := if idx in m.index then m.index[idx] else [];
      var n := m.(arrays := RecordAt(env, m.arrays, at, when, Add(kind, params[idx], count)));
      AddFrom(env, n, when, kind, count, params, idx + 1)
  }

  /** A read of one window: the current bucket is refreshed at t, and every bucket live at u asked for the value. */
  function Peeked<V(==)>(env: Env<V>, a: Array<V>, t: nat, u: nat, kind: Kind, value: V): Array<V>
    requires IsArray(a)
    ensures IsArray(Peeked(env, a, t, u, kind, value)) && Peeked(env, a, t, u, kind, value).key == a.key
  {
    var l, sh := LayoutOf(env, a.key), ShapeOf(a.key);
    var slots := Current(sh, a.slots, t, EmptyBucket(l));
    a.(slots := PokeLive(sh, slots, u, b => Apply(l)(b, Get(kind, value))),
       history := a.history + if Started(slots) then PokeEvents(sh, slots, u, Get(kind, value)) else [],
       last := Id(sh, t))
  }

  datatype Reading<V> = Reading(metric: Metric<V>, sum: int)

  /** GetInterval: the current window, then Get on every live bucket. */
  function GetInterval<V(==)>(env: Env<V>, m: Metric<V>, t: nat, u: nat, k: Key, kind: Kind, value: V): Reading<V>
    requires AreArrays(m)
  {
    if k !in m.rolling || m.rolling[k] !in m.arrays then Reading(m, 0)
    else
      var a := m.arrays[m.rolling[k]];
      var l, sh := LayoutOf(env, a.key), ShapeOf(a.key);
      var slots := Current(sh, a.slots, t, EmptyBucket(l));
      Reading(m.(arrays := m.arrays[m.rolling[k] := Peeked(env, a, t, u, kind, value)]),
              SumOfLive(sh, slots, u, CountOf(l, kind, value)))
  }

  function Step<V(==)>(env: Env<V>, m: Metric<V>, op: Op<V>): (n: Metric<V>)
    requires AreArrays(m) && (op.Initialize? ==> IsShape(ShapeOf(op.k)))
    ensures AreArrays(n)
  {
    match op
    case Initialize(k) => InitializeFor(m, k)
    case AddTo(when, _, kind, count, params) => AddFrom(env, m, when, kind, count, params, 0)
    case Read(t, u, k, kind, value) => GetInterval(env, m, t, u, k, kind, value).metric
  }

  // ---------------------------------------------------------------- how the maps hang together

  /** The windows that watch parameter i. */
  ghost function Watching<V>(arrays: map<nat, Array<V>>, i: int): set<nat> {
    set a | a in arrays && arrays[a].key.paramIdx == i
  }

  /** Every window is indexed once, under the parameter it watches. */
  ghost predicate Indexed<V>(arrays: map<nat, Array<V>>, index: map<int, seq<nat>>) {
    && (forall i :: i in index ==> Distinct(index[i]) && Elements(index[i]) == Watching(arrays, i))
    && (forall a :: a in arrays ==> arrays[a].key.paramIdx in index)
  }

  /** Keys and windows correspond one to one. */
  ghost predicate Keyed<V>(arrays: map<nat, Array<V>>, rolling: map<Key, nat>, next: nat) {
    && (forall k :: k in rolling ==> rolling[k] in arrays && arrays[rolling[k]].key == k)
    && (forall a :: a in arrays ==> a < next && arrays[a].key in rolling && rolling[arrays[a].key] == a)
  }

  ghost predicate Linked<V>(m: Metric<V>) {
    AreArrays(m) && Keyed(m.arrays, m.rolling, m.next) && Indexed(m.arrays, m.index)
  }

  lemma DistinctSnoc(s: seq<nat>, x: nat)
    requires Distinct(s) && x !in Elements(s)
    ensures Distinct(s + [x]) && Elements(s + [x]) == Elements(s) + {x}
  {
    assert forall i :: 0 <= i < |s| ==> s[i] in s;
    ElementsAppend(s, [x]);
  }

  lemma WatchingAdd<V>(arrays: map<nat, Array<V>>, at: nat, a: Array<V>, i: int)
    requires at !in arrays
    ensures Watching(arrays[at := a], i)
         == if a.key.paramIdx == i then Watching(arrays, i) + {at} else Watching(arrays, i)
  {
  }

  lemma IndexedAdd<V>(arrays: map<nat, Array<V>>, index: map<int, seq<nat>>, at: nat, a: Array<V>)
    requires Indexed(arrays, index) && at !in arrays
    ensures var i := a.key.paramIdx;
      Indexed(arrays[at := a], index[i := (if i in index then index[i] else []) + [at]])
  {
    var i := a.key.paramIdx;
    var before := if i in index then index[i] else [];
    assert Elements(before) == Watching(arrays, i);
    DistinctSnoc(before, at);
    var after := index[i := before + [at]];
    forall j | j in after ensures Distinct(after[j]) && Elements(after[j]) == Watching(arrays[at := a], j) {
      WatchingAdd(arrays, at, a, j);
    }
  }

  lemma InitializeLinks<V>(m: Metric<V>, k: Key)
    requires Linked(m) && IsShape(ShapeOf(k))
    ensures Linked(InitializeFor(m, k)) && k in InitializeFor(m, k).rolling
  {
    if k !in m.rolling {
      IndexedAdd(m.arrays, m.index, m.next, Array(k, Empty(ShapeOf(k)), [], -1));
    }
  }

  /** A window at one of the addresses records the event, once; the others stay. */
  lemma {:induction false} RecordAtEach<V>(env: Env<V>, arrays: map<nat, Array<V>>, at: seq<nat>, when: Key -> nat,
                                           e: Event<V>, a: nat)
    requires (forall b :: b in arrays ==> IsArray(arrays[b])) && Distinct(at) && a in arrays
    ensures RecordAt(env, arrays, at, when, e)[a]
         == if a in at then Record(env, arrays[a], when(arrays[a].key), e) else arrays[a]
    decreases |at|
  {
    if at != [] {
      var now :=
        if at[0] in arrays then arrays[at[0] := Record(env, arrays[at[0]], when(arrays[at[0]].key), e)] else arrays;
      DistinctTail(at);
      assert at == [at[0]] + at[1..];
      assert at[0] !in at[1..];
      RecordAtEach(env, now, at[1..], when, e, a);
    }
  }

  /** What adding does to one window: it records the parameter it watches, if there is one. */
  function Watched<V(==)>(env: Env<V>, a: Array<V>, when: Key -> nat, kind: Kind, count: int, params: seq<V>, from: nat)
      : Array<V>
    requires IsArray(a)
  {
    if from <= a.key.paramIdx < |params| then Record(env, a, when(a.key), Add(kind, params[a.key.paramIdx], count))
    else a
  }

  lemma LinkedAfter<V>(m: Metric<V>, arrays: map<nat, Array<V>>)
    requires Linked(m) && arrays.Keys == m.arrays.Keys
    requires forall a :: a in arrays ==> IsArray(arrays[a]) && arrays[a].key == m.arrays[a].key
    ensures Linked(m.(arrays := arrays))
  {
    forall i ensures Watching(arrays, i) == Watching(m.arrays, i) {
    }
  }

  /** The windows found under a parameter index are those that watch it. */
  lemma AddressesOf<V>(m: Metric<V>, idx: nat, a: nat)
    requires Linked(m) && a in m.arrays
    ensures var at := if idx in m.index then m.index[idx] else [];
      Distinct(at) && (a in at <==> m.arrays[a].key.paramIdx == idx)
  {
    if idx in m.index {
      assert a in Elements(m.index[idx]) <==> a in Watching(m.arrays, idx);
    }
  }

  lemma AddOne<V>(env: Env<V>, m: Metric<V>, when: Key -> nat, e: Event<V>, idx: nat)
    requires Linked(m)
    ensures var n := m.(arrays := RecordAt(env, m.arrays, if idx in m.index then m.index[idx] else [], when, e));
      Linked(n)
      && forall a :: a in m.arrays ==>
           n.arrays[a]
           == if m.arrays[a].key.paramIdx == idx then Record(env, m.arrays[a], when(m.arrays[a].key), e)
              else m.arrays[a]
  {
    var at := if idx in m.index then m.index[idx] else [];
    forall a | a in m.arrays
      ensures RecordAt(env, m.arrays, at, when, e)[a]
           == if m.arrays[a].key.paramIdx == idx then Record(env, m.arrays[a], when(m.arrays[a].key), e)
              else m.arrays[a]
    {
      AddressesOf(m, idx, a);
      RecordAtEach(env, m.arrays, at, when, e, a);
    }
    LinkedAfter(m, RecordAt(env, m.arrays, at, when, e));
  }

  lemma {:induction false} AddFromEach<V>(env: Env<V>, m: Metric<V>, when: Key -> nat, kind: Kind, count: int,
                                          params: seq<V>, idx: nat, a: nat)
    requires Linked(m) && idx <= |params| && a in m.arrays
    ensures AddFrom(env, m, when, kind, count, params, idx).arrays[a]
         == Watched(env, m.arrays[a], when, kind, count, params, idx)
    decreases |params| - idx
  {
    if idx < |params| {
      var e := Add(kind, params[idx], count);
      AddOne(env, m, when, e, idx);
      var n := m.(arrays := RecordAt(env, m.arrays, if idx in m.index then m.index[idx] else [], when, e));
      AddFromEach(env, n, when, kind, count, params, idx + 1, a);
    }
  }

  // ---------------------------------------------------------------- runs

  function TimeOf<V>(op: Op<V>, clock: nat): nat {
    match op
    case Initialize(_) => clock
    case AddTo(_, end, _, _, _) => end
    case Read(_, u, _, _, _) => u
  }

  /** The clock does not go back. A window whose buckets would be shorter than a millisecond divides by zero. */
  ghost predicate InTime<V>(op: Op<V>, clock: nat) {
    match op
    case Initialize(k) => IsShape(ShapeOf(k))
    case AddTo(when, end, _, _, _) => clock <= end && forall k :: clock <= when(k) <= end
    case Read(t, u, _, _, _) => clock <= t <= u
  }

  function ClockOf<V>(ops: seq<Op<V>>): nat {
    if ops == [] then 0 else TimeOf(Last(ops), ClockOf(ops[..|ops| - 1]))
  }

  ghost predicate IsRun<V>(ops: seq<Op<V>>) {
    ops == [] || (IsRun(ops[..|ops| - 1]) && InTime(Last(ops), ClockOf(ops[..|ops| - 1])))
  }

  ghost predicate ArrayInv<V>(env: Env<V>, a: Array<V>, clock: nat)
    requires IsArray(a)
  {
    var l, sh := LayoutOf(env, a.key), ShapeOf(a.key);
    Tracks(sh, a.slots, a.history, a.last, EmptyBucket(l), Apply(l)) && -1 <= a.last <= Id(sh, clock)
  }

  ghost predicate Inv<V>(env: Env<V>, m: Metric<V>, clock: nat) {
    Linked(m) && forall a :: a in m.arrays ==> ArrayInv(env, m.arrays[a], clock)
  }

  lemma LaterClock<V>(env: Env<V>, a: Array<V>, clock: nat, t: nat)
    requires IsArray(a) && ArrayInv(env, a, clock) && clock <= t
    ensures ArrayInv(env, a, t)
  {
    IdOrder(ShapeOf(a.key), clock, t);
  }

  lemma IdOrder(sh: Shape, s: nat, t: nat)
    requires IsShape(sh) && s <= t
    ensures Id(sh, s) <= Id(sh, t)
  {
    StartIsIdTimesLength(sh, s);
    StartIsIdTimesLength(sh, t);
    MulOrder(Id(sh, t), Id(sh, s), Length(sh));
  }

  lemma RecordKeeps<V>(env: Env<V>, a: Array<V>, clock: nat, t: nat, e: Event<V>)
    requires IsArray(a) && ArrayInv(env, a, clock) && clock <= t
    ensures ArrayInv(env, Record(env, a, t, e), t)
  {
    var l, sh := LayoutOf(env, a.key), ShapeOf(a.key);
    IdOrder(sh, clock, t);
    ModifyTracks(sh, a.slots, a.history, a.last, t, e, EmptyBucket(l), Apply(l));
  }

  lemma PeekKeeps<V>(env: Env<V>, a: Array<V>, clock: nat, t: nat, u: nat, kind: Kind, value: V)
    requires IsArray(a) && ArrayInv(env, a, clock) && clock <= t <= u
    ensures IsArray(Peeked(env, a, t, u, kind, value)) && ArrayInv(env, Peeked(env, a, t, u, kind, value), u)
    ensures forall lo, k, v :: InSight(ShapeOf(a.key), Peeked(env, a, t, u, kind, value).history, lo, Weight(k, v))
                            == InSight(ShapeOf(a.key), a.history, lo, Weight(k, v))
  {
    var l, sh := LayoutOf(env, a.key), ShapeOf(a.key);
    var slots := Current(sh, a.slots, t, EmptyBucket(l));
    IdOrder(sh, clock, t);
    IdOrder(sh, t, u);
    CurrentTracks(sh, a.slots, a.history, a.last, t, EmptyBucket(l), Apply(l));
    TracksStarted(sh, slots, a.history, Id(sh, t), EmptyBucket(l), Apply(l));
    PokeTracks(sh, slots, a.history, Id(sh, t), u, Get(kind, value), EmptyBucket(l), Apply(l));
    forall lo, k, v
      ensures InSight(sh, Peeked(env, a, t, u, kind, value).history, lo, Weight(k, v))
           == InSight(sh, a.history, lo, Weight(k, v))
    {
      PokesWeighNothing(sh, a.history, slots, u, Get(kind, value), lo, Weight(k, v));
    }
  }

  lemma InitializeKeeps<V>(env: Env<V>, m: Metric<V>, k: Key, clock: nat)
    requires Inv(env, m, clock) && IsShape(ShapeOf(k))
    ensures Inv(env, InitializeFor(m, k), clock)
  {
    InitializeLinks(m, k);
    EmptyTracks(ShapeOf(k), EmptyBucket(LayoutOf(env, k)), Apply(LayoutOf(env, k)));
  }

  lemma WatchedKeeps<V>(env: Env<V>, a: Array<V>, clock: nat, when: Key -> nat, end: nat, kind: Kind, count: int,
                        params: seq<V>)
    requires IsArray(a) && ArrayInv(env, a, clock) && clock <= when(a.key) <= end
    ensures var w := Watched(env, a, when, kind, count, params, 0); IsArray(w) && ArrayInv(env, w, end)
  {
    if 0 <= a.key.paramIdx < |params| {
      var e := Add(kind, params[a.key.paramIdx], count);
      RecordKeeps(env, a, clock, when(a.key), e);
      LaterClock(env, Record(env, a, when(a.key), e), when(a.key), end);
    } else {
      LaterClock(env, a, clock, end);
    }
  }

  lemma AddKeeps<V>(env: Env<V>, m: Metric<V>, when: Key -> nat, end: nat, kind: Kind, count: int, params: seq<V>,
                    clock: nat)
    requires Inv(env, m, clock) && forall k :: clock <= when(k) <= end
    ensures Inv(env, AddFrom(env, m, when, kind, count, params, 0), end)
  {
    var n := AddFrom(env, m, when, kind, count, params, 0);
    LinkedAfter(m, n.arrays);
    assert n == m.(arrays := n.arrays);
    forall a | a in n.arrays ensures ArrayInv(env, n.arrays[a], end) {
      AddFromEach(env, m, when, kind, count, params, 0, a);
      WatchedKeeps(env, m.arrays[a], clock, when, end, kind, count, params);
    }
  }

  lemma ArraysLater<V>(env: Env<V>, m: Metric<V>, clock: nat, t: nat)
    requires Inv(env, m, clock) && clock <= t
    ensures Inv(env, m, t)
  {
    forall a | a in m.arrays ensures ArrayInv(env, m.arrays[a], t) {
      LaterClock(env, m.arrays[a], clock, t);
    }
  }

  lemma ReplaceArray<V>(env: Env<V>, m: Metric<V>, at: nat, a: Array<V>, t: nat)
    requires Inv(env, m, t) && at in m.arrays && a.key == m.arrays[at].key && IsArray(a) && ArrayInv(env, a, t)
    ensures Inv(env, m.(arrays := m.arrays[at := a]), t)
  {
    LinkedAfter(m, m.arrays[at := a]);
  }

  lemma ReadKeeps<V>(env: Env<V>, m: Metric<V>, t: nat, u: nat, k: Key, kind: Kind, value: V, clock: nat)
    requires Inv(env, m, clock) && clock <= t <= u
    ensures Inv(env, GetInterval(env, m, t, u, k, kind, value).metric, u)
  {
    ArraysLater(env, m, clock, u);
    if k in m.rolling {
      var at := m.rolling[k];
      PeekKeeps(env, m.arrays[at], clock, t, u, kind, value);
      ReplaceArray(env, m, at, Peeked(env, m.arrays[at], t, u, kind, value), u);
    }
  }

  lemma StepKeeps<V>(env: Env<V>, m: Metric<V>, op: Op<V>, clock: nat)
    requires Inv(env, m, clock) && InTime(op, clock)
    ensures Inv(env, Step(env, m, op), TimeOf(op, clock))
  {
    match op
    case Initialize(k) => InitializeKeeps(env, m, k, clock);
    case AddTo(when, end, kind, count, params) => AddKeeps(env, m, when, end, kind, count, params, clock);
    case Read(t, u, k, kind, value) => ReadKeeps(env, m, t, u, k, kind, value, clock);
  }

  function Run<V(==)>(env: Env<V>, ops: seq<Op<V>>): (m: Metric<V>)
    requires IsRun(ops)
    ensures AreArrays(m)
  {
    if ops == [] then Blank() else Step(env, Run(env, ops[..|ops| - 1]), Last(ops))
  }

  lemma {:induction false} RunKeeps<V>(env: Env<V>, ops: seq<Op<V>>)
    requires IsRun(ops)
    ensures Inv(env, Run(env, ops), ClockOf(ops))
  {
    if ops != [] {
      RunKeeps(env, ops[..|ops| - 1]);
      StepKeeps(env, Run(env, ops[..|ops| - 1]), Last(ops), ClockOf(ops[..|ops| - 1]));
    }
  }

  ghost predicate Initialised<V>(ops: seq<Op<V>>, k: Key) {
    exists i :: 0 <= i < |ops| && ops[i] == Initialize(k)
  }

  lemma InitialisedLast<V>(ops: seq<Op<V>>, k: Key)
    requires ops != []
    ensures Initialised(ops, k) <==> Initialised(ops[..|ops| - 1], k) || Last(ops) == Initialize(k)
  {
    var n := |ops| - 1;
    if Initialised(ops[..n], k) {
      var i :| 0 <= i < n && ops[..n][i] == Initialize(k);
      assert ops[i] == Initialize(k);
    }
    if Initialised(ops, k) && Last(ops) != Initialize(k) {
      var i :| 0 <= i < |ops| && ops[i] == Initialize(k);
      assert ops[..n][i] == Initialize(k);
    }
  }

  lemma {:induction false} RollingIsInitialised<V>(env: Env<V>, ops: seq<Op<V>>, k: Key)
    requires IsRun(ops)
    ensures k in Run(env, ops).rolling <==> Initialised(ops, k)
  {
    if ops != [] {
      RollingIsInitialised(env, ops[..|ops| - 1], k);
      InitialisedLast(ops, k);
    }
  }

  /** Of the calls since the key was initialised, those whose watched parameter is `value` and whose bucket id is
      beyond lo: their counts. */
  ghost function Logged<V>(ops: seq<Op<V>>, k: Key, lo: int, kind: Kind, value: V): int
    requires IsShape(ShapeOf(k))
  {
    if ops == [] then 0
    else
      var before := ops[..|ops| - 1];
      Logged(before, k, lo, kind, value) + if Initialised(before, k) then Entry(Last(ops), k, lo, kind, value) else 0
  }

  function Entry<V(==)>(op: Op<V>, k: Key, lo: int, kind: Kind, value: V): int
    requires IsShape(ShapeOf(k))
  {
    match op
    case AddTo(when, _, kd, count, params) =>
      if kd == kind && 0 <= k.paramIdx < |params| && params[k.paramIdx] == value && Id(ShapeOf(k), when(k)) > lo
      then count else 0
    case _ => 0
  }

  function Entries<V(==)>(ops: seq<Op<V>>, k: Key, lo: int, kind: Kind, value: V): int
    requires IsShape(ShapeOf(k))
  {
    if ops == [] then 0 else Entries(ops[..|ops| - 1], k, lo, kind, value) + Entry(Last(ops), k, lo, kind, value)
  }

  lemma {:induction false} NothingLoggedBefore<V>(ops: seq<Op<V>>, k: Key, lo: int, kind: Kind, value: V)
    requires IsShape(ShapeOf(k)) && !Initialised(ops, k)
    ensures Logged(ops, k, lo, kind, value) == 0
  {
    if ops != [] {
      InitialisedLast(ops, k);
      NothingLoggedBefore(ops[..|ops| - 1], k, lo, kind, value);
    }
  }

  /** All calls after the one that initialised the key, and no call before it. */
  lemma {:induction false} LoggedSinceInitialised<V>(a: seq<Op<V>>, b: seq<Op<V>>, k: Key, lo: int, kind: Kind,
                                                     value: V)
    requires IsShape(ShapeOf(k)) && !Initialised(a, k)
    ensures Initialised(a + [Initialize(k)] + b, k)
    ensures Logged(a + [Initialize(k)] + b, k, lo, kind, value) == Entries(b, k, lo, kind, value)
    decreases |b|
  {
    var first := a + [Initialize(k)];
    assert first[|a|] == Initialize(k) && first[..|a|] == a;
    if b == [] {
      assert first + b == first;
      NothingLoggedBefore(a, k, lo, kind, value);
    } else {
      var all := first + b;
      assert all[..|all| - 1] == first + b[..|b| - 1] && Last(all) == Last(b);
      LoggedSinceInitialised(a, b[..|b| - 1], k, lo, kind, value);
      InitialisedLast(all, k);
    }
  }

  function ArrayOf<V>(m: Metric<V>, k: Key): Array<V>
    requires k in m.rolling && m.rolling[k] in m.arrays
  {
    m.arrays[m.rolling[k]]
  }

  lemma RecordWeighs<V>(env: Env<V>, a: Array<V>, t: nat, e: Event<V>, lo: int, kind: Kind, value: V)
    requires IsArray(a)
    ensures InSight(ShapeOf(a.key), Record(env, a, t, e).history, lo, Weight(kind, value))
         == InSight(ShapeOf(a.key), a.history, lo, Weight(kind, value))
            + if Id(ShapeOf(a.key), t) > lo then Weight(kind, value)(e) else 0
  {
    var h := Record(env, a, t, e).history;
    assert h[..|h| - 1] == a.history;
  }

  lemma WatchedWeighs<V>(env: Env<V>, a: Array<V>, op: Op<V>, lo: int, kind: Kind, value: V)
    requires IsArray(a) && op.AddTo?
    ensures InSight(ShapeOf(a.key), Watched(env, a, op.when, op.kind, op.count, op.params, 0).history, lo,
                    Weight(kind, value))
         == InSight(ShapeOf(a.key), a.history, lo, Weight(kind, value)) + Entry(op, a.key, lo, kind, value)
  {
    if 0 <= a.key.paramIdx < |op.params| {
      RecordWeighs(env, a, op.when(a.key), Add(op.kind, op.params[a.key.paramIdx], op.count), lo, kind, value);
    }
  }

  lemma HistoryAfterAdd<V>(env: Env<V>, m: Metric<V>, k: Key, op: Op<V>, lo: int, kind: Kind, value: V)
    requires Linked(m) && k in m.rolling && IsShape(ShapeOf(k)) && op.AddTo?
    ensures var n := AddFrom(env, m, op.when, op.kind, op.count, op.params, 0);
      k in n.rolling && n.rolling[k] in n.arrays
      && InSight(ShapeOf(k), ArrayOf(n, k).history, lo, Weight(kind, value))
         == InSight(ShapeOf(k), ArrayOf(m, k).history, lo, Weight(kind, value)) + Entry(op, k, lo, kind, value)
  {
    AddFromEach(env, m, op.when, op.kind, op.count, op.params, 0, m.rolling[k]);
    WatchedWeighs(env, ArrayOf(m, k), op, lo, kind, value);
  }

  lemma HistoryAfterRead<V>(env: Env<V>, m: Metric<V>, clock: nat, k: Key, op: Op<V>, lo: int, kind: Kind, value: V)
    requires Inv(env, m, clock) && op.Read? && InTime(op, clock) && k in m.rolling
    ensures var n := GetInterval(env, m, op.t, op.u, op.k, op.kind, op.value).metric;
      k in n.rolling && n.rolling[k] in n.arrays
      && InSight(ShapeOf(k), ArrayOf(n, k).history, lo, Weight(kind, value))
         == InSight(ShapeOf(k), ArrayOf(m, k).history, lo, Weight(kind, value))
  {
    if op.k in m.rolling && m.rolling[op.k] == m.rolling[k] {
      PeekKeeps(env, ArrayOf(m, k), clock, op.t, op.u, op.kind, op.value);
    }
  }

  lemma HistoryAfterInitialize<V>(m: Metric<V>, k: Key, k': Key)
    requires Linked(m) && k in m.rolling
    ensures var n := InitializeFor(m, k');
      k in n.rolling && n.rolling[k] in n.arrays && ArrayOf(n, k) == ArrayOf(m, k)
  {
  }

  lemma FreshHistory<V>(m: Metric<V>, k: Key)
    requires Linked(m) && k !in m.rolling
    ensures var n := InitializeFor(m, k);
      k in n.rolling && n.rolling[k] in n.arrays && ArrayOf(n, k).history == []
  {
  }

  /** What the window of a key has recorded, if there is one. */
  function Recorded<V(==)>(m: Metric<V>, k: Key, lo: int, kind: Kind, value: V): int
    requires IsShape(ShapeOf(k))
  {
    if k in m.rolling && m.rolling[k] in m.arrays
    then InSight(ShapeOf(k), m.arrays[m.rolling[k]].history, lo, Weight(kind, value)) else 0
  }

  lemma StepRecords<V>(env: Env<V>, m: Metric<V>, op: Op<V>, clock: nat, k: Key, lo: int, kind: Kind, value: V)
    requires Inv(env, m, clock) && InTime(op, clock) && IsShape(ShapeOf(k))
    ensures Recorded(Step(env, m, op), k, lo, kind, value)
         == Recorded(m, k, lo, kind, value) + if k in m.rolling then Entry(op, k, lo, kind, value) else 0
  {
    if k in m.rolling {
      match op
      case Initialize(k') => HistoryAfterInitialize(m, k, k');
      case AddTo(_, _, _, _, _) => HistoryAfterAdd(env, m, k, op, lo, kind, value);
      case Read(_, _, _, _, _) => HistoryAfterRead(env, m, clock, k, op, lo, kind, value);
    } else if op == Initialize(k) {
      FreshHistory(m, k);
    }
  }

  /** The window of a key has recorded exactly the calls that concern it. */
  lemma {:induction false} HistoryIsLog<V>(env: Env<V>, ops: seq<Op<V>>, k: Key, lo: int, kind: Kind, value: V)
    requires IsRun(ops) && IsShape(ShapeOf(k))
    ensures Recorded(Run(env, ops), k, lo, kind, value) == Logged(ops, k, lo, kind, value)
  {
    if ops != [] {
      var before := ops[..|ops| - 1];
      HistoryIsLog(env, before, k, lo, kind, value);
      RunKeeps(env, before);
      RollingIsInitialised(env, before, k);
      StepRecords(env, Run(env, before), Last(ops), ClockOf(before), k, lo, kind, value);
    }
  }

  /** One window, refreshed at t and read at u. */
  lemma ArraySum<V>(env: Env<V>, a: Array<V>, clock: nat, t: nat, u: nat, kind: Kind, value: V)
    requires IsEnv(env) && IsArray(a) && IsExact(ShapeOf(a.key)) && ArrayInv(env, a, clock) && clock <= t <= u
    ensures var l, sh, lo := LayoutOf(env, a.key), ShapeOf(a.key), Oldest(a.key, t, u);
      var sum := SumOfLive(sh, Current(sh, a.slots, t, EmptyBucket(l)), u, CountOf(l, kind, value));
      && (NeverEvicted(l, sh, a.history, lo, kind, value) ==> sum == InSight(sh, a.history, lo, Weight(kind, value)))
      && (NonNegative(a.history) ==> sum <= InSight(sh, a.history, lo, Weight(kind, value)))
  {
    var l, sh := LayoutOf(env, a.key), ShapeOf(a.key);
    IdOrder(sh, clock, t);
    IdOrder(sh, t, u);
    CurrentTracks(sh, a.slots, a.history, a.last, t, EmptyBucket(l), Apply(l));
    var slots := Current(sh, a.slots, t, EmptyBucket(l));
    LiveSumBound(sh, slots, a.history, Id(sh, t), u, CountOf(l, kind, value), Weight(kind, value), EmptyBucket(l),
                 Apply(l));
    WindowCounts(l, sh, a.history, Horizon(sh, Id(sh, t), u), kind, value);
  }

  /** What a reading of key k says about the true count: equal to it when the value's counters were never evicted in
      the window, and never more than it when no count is negative. */
  ghost predicate Reports<V>(env: Env<V>, m: Metric<V>, t: nat, u: nat, k: Key, kind: Kind, value: V, count: int) {
    && IsEnv(env) && AreArrays(m) && IsShape(ShapeOf(k)) && k in m.rolling && m.rolling[k] in m.arrays
    && var sum, h := GetInterval(env, m, t, u, k, kind, value).sum, ArrayOf(m, k).history;
       (NeverEvicted(LayoutOf(env, k), ShapeOf(k), h, Oldest(k, t, u), kind, value) ==> sum == count)
       && (NonNegative(h) ==> sum <= count)
  }

  /** The bucket id just before the window of key k, refreshed at t and read at u. */
  function Oldest(k: Key, t: nat, u: nat): int
    requires IsShape(ShapeOf(k))
  {
    Horizon(ShapeOf(k), Id(ShapeOf(k), t), u)
  }

  lemma IntervalOfArray<V>(env: Env<V>, m: Metric<V>, clock: nat, t: nat, u: nat, k: Key, kind: Kind, value: V)
    requires IsEnv(env) && AreArrays(m) && clock <= t <= u && k in m.rolling && m.rolling[k] in m.arrays
    requires IsExact(ShapeOf(k)) && ArrayOf(m, k).key == k && ArrayInv(env, ArrayOf(m, k), clock)
    ensures Reports(env, m, t, u, k, kind, value, Recorded(m, k, Oldest(k, t, u), kind, value))
  {
    ArraySum(env, ArrayOf(m, k), clock, t, u, kind, value);
  }

  lemma ArrayOfKey<V>(env: Env<V>, m: Metric<V>, clock: nat, k: Key)
    requires Inv(env, m, clock) && k in m.rolling
    ensures m.rolling[k] in m.arrays && ArrayOf(m, k).key == k && IsArray(ArrayOf(m, k))
    ensures ArrayInv(env, ArrayOf(m, k), clock)
  {
  }

  lemma IntervalOfState<V>(env: Env<V>, m: Metric<V>, clock: nat, t: nat, u: nat, k: Key, kind: Kind, value: V)
    requires IsEnv(env) && Inv(env, m, clock) && clock <= t <= u && k in m.rolling && IsExact(ShapeOf(k))
    ensures Reports(env, m, t, u, k, kind, value, Recorded(m, k, Oldest(k, t, u), kind, value))
  {
    ArrayOfKey(env, m, clock, k);
    IntervalOfArray(env, m, clock, t, u, k, kind, value);
  }

  lemma RunReports<V>(env: Env<V>, ops: seq<Op<V>>, t: nat, u: nat, k: Key, kind: Kind, value: V)
    requires IsEnv(env) && IsRun(ops) && ClockOf(ops) <= t <= u && Initialised(ops, k) && IsExact(ShapeOf(k))
    ensures Reports(env, Run(env, ops), t, u, k, kind, value, Recorded(Run(env, ops), k, Oldest(k, t, u), kind, value))
  {
    RunKeeps(env, ops);
    RollingIsInitialised(env, ops, k);
    IntervalOfState(env, Run(env, ops), ClockOf(ops), t, u, k, kind, value);
  }

  /** PassInterval and BlockInterval of an initialised key: what was recorded with the value at the watched position in
      the buckets in sight, when the value's counters were never evicted there; with counts of 0 or more, never more
      than that. */
  lemma IntervalIsWindowSum<V>(env: Env<V>, ops: seq<Op<V>>, t: nat, u: nat, k: Key, kind: Kind, value: V)
    requires IsEnv(env) && IsRun(ops) && ClockOf(ops) <= t <= u && Initialised(ops, k) && IsExact(ShapeOf(k))
    ensures Reports(env, Run(env, ops), t, u, k, kind, value, Logged(ops, k, Oldest(k, t, u), kind, value))
  {
    RunReports(env, ops, t, u, k, kind, value);
    HistoryIsLog(env, ops, k, Oldest(k, t, u), kind, value);
  }

  predicate CountsNotNegative<V>(ops: seq<Op<V>>) {
    forall i :: 0 <= i < |ops| ==> ops[i].AddTo? ==> ops[i].count >= 0
  }

  lemma {:induction false} PokesAddNothing<V>(sh: Shape, r: Slots<Bucket<V>>, t: int, kind: Kind, value: V)
    requires Started(r)
    ensures NonNegative(PokeEvents(sh, r, t, Get(kind, value)))
  {
    if r != [] {
      PokesAddNothing(sh, r[..|r| - 1], t, kind, value);
    }
  }

  ghost predicate AllNonNegative<V>(m: Metric<V>) {
    forall a :: a in m.arrays ==> NonNegative(m.arrays[a].history)
  }

  lemma WatchedStaysNonNegative<V>(env: Env<V>, a: Array<V>, when: Key -> nat, kind: Kind, count: int, params: seq<V>)
    requires IsArray(a) && NonNegative(a.history) && count >= 0
    ensures NonNegative(Watched(env, a, when, kind, count, params, 0).history)
  {
  }

  lemma PeekedStaysNonNegative<V>(env: Env<V>, a: Array<V>, t: nat, u: nat, kind: Kind, value: V)
    requires IsArray(a) && NonNegative(a.history)
    ensures NonNegative(Peeked(env, a, t, u, kind, value).history)
  {
    var slots := Current(ShapeOf(a.key), a.slots, t, EmptyBucket(LayoutOf(env, a.key)));
    if Started(slots) {
      PokesAddNothing(ShapeOf(a.key), slots, u, kind, value);
    }
  }

  lemma StepStaysNonNegative<V>(env: Env<V>, m: Metric<V>, op: Op<V>)
    requires Linked(m) && AllNonNegative(m) && (op.AddTo? ==> op.count >= 0)
    requires op.Initialize? ==> IsShape(ShapeOf(op.k))
    ensures AllNonNegative(Step(env, m, op))
  {
    match op
    case Initialize(_) =>
    case AddTo(when, _, kind, count, params) =>
      forall a | a in m.arrays ensures NonNegative(Step(env, m, op).arrays[a].history) {
        AddFromEach(env, m, when, kind, count, params, 0, a);
        WatchedStaysNonNegative(env, m.arrays[a], when, kind, count, params);
      }
    case Read(t, u, k, kind, value) =>
      if k in m.rolling {
        PeekedStaysNonNegative(env, ArrayOf(m, k), t, u, kind, value);
      }
  }

  /** When no call adds a negative count, no window ever holds one. */
  lemma {:induction false} RunStaysNonNegative<V>(env: Env<V>, ops: seq<Op<V>>)
    requires IsRun(ops) && CountsNotNegative(ops)
    ensures AllNonNegative(Run(env, ops))
  {
    if ops != [] {
      RunStaysNonNegative(env, ops[..|ops| - 1]);
      RunKeeps(env, ops[..|ops| - 1]);
      StepStaysNonNegative(env, Run(env, ops[..|ops| - 1]), Last(ops));
    }
  }

  lemma ReportedAtMost<V>(env: Env<V>, m: Metric<V>, t: nat, u: nat, k: Key, kind: Kind, value: V, count: int)
    requires Reports(env, m, t, u, k, kind, value, count) && AllNonNegative(m)
    ensures GetInterval(env, m, t, u, k, kind, value).sum <= count
  {
  }

  /** So whatever was evicted, a reading is never more than what was recorded. */
  lemma IntervalNeverExceeds<V>(env: Env<V>, ops: seq<Op<V>>, t: nat, u: nat, k: Key, kind: Kind, value: V)
    requires IsEnv(env) && IsRun(ops) && ClockOf(ops) <= t <= u && Initialised(ops, k) && IsExact(ShapeOf(k))
    requires CountsNotNegative(ops)
    ensures GetInterval(env, Run(env, ops), t, u, k, kind, value).sum <= Logged(ops, k, Oldest(k, t, u), kind, value)
  {
    RunStaysNonNegative(env, ops);
    IntervalIsWindowSum(env, ops, t, u, k, kind, value);
    ReportedAtMost(env, Run(env, ops), t, u, k, kind, value, Logged(ops, k, Oldest(k, t, u), kind, value));
  }

  // ---------------------------------------------------------------- shapes that are not exact

  lemma {:induction false} NothingBehind<V>(sh: Shape, r: Slots<Bucket<V>>, t: int, f: Bucket<V> -> int)
    requires forall i :: 0 <= i < |r| ==> r[i].None?
    ensures SumOfLive(sh, r, t, f) == 0
  {
    if r != [] {
      NothingBehind(sh, r[1..], t, f);
    }
  }

  lemma SumOfTwo<V>(sh: Shape, r: Slots<Bucket<V>>, t: int, f: Bucket<V> -> int)
    requires |r| >= 2 && IsLive(sh, t, r[0]) && IsLive(sh, t, r[1]) && forall i :: 2 <= i < |r| ==> r[i].None?
    ensures SumOfLive(sh, r, t, f) == f(r[0].value.value) + f(r[1].value.value)
  {
    var rest := r[1..];
    assert rest[0] == r[1];
    NothingBehind(sh, rest[1..], t, f);
  }

  lemma CountOfFirst<V>(l: Cache.Layout<V>, value: V, count: int)
    requires Cache.IsLayout(l)
    ensures CountOf(l, PASS, value)(EmptyBucket(l)) == 0
    ensures CountOf(l, PASS, value)(Apply(l)(EmptyBucket(l), Add(PASS, value, count))) == count
  {
    var j := Cache.ShardOf(l, value);
    LruSpec.CountStep(LruSpec.Empty<V>(), LruSpec.Increase(value, count), Cache.RoomOf(l, j), value);
  }

  /** The buckets after one record at 0, refreshed and read just when the ring has come round. */
  lemma StaleBucketCounts<V>(l: Cache.Layout<V>, sh: Shape, value: V, count: int)
    requires Cache.IsLayout(l) && IsShape(sh) && !IsExact(sh)
    ensures var t, e := (sh.samples + 1) * Length(sh), Add(PASS, value, count);
      var r := Modify(sh, Empty(sh), 0, EmptyBucket(l), b => Apply(l)(b, e));
      SumOfLive(sh, Current(sh, r, t, EmptyBucket(l)), t, CountOf(l, PASS, value)) == count
      && Horizon(sh, Id(sh, t), t) == 1
  {
    var t, e := (sh.samples + 1) * Length(sh), Add(PASS, value, count);
    ShapeOfStale(sh, t);
    var r := Modify(sh, Empty(sh), 0, EmptyBucket(l), b => Apply(l)(b, e));
    assert r[0] == Some(Wrap(0, Apply(l)(EmptyBucket(l), e)));
    var c := Current(sh, r, t, EmptyBucket(l));
    assert c[0] == r[0] && c[1] == Some(Wrap(t, EmptyBucket(l)));
    SumOfTwo(sh, c, t, CountOf(l, PASS, value));
    CountOfFirst(l, value, count);
  }

  /** One addition at 0, to a key just initialised. */
  function OneAdd<V>(k: Key, value: V, count: int): seq<Op<V>>
    requires k.paramIdx >= 0
  {
    [Initialize(k), AddTo(_ => 0, 0, PASS, count, seq(k.paramIdx + 1, _ => value))]
  }

  function OneRecorded<V(==)>(env: Env<V>, k: Key, value: V, count: int): (a: Array<V>)
    requires IsShape(ShapeOf(k))
    ensures IsArray(a) && a.key == k
  {
    Record(env, Array(k, Empty(ShapeOf(k)), [], -1), 0, Add(PASS, value, count))
  }

  lemma InitializeRuns<V>(env: Env<V>, k: Key)
    requires IsEnv(env) && IsShape(ShapeOf(k))
    ensures var ops: seq<Op<V>> := [Initialize(k)];
      IsRun(ops) && ClockOf(ops) == 0 && Initialised(ops, k) && Run(env, ops) == InitializeFor(Blank(), k)
    ensures forall lo, kind, value: V :: Logged([Initialize(k)], k, lo, kind, value) == 0
  {
    var ops: seq<Op<V>> := [Initialize(k)];
    assert ops[..|ops| - 1] == [] && Last(ops) == Initialize(k) && ops[0] == Initialize(k);
    assert IsRun<V>([]) && ClockOf<V>([]) == 0;
    forall lo, kind, value: V ensures Logged(ops, k, lo, kind, value) == 0 {
      NothingLoggedBefore<V>([], k, lo, kind, value);
    }
  }

  lemma OneAddRuns<V>(env: Env<V>, k: Key, value: V, count: int)
    requires IsEnv(env) && IsShape(ShapeOf(k)) && k.paramIdx >= 0
    ensures var ops := OneAdd(k, value, count);
      && IsRun(ops) && ClockOf(ops) == 0 && Initialised(ops, k)
      && var m := Run(env, ops);
      && k in m.rolling && m.rolling[k] in m.arrays && ArrayOf(m, k) == OneRecorded(env, k, value, count)
  {
    var ops, m1 := OneAdd(k, value, count), InitializeFor(Blank<V>(), k);
    assert ops[..|ops| - 1] == [Initialize(k)] && Last(ops) == ops[1];
    InitializeRuns(env, k);
    InitialisedLast(ops, k);
    InitializeLinks(Blank<V>(), k);
    AddFromEach(env, m1, ops[1].when, PASS, count, ops[1].params, 0, 0);
  }

  lemma OneAddIsOld<V>(env: Env<V>, k: Key, lo: nat, value: V, count: int)
    requires IsEnv(env) && IsShape(ShapeOf(k)) && k.paramIdx >= 0
    ensures Logged(OneAdd(k, value, count), k, lo, PASS, value) == 0
  {
    var ops := OneAdd(k, value, count);
    assert ops[..|ops| - 1] == [Initialize(k)] && Last(ops) == ops[1];
    InitializeRuns(env, k);
    assert Id(ShapeOf(k), 0) == 0;
  }

  lemma ReadingOfArray<V>(env: Env<V>, m: Metric<V>, k: Key, t: nat, slots: Slots<Bucket<V>>, value: V)
    requires IsShape(ShapeOf(k)) && AreArrays(m) && k in m.rolling && m.rolling[k] in m.arrays
    requires ArrayOf(m, k).key == k && ArrayOf(m, k).slots == slots
    ensures var l, sh := LayoutOf(env, k), ShapeOf(k);
      GetInterval(env, m, t, t, k, PASS, value).sum
      == SumOfLive(sh, Current(sh, slots, t, EmptyBucket(l)), t, CountOf(l, PASS, value))
  {
  }

  lemma StaleReading<V>(env: Env<V>, m: Metric<V>, k: Key, value: V, count: int)
    requires IsEnv(env) && IsShape(ShapeOf(k)) && !IsExact(ShapeOf(k)) && AreArrays(m)
    requires k in m.rolling && m.rolling[k] in m.arrays && ArrayOf(m, k) == OneRecorded(env, k, value, count)
    ensures var t := (k.sampleCount + 1) * Length(ShapeOf(k)); GetInterval(env, m, t, t, k, PASS, value).sum == count
  {
    var l, sh, e := LayoutOf(env, k), ShapeOf(k), Add(PASS, value, count);
    var slots := Modify(sh, Empty(sh), 0, EmptyBucket(l), b => Apply(l)(b, e));
    StaleBucketCounts(l, sh, value, count);
    ReadingOfArray(env, m, k, (k.sampleCount + 1) * Length(sh), slots, value);
  }

  lemma OldestOfStale(k: Key)
    requires IsShape(ShapeOf(k)) && !IsExact(ShapeOf(k))
    ensures var t := (k.sampleCount + 1) * Length(ShapeOf(k)); Oldest(k, t, t) == 1
  {
    ShapeOfStale(ShapeOf(k), (k.sampleCount + 1) * Length(ShapeOf(k)));
  }

  /** A run that ends with such a reading. */
  ghost predicate CountsStale<V>(env: Env<V>, ops: seq<Op<V>>, t: nat, k: Key, value: V, count: int) {
    && IsShape(ShapeOf(k)) && IsRun(ops) && ClockOf(ops) <= t && Initialised(ops, k) && CountsNotNegative(ops)
    && Logged(ops, k, Oldest(k, t, t), PASS, value) == 0
    && GetInterval(env, Run(env, ops), t, t, k, PASS, value).sum == count
  }

  lemma IsStale<V>(env: Env<V>, ops: seq<Op<V>>, t: nat, k: Key, value: V, count: nat)
    requires IsShape(ShapeOf(k)) && Oldest(k, t, t) == 1 && Logged(ops, k, 1, PASS, value) == 0
    requires IsRun(ops) && ClockOf(ops) <= t && Initialised(ops, k) && CountsNotNegative(ops)
    requires GetInterval(env, Run(env, ops), t, t, k, PASS, value).sum == count
    ensures CountsStale(env, ops, t, k, value, count)
  {
  }

  /** A run that has recorded one count with the value, in bucket 0. */
  ghost predicate RecordsOne<V>(env: Env<V>, ops: seq<Op<V>>, k: Key, value: V, count: nat)
    requires IsShape(ShapeOf(k))
  {
    && IsRun(ops) && ClockOf(ops) == 0 && Initialised(ops, k) && CountsNotNegative(ops)
    && Logged(ops, k, 1, PASS, value) == 0
    && var m := Run(env, ops);
       k in m.rolling && m.rolling[k] in m.arrays && ArrayOf(m, k) == OneRecorded(env, k, value, count)
  }

  lemma OneAddRecords<V>(env: Env<V>, k: Key, value: V, count: nat) returns (ops: seq<Op<V>>)
    requires IsEnv(env) && IsShape(ShapeOf(k)) && k.paramIdx >= 0
    ensures RecordsOne(env, ops, k, value, count)
  {
    ops := OneAdd(k, value, count);
    OneAddRuns(env, k, value, count);
    OneAddIsOld(env, k, 1, value, count);
  }

  /** For every shape that is not exact some reading counts what was recorded outside the window. */
  lemma StaleCountIsRead<V>(env: Env<V>, k: Key, value: V, count: nat)
      returns (ops: seq<Op<V>>, t: nat)
    requires IsEnv(env) && IsShape(ShapeOf(k)) && !IsExact(ShapeOf(k)) && k.paramIdx >= 0
    ensures CountsStale(env, ops, t, k, value, count)
  {
    ops := OneAddRecords(env, k, value, count);
    t := (k.sampleCount + 1) * Length(ShapeOf(k));
    StaleReading(env, Run(env, ops), k, value, count);
    OldestOfStale(k);
    IsStale(env, ops, t, k, value, count);
  }

  /** A reading never exceeds what was recorded in the window. */
  ghost predicate NeverExceeds<V(!new)>(env: Env<V>, k: Key)
    requires IsShape(ShapeOf(k))
  {
    forall ops: seq<Op<V>>, t: nat, u: nat, kind, value: V ::
      IsRun(ops) && ClockOf(ops) <= t <= u && Initialised(ops, k) && CountsNotNegative(ops) ==>
        GetInterval(env, Run(env, ops), t, u, k, kind, value).sum <= Logged(ops, k, Oldest(k, t, u), kind, value)
  }

  /** The condition on a parameter rule: readings of its window stay within what was recorded, in all runs, if and only
      if interval % samples is less than a bucket's length. Nothing checks rules for it. */
  lemma NeverExceedsIff<V(!new)>(env: Env<V>, k: Key, some: V)
    requires IsEnv(env) && IsShape(ShapeOf(k)) && k.paramIdx >= 0
    ensures NeverExceeds(env, k) <==> IsExact(ShapeOf(k))
  {
    if IsExact(ShapeOf(k)) {
      forall ops: seq<Op<V>>, t: nat, u: nat, kind, value: V
        | IsRun(ops) && ClockOf(ops) <= t <= u && Initialised(ops, k) && CountsNotNegative(ops)
        ensures GetInterval(env, Run(env, ops), t, u, k, kind, value).sum
             <= Logged(ops, k, Oldest(k, t, u), kind, value)
      {
        IntervalNeverExceeds(env, ops, t, u, k, kind, value);
      }
    } else {
      var ops, t := StaleCountIsRead(env, k, some, 1);
      assert GetInterval(env, Run(env, ops), t, t, k, PASS, some).sum > Logged(ops, k, Oldest(k, t, t), PASS, some);
    }
  }
}
