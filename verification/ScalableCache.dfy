/** The sharded cache: a fixed number of LRU caches, each key served by the one its hash selects. */
module ScalableCache {
  import opened Seqs
  import LruSpec

  /** `hash` is the 64-bit hash of a key; a number of shards of 0 has been replaced by the processor count. */
  datatype Layout<!K> = Layout(maxSize: nat, numShards: nat, hash: K -> nat)

  type Shards<K> = seq<LruSpec.Cache<K>>

  predicate IsLayout<K>(l: Layout<K>) {
    l.numShards >= 1
  }

  /** getShard: the top 16 bits of the hash pick the shard. */
  function ShardOf<K>(l: Layout<K>, key: K): (j: nat)
    requires IsLayout(l)
    ensures j < l.numShards
  {
    l.hash(key) / 0x1_0000_0000_0000 % l.numShards
  }

  /** Of a 64-bit hash the shard depends on the top 16 bits alone. */
  lemma TopBitsDecide<K>(l: Layout<K>, key: K, top: nat, low: nat)
    requires IsLayout(l) && low < 0x1_0000_0000_0000 && l.hash(key) == top * 0x1_0000_0000_0000 + low
    ensures ShardOf(l, key) == top % l.numShards
  {
  }

  /** The first shard takes what the others leave. */
  function ShardSize<K>(l: Layout<K>, i: nat): nat
    requires IsLayout(l)
  {
    l.maxSize / l.numShards + if i == 0 then l.maxSize % l.numShards else 0
  }

  function RoomOf<K>(l: Layout<K>, i: nat): (r: nat)
    requires IsLayout(l)
    ensures r >= 1
  {
    LruSpec.Room(ShardSize(l, i))
  }

  function Empty<K(==)>(l: Layout<K>): (s: Shards<K>)
    ensures |s| == l.numShards
  {
    seq(l.numShards, _ => LruSpec.Empty())
  }

  function Step<K(==)>(l: Layout<K>, s: Shards<K>, op: LruSpec.Op<K>): (r: Shards<K>)
    requires IsLayout(l) && |s| == l.numShards
    ensures |r| == |s|
  {
    if op.Clear? then Empty(l)
    else
      var j := ShardOf(l, op.key);
      s[j := LruSpec.Step(s[j], op, RoomOf(l, j))]
  }

  function Run<K(==)>(l: Layout<K>, ops: seq<LruSpec.Op<K>>): (s: Shards<K>)
    requires IsLayout(l)
    ensures |s| == l.numShards
    decreases |ops|
  {
    if ops == [] then Empty(l) else Step(l, Run(l, ops[..|ops| - 1]), Last(ops))
  }

  /** The operations that reach shard j. */
  function Reaching<K>(l: Layout<K>, ops: seq<LruSpec.Op<K>>, j: nat): seq<LruSpec.Op<K>>
    requires IsLayout(l)
    decreases |ops|
  {
    if ops == [] then []
    else
      Reaching(l, ops[..|ops| - 1], j)
      + if Last(ops).Clear? || ShardOf(l, Last(ops).key) == j then [Last(ops)] else []
  }

  function Count<K(==)>(l: Layout<K>, s: Shards<K>, key: K): int
    requires IsLayout(l) && |s| == l.numShards
  {
    LruSpec.Count(s[ShardOf(l, key)], key)
  }

  // ---------------------------------------------------------------- shards are caches of their own

  lemma {:induction false} ShardRunsAlone<K>(l: Layout<K>, ops: seq<LruSpec.Op<K>>, j: nat)
    requires IsLayout(l) && j < l.numShards
    ensures Run(l, ops)[j] == LruSpec.Run(LruSpec.Empty(), Reaching(l, ops, j), RoomOf(l, j))
    decreases |ops|
  {
    if ops != [] {
      var before, op := ops[..|ops| - 1], Last(ops);
      var mine := Reaching(l, before, j);
      ShardRunsAlone(l, before, j);
      if op.Clear? || ShardOf(l, op.key) == j {
        assert (mine + [op])[..|mine + [op]| - 1] == mine;
      } else {
        assert mine + [] == mine;
      }
    }
  }

  lemma {:induction false} ReachingStays<K>(l: Layout<K>, ops: seq<LruSpec.Op<K>>, j: nat, i: nat)
    requires IsLayout(l) && i < |Reaching(l, ops, j)|
    ensures var op := Reaching(l, ops, j)[i]; op in ops && (op.Clear? || ShardOf(l, op.key) == j)
    decreases |ops|
  {
    var n := |ops| - 1;
    if i < |Reaching(l, ops[..n], j)| {
      ReachingStays(l, ops[..n], j, i);
      assert ops == ops[..n] + [ops[n]];
    }
  }

  /** A key that a run of operations never names is not in the cache. */
  lemma {:induction false} OnlyNamedKeys<K>(ops: seq<LruSpec.Op<K>>, room: nat, k: K)
    requires room >= 1 && forall i :: 0 <= i < |ops| ==> !ops[i].Clear? ==> ops[i].key != k
    ensures k !in LruSpec.Run(LruSpec.Empty(), ops, room).count
    decreases |ops|
  {
    if ops != [] {
      OnlyNamedKeys(ops[..|ops| - 1], room, k);
    }
  }

  /** The shards partition the keys: whatever a shard holds belongs there. */
  lemma ShardsPartitionKeys<K>(l: Layout<K>, ops: seq<LruSpec.Op<K>>, j: nat, key: K)
    requires IsLayout(l) && j < l.numShards && key in Run(l, ops)[j].count
    ensures ShardOf(l, key) == j
  {
    ShardRunsAlone(l, ops, j);
    var mine := Reaching(l, ops, j);
    if ShardOf(l, key) != j {
      forall i | 0 <= i < |mine| ensures !mine[i].Clear? ==> mine[i].key != key {
        ReachingStays(l, ops, j, i);
      }
      OnlyNamedKeys(mine, RoomOf(l, j), key);
      assert false;
    }
  }

  // ---------------------------------------------------------------- sizes

  function Capacity<K>(l: Layout<K>, n: nat): nat
    requires IsLayout(l)
  {
    if n == 0 then 0 else Capacity(l, n - 1) + ShardSize(l, n - 1)
  }

  function TotalRoom<K>(l: Layout<K>, n: nat): nat
    requires IsLayout(l)
  {
    if n == 0 then 0 else TotalRoom(l, n - 1) + RoomOf(l, n - 1)
  }

  function Entries<K>(s: Shards<K>, n: nat): nat
    requires n <= |s|
  {
    if n == 0 then 0 else Entries(s, n - 1) + |s[n - 1].keys|
  }

  lemma {:induction false} CapacityOf<K>(l: Layout<K>, n: nat)
    requires IsLayout(l) && n >= 1
    ensures Capacity(l, n) == n * (l.maxSize / l.numShards) + l.maxSize % l.numShards
  {
    if n > 1 {
      CapacityOf(l, n - 1);
      assert n * (l.maxSize / l.numShards) == (n - 1) * (l.maxSize / l.numShards) + l.maxSize / l.numShards;
    } else {
      assert Capacity(l, 0) == 0;
    }
  }

  /** The capacities of the shards add up to the configured size. */
  lemma CapacitiesAddUp<K>(l: Layout<K>)
    requires IsLayout(l)
    ensures Capacity(l, l.numShards) == l.maxSize
  {
    CapacityOf(l, l.numShards);
  }

  /** After any run no shard holds more than its room, which for a capacity of 0 is 1. */
  lemma {:induction false} EntriesBounded<K>(l: Layout<K>, ops: seq<LruSpec.Op<K>>, n: nat)
    requires IsLayout(l) && n <= l.numShards
    ensures Entries(Run(l, ops), n) <= TotalRoom(l, n)
    decreases n
  {
    if n > 0 {
      EntriesBounded(l, ops, n - 1);
      ShardRunsAlone(l, ops, n - 1);
      LruSpec.RunIsWf(Reaching(l, ops, n - 1), RoomOf(l, n - 1));
    }
  }

  /** With room for at least one key in every shard the total is within the configured size. */
  lemma {:induction false} RoomIsCapacity<K>(l: Layout<K>, n: nat)
    requires IsLayout(l) && l.maxSize >= l.numShards && n <= l.numShards
    ensures TotalRoom(l, n) == Capacity(l, n)
  {
    assert l.maxSize / l.numShards >= 1;
    if n > 0 {
      RoomIsCapacity(l, n - 1);
    }
  }

  /** The constructor's loop over the shards. */
  method ShardSizes<K>(l: Layout<K>) returns (sizes: seq<nat>)
    requires IsLayout(l)
    ensures |sizes| == l.numShards && forall i :: 0 <= i < |sizes| ==> sizes[i] == ShardSize(l, i)
    ensures sizes[0] == l.maxSize / l.numShards + l.maxSize % l.numShards
    ensures forall i :: 1 <= i < |sizes| ==> sizes[i] == l.maxSize / l.numShards
  {
    sizes := [];
    var i := 0;
    while i < l.numShards
      invariant 0 <= i <= l.numShards && |sizes| == i
      invariant forall j :: 0 <= j < i ==> sizes[j] == ShardSize(l, j)
    {
      var s := l.maxSize / l.numShards;
      if i == 0 {
        s := s + l.maxSize % l.numShards;
      }
      sizes := sizes + [s];
      i := i + 1;
    }
  }

  // ---------------------------------------------------------------- counters

  /** Everything added to a key since the last clear, in operations on all shards. */
  lemma {:induction false} AddedReaches<K>(l: Layout<K>, ops: seq<LruSpec.Op<K>>, key: K)
    requires IsLayout(l)
    ensures LruSpec.Added(Reaching(l, ops, ShardOf(l, key)), key) == LruSpec.Added(ops, key)
    decreases |ops|
  {
    if ops != [] {
      var j := ShardOf(l, key);
      var mine, op := Reaching(l, ops[..|ops| - 1], j), Last(ops);
      AddedReaches(l, ops[..|ops| - 1], key);
      if op.Clear? || ShardOf(l, op.key) == j {
        assert (mine + [op])[..|mine + [op]| - 1] == mine;
      } else {
        assert mine + [] == mine;
      }
    }
  }

  /** Is the key's counter ever dropped, since the last clear, for another key of its shard? */
  predicate EverEvicted<K(==)>(l: Layout<K>, ops: seq<LruSpec.Op<K>>, key: K)
    requires IsLayout(l)
  {
    LruSpec.EverEvicted(Reaching(l, ops, ShardOf(l, key)), RoomOf(l, ShardOf(l, key)), key)
  }

  lemma ReachingKinds<K>(l: Layout<K>, ops: seq<LruSpec.Op<K>>, j: nat)
    requires IsLayout(l)
    ensures LruSpec.CountsOnly(ops) ==> LruSpec.CountsOnly(Reaching(l, ops, j))
    ensures LruSpec.NonNegative(ops) ==> LruSpec.NonNegative(Reaching(l, ops, j))
  {
    forall i | 0 <= i < |Reaching(l, ops, j)| ensures Reaching(l, ops, j)[i] in ops {
      ReachingStays(l, ops, j, i);
    }
  }

  lemma CountExactIfNeverEvicted<K>(l: Layout<K>, ops: seq<LruSpec.Op<K>>, key: K)
    requires IsLayout(l) && LruSpec.CountsOnly(ops) && !EverEvicted(l, ops, key)
    ensures Count(l, Run(l, ops), key) == LruSpec.Added(ops, key)
  {
    var j := ShardOf(l, key);
    ShardRunsAlone(l, ops, j);
    AddedReaches(l, ops, key);
    ReachingKinds(l, ops, j);
    LruSpec.CountExactIfNeverEvicted(Reaching(l, ops, j), RoomOf(l, j), key);
  }

  lemma {:induction false} CountNeverExceeds<K>(l: Layout<K>, ops: seq<LruSpec.Op<K>>, key: K)
    requires IsLayout(l) && LruSpec.CountsOnly(ops) && LruSpec.NonNegative(ops)
    ensures 0 <= Count(l, Run(l, ops), key) <= LruSpec.Added(ops, key)
  {
    var j := ShardOf(l, key);
    ShardRunsAlone(l, ops, j);
    AddedReaches(l, ops, key);
    ReachingKinds(l, ops, j);
    LruSpec.CountNeverExceeds(Reaching(l, ops, j), RoomOf(l, j), key);
  }

  // ---------------------------------------------------------------- when a counter can be dropped

  /** Enough other keys share the key's shard to fill it. */
  ghost predicate Crowded<K(!new)>(l: Layout<K>, key: K)
    requires IsLayout(l)
  {
    exists others: seq<K> :: IsCrowd(l, key, others)
  }

  ghost predicate IsCrowd<K>(l: Layout<K>, key: K, others: seq<K>)
    requires IsLayout(l)
  {
    && |others| == RoomOf(l, ShardOf(l, key)) && Distinct(others)
    && forall w :: w in others ==> w != key && ShardOf(l, w) == ShardOf(l, key)
  }

  ghost predicate OfShard<K>(l: Layout<K>, ops: seq<LruSpec.Op<K>>, j: nat)
    requires IsLayout(l)
  {
    forall i :: 0 <= i < |ops| ==> ops[i].Clear? || ShardOf(l, ops[i].key) == j
  }

  lemma KeysOfShard<K>(l: Layout<K>, ops: seq<LruSpec.Op<K>>, j: nat, room: nat, w: K)
    requires IsLayout(l) && OfShard(l, ops, j) && room >= 1 && w in LruSpec.Run(LruSpec.Empty(), ops, room).count
    ensures ShardOf(l, w) == j
  {
    if ShardOf(l, w) != j {
      OnlyNamedKeys(ops, room, w);
    }
  }

  /** Whoever drops a counter finds the shard full of other keys, its own among them. */
  lemma DroppedForACrowd<K(!new)>(l: Layout<K>, ops: seq<LruSpec.Op<K>>, op: LruSpec.Op<K>, key: K)
    requires IsLayout(l) && OfShard(l, ops, ShardOf(l, key)) && (op.Clear? || ShardOf(l, op.key) == ShardOf(l, key))
    requires var room := RoomOf(l, ShardOf(l, key));
      LruSpec.Evicts(LruSpec.Run(LruSpec.Empty(), ops, room), op, room, key)
    ensures Crowded(l, key)
  {
    var j := ShardOf(l, key);
    var room := RoomOf(l, j);
    var c := LruSpec.Run(LruSpec.Empty(), ops, room);
    LruSpec.RunIsWf(ops, room);
    var others := [op.key] + c.keys[..|c.keys| - 1];
    DistinctDropLast(c.keys, c.keys[..|c.keys| - 1]);
    assert op.key !in Elements(c.keys);
    DistinctCons(op.key, c.keys[..|c.keys| - 1]);
    forall w | w in others ensures w != key && ShardOf(l, w) == j {
      if w != op.key {
        assert w in Elements(c.keys[..|c.keys| - 1]);
        KeysOfShard(l, ops, j, room, w);
      }
    }
    assert IsCrowd(l, key, others);
  }

  lemma {:induction false} DroppedInShard<K(!new)>(l: Layout<K>, ops: seq<LruSpec.Op<K>>, key: K)
    requires IsLayout(l) && OfShard(l, ops, ShardOf(l, key))
    requires LruSpec.EverEvicted(ops, RoomOf(l, ShardOf(l, key)), key)
    ensures Crowded(l, key)
    decreases |ops|
  {
    var before, room := ops[..|ops| - 1], RoomOf(l, ShardOf(l, key));
    if LruSpec.Evicts(LruSpec.Run(LruSpec.Empty(), before, room), Last(ops), room, key) {
      DroppedForACrowd(l, before, Last(ops), key);
    } else {
      DroppedInShard(l, before, key);
    }
  }

  /** A counter is never dropped unless the shard can be filled with others. */
  lemma EvictedOnlyIfCrowded<K(!new)>(l: Layout<K>, ops: seq<LruSpec.Op<K>>, key: K)
    requires IsLayout(l) && EverEvicted(l, ops, key)
    ensures Crowded(l, key)
  {
    var j := ShardOf(l, key);
    forall i | 0 <= i < |Reaching(l, ops, j)|
      ensures Reaching(l, ops, j)[i].Clear? || ShardOf(l, Reaching(l, ops, j)[i].key) == j
    {
      ReachingStays(l, ops, j, i);
    }
    DroppedInShard(l, Reaching(l, ops, j), key);
  }
}
