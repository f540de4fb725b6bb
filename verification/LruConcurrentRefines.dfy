/** One thread alone, call after call, uses the cache as the sequential specification says. */
module LruConcurrentRefines {
  import opened Seqs
  import opened LruConcurrent
  import opened LruConcurrentLimits
  import opened LruConcurrentSolo
  import LruSpec

  function KeysOf<K>(list: seq<Node<K>>): (keys: seq<K>)
    ensures |keys| == |list| && forall i :: 0 <= i < |list| ==> keys[i] == list[i].key
  {
    seq(|list|, i requires 0 <= i < |list| => list[i].key)
  }

  function OpOf<K>(call: Call<K>): LruSpec.Op<K> {
    match call
    case Insert(key) => LruSpec.Insert(key, 0)
    case Increase(key) => LruSpec.Increase(key, 1)
    case Find(key) => LruSpec.Find(key)
  }

  /** The steps of one whole call of thread t with nobody else running. */
  function Alone<K(==)>(s: State<K>, t: nat, call: Call<K>): seq<Move<K>> {
    match call
    case Insert(key) => Solo(t, key)
    case Increase(key) => [Move(t, call)] + if key in s.map_ then [Move(t, call)] else Solo(t, key)
    case Find(key) => [Move(t, call)] + if key in s.map_ then [Move(t, call)] else []
  }

  /** A cache at rest that holds the keys of c in its order, with m_size counting them unless the capacity is 0. */
  ghost predicate Holds<K(!new)>(s: State<K>, c: LruSpec.Cache<K>) {
    && Quiescent(s) && Placed(s) && Accounted(s) && LruSpec.Wf(c) && KeysOf(s.list) == c.keys
    && s.size == (if s.maxSize == 0 then 0 else |s.list|) && |s.list| <= LruSpec.Room(s.maxSize)
  }

  lemma MappedIsListed<K(!new)>(s: State<K>, c: LruSpec.Cache<K>, key: K)
    requires Holds(s, c)
    ensures key in s.map_ <==> key in c.count
    ensures key in s.map_ ==> s.map_[key] in s.list && s.map_[key].key == key
  {
    if key in s.map_ {
      var node := s.map_[key];
      assert !HeldBySome(s.threads, node);
      assert node in Elements(s.list);
      var i :| 0 <= i < |s.list| && s.list[i] == node;
      assert c.keys[i] == key && c.keys[i] in c.keys && key in Elements(c.keys);
    }
    if key in c.count {
      assert key in Elements(c.keys);
      var i :| 0 <= i < |c.keys| && c.keys[i] == key;
      assert s.list[i] in Elements(s.list);
    }
  }

  lemma {:induction false} KeysWithout<K>(list: seq<Node<K>>, node: Node<K>)
    requires node in list && forall n :: n in list && n.key == node.key ==> n == node
    ensures KeysOf(Remove(list, node)) == Remove(KeysOf(list), node.key)
  {
    assert KeysOf(list)[1..] == KeysOf(list[1..]);
    if list[0] != node {
      assert list == [list[0]] + list[1..];
      KeysWithout(list[1..], node);
      assert list[0].key != node.key;
      assert KeysOf([list[0]] + Remove(list[1..], node)) == [list[0].key] + KeysOf(Remove(list[1..], node));
    }
  }

  /** The entry moves to the front in the second step. */
  lemma TouchTwice<K(!new)>(s: State<K>, t: nat, call: Call<K>)
    requires Quiescent(s) && t < |s.threads| && !call.Insert? && call.key in s.map_ && s.map_[call.key] in s.list
    ensures var node, s' := s.map_[call.key], Run(s, [Move(t, call)] + [Move(t, call)]);
      s' == s.(list := [node] + Remove(s.list, node))
  {
    var m, node := Move(t, call), s.map_[call.key];
    var twice := [m] + [m];
    assert twice[1..] == [m] && [m][1..] == [];
    var touching := Step(s, m);
    assert touching == Set(s, t, Touch(node));
    assert Step(touching, m) == s.(list := [node] + Remove(s.list, node)) by {
      assert s.threads[t := Touch(node)][t := Idle] == s.threads;
    }
    assert Run(s, twice) == Run(touching, [m]) == Run(Step(touching, m), []);
  }

  lemma TouchedKeys<K>(list: seq<Node<K>>, node: Node<K>)
    requires node in list && forall n :: n in list && n.key == node.key ==> n == node
    ensures KeysOf([node] + Remove(list, node)) == [node.key] + Remove(KeysOf(list), node.key)
  {
    KeysWithout(list, node);
    assert KeysOf([node] + Remove(list, node)) == [node.key] + KeysOf(Remove(list, node));
  }

  lemma OneNodePerKey<K(!new)>(s: State<K>, node: Node<K>)
    requires Placed(s) && node in s.list
    ensures forall n :: n in s.list && n.key == node.key ==> n == node
  {
    forall n | n in s.list && n.key == node.key ensures n == node {
      assert n in Elements(s.list) && node in Elements(s.list);
    }
  }

  lemma TouchIsWf<K>(c: LruSpec.Cache<K>, key: K, value: int)
    requires LruSpec.Wf(c) && key in c.count
    ensures var d := LruSpec.Touch(c.(count := c.count[key := value]), key);
      LruSpec.Wf(d) && d.keys == [key] + Remove(c.keys, key) && |d.keys| == |c.keys|
  {
    DistinctTouch(c.keys, key);
  }

  lemma TouchHolds<K(!new)>(s: State<K>, t: nat, call: Call<K>, c: LruSpec.Cache<K>, value: int)
    requires Holds(s, c) && t < |s.threads| && !call.Insert? && call.key in s.map_
    ensures Holds(Run(s, [Move(t, call)] + [Move(t, call)]),
                  LruSpec.Touch(c.(count := c.count[call.key := value]), call.key))
  {
    var node, moves := s.map_[call.key], [Move(t, call)] + [Move(t, call)];
    MappedIsListed(s, c, call.key);
    TouchTwice(s, t, call);
    InvariantOverRuns(s, moves);
    OneNodePerKey(s, node);
    TouchedKeys(s.list, node);
    TouchIsWf(c, call.key, value);
    assert |[node] + Remove(s.list, node)| == |[node.key] + Remove(KeysOf(s.list), node.key)|;
  }

  /** What is left of the list when a new key comes in, and its keys. */
  lemma RoomIsMade<K(!new)>(s: State<K>, c: LruSpec.Cache<K>)
    requires Holds(s, c)
    ensures var e := LruSpec.Evict(c, LruSpec.Room(s.maxSize));
      if s.size < s.maxSize || s.list == [] then e == c
      else s.size == s.maxSize && e.keys == KeysOf(s.list[..|s.list| - 1])
  {
    if !(s.size < s.maxSize || s.list == []) {
      assert KeysOf(s.list[..|s.list| - 1]) == c.keys[..|c.keys| - 1];
    }
  }

  /** At rest with these keys, the size as it should be. */
  ghost predicate Lists<K>(s: State<K>, maxSize: nat, keys: seq<K>) {
    Quiescent(s) && s.maxSize == maxSize && KeysOf(s.list) == keys && s.size == if maxSize == 0 then 0 else |s.list|
  }

  lemma ListsAt<K(!new)>(s: State<K>, t: nat, m: map<K, Node<K>>, node: Node<K>, rest: seq<Node<K>>, size: nat)
    requires Quiescent(s) && t < |s.threads| && size == if s.maxSize == 0 then 0 else |rest| + 1
    ensures Lists(At(s, t, m, [node] + rest, size, Idle), s.maxSize, [node.key] + KeysOf(rest))
  {
    assert KeysOf([node] + rest) == [node.key] + KeysOf(rest);
  }

  lemma ListedBelow<K(!new)>(s: State<K>, t: nat, key: K)
    requires Quiescent(s) && t < |s.threads| && key !in s.map_ && s.size < s.maxSize && s.size == |s.list|
    ensures Lists(Run(s, Solo(t, key)), s.maxSize, [key] + KeysOf(s.list))
  {
    var node := Node(key, s.nextId);
    SoloBelow(s, t, key);
    ListsAt(s, t, s.map_[key := node], node, s.list, s.size + 1);
  }

  lemma ListedEmpty<K(!new)>(s: State<K>, t: nat, key: K)
    requires Quiescent(s) && t < |s.threads| && key !in s.map_ && s.maxSize == 0 == s.size && s.list == []
    ensures Lists(Run(s, Solo(t, key)), s.maxSize, [key] + KeysOf(s.list))
  {
    var node, s1 := Node(key, s.nextId), s.(failed := s.failed + 1);
    SoloEmpty(s, t, key);
    ListsAt(s1, t, s.map_[key := node], node, [], 0);
    assert [node] + [] == [node];
  }

  lemma ListedFull<K(!new)>(s: State<K>, t: nat, key: K, init: seq<Node<K>>, victim: Node<K>)
    requires Quiescent(s) && t < |s.threads| && key !in s.map_ && s.size == s.maxSize
    requires s.list == init + [victim] && InMap(s.map_, victim) && (s.maxSize > 0 ==> s.size == |s.list|)
    ensures Lists(Run(s, Solo(t, key)), s.maxSize, [key] + KeysOf(init))
  {
    var node := Node(key, s.nextId);
    SoloFull(s, t, key, init, victim);
    ListsAt(s, t, s.map_[key := node] - {victim.key}, node, init, s.size);
  }

  lemma NewKeyListed<K(!new)>(s: State<K>, t: nat, key: K, c: LruSpec.Cache<K>)
    requires Holds(s, c) && t < |s.threads| && key !in s.map_
    ensures Lists(Run(s, Solo(t, key)), s.maxSize, [key] + LruSpec.Evict(c, LruSpec.Room(s.maxSize)).keys)
  {
    RoomIsMade(s, c);
    if s.size < s.maxSize {
      ListedBelow(s, t, key);
    } else if s.list == [] {
      ListedEmpty(s, t, key);
    } else {
      var init, victim := LastOne(s);
      ListedFull(s, t, key, init, victim);
      assert s.list[..|s.list| - 1] == init;
    }
  }

  lemma NewKeyHolds<K(!new)>(s: State<K>, t: nat, key: K, c: LruSpec.Cache<K>, value: int)
    requires Holds(s, c) && t < |s.threads| && key !in s.map_
    ensures Holds(Run(s, Solo(t, key)), LruSpec.Add(c, key, value, LruSpec.Room(s.maxSize)))
  {
    MappedIsListed(s, c, key);
    NewKeyListed(s, t, key, c);
    InvariantOverRuns(s, Solo(t, key));
    LruSpec.AddIsWf(c, key, value, LruSpec.Room(s.maxSize));
  }

  lemma NothingHolds<K(!new)>(s: State<K>, t: nat, call: Call<K>, c: LruSpec.Cache<K>)
    requires Holds(s, c) && t < |s.threads|
    requires if call.Insert? then call.key in s.map_ else call.Find? && call.key !in s.map_
    ensures Run(s, Alone(s, t, call)) == s
  {
    match call
    case Insert(key) => IdleRepeats(s, t, key, 8);
    case Find(key) =>
      assert [Move(t, call)] + [] == [Move(t, call)] && [Move(t, call)][1..] == [];
      assert s.threads[t := Idle] == s.threads;
      assert Run(s, [Move(t, call)]) == Run(Step(s, Move(t, call)), []);
  }

  /** increase() of an absent key: one step finds nothing, the rest is an insert. */
  lemma MissedInserts<K(!new)>(s: State<K>, t: nat, key: K)
    requires Quiescent(s) && t < |s.threads| && key !in s.map_
    ensures Run(s, [Move(t, Increase(key))] + Solo(t, key)) == Run(s, Solo(t, key))
  {
    var m, i := Move(t, Increase(key)), Move(t, Insert(key));
    var missed := Step(s, m);
    assert ([m] + Solo(t, key))[1..] == Solo(t, key);
    RunOnce(missed, i, 8);
    RunOnce(s, i, 8);
    assert missed.threads[t := Inserted(Node(key, s.nextId))] == s.threads[t := Inserted(Node(key, s.nextId))];
    assert Step(missed, i) == Step(s, i);
  }

  lemma InsertRefines<K(!new)>(s: State<K>, t: nat, key: K, c: LruSpec.Cache<K>)
    requires Holds(s, c) && t < |s.threads|
    ensures Holds(Run(s, Alone(s, t, Insert(key))), LruSpec.Step(c, LruSpec.Insert(key, 0), LruSpec.Room(s.maxSize)))
  {
    MappedIsListed(s, c, key);
    if key in s.map_ {
      NothingHolds(s, t, Insert(key), c);
    } else {
      NewKeyHolds(s, t, key, c, 0);
    }
  }

  lemma IncreaseRefines<K(!new)>(s: State<K>, t: nat, key: K, c: LruSpec.Cache<K>)
    requires Holds(s, c) && t < |s.threads|
    ensures Holds(Run(s, Alone(s, t, Increase(key))),
                  LruSpec.Step(c, LruSpec.Increase(key, 1), LruSpec.Room(s.maxSize)))
  {
    MappedIsListed(s, c, key);
    if key in s.map_ {
      TouchHolds(s, t, Increase(key), c, c.count[key] + 1);
    } else {
      MissedInserts(s, t, key);
      NewKeyHolds(s, t, key, c, 1);
    }
  }

  lemma FindRefines<K(!new)>(s: State<K>, t: nat, key: K, c: LruSpec.Cache<K>)
    requires Holds(s, c) && t < |s.threads|
    ensures Holds(Run(s, Alone(s, t, Find(key))), LruSpec.Step(c, LruSpec.Find(key), LruSpec.Room(s.maxSize)))
  {
    MappedIsListed(s, c, key);
    if key in s.map_ {
      TouchHolds(s, t, Find(key), c, c.count[key]);
      assert c.count[key := c.count[key]] == c.count;
    } else {
      NothingHolds(s, t, Find(key), c);
    }
  }

  /** One call of one thread. */
  lemma CallRefines<K(!new)>(s: State<K>, t: nat, call: Call<K>, c: LruSpec.Cache<K>)
    requires Holds(s, c) && t < |s.threads|
    ensures Holds(Run(s, Alone(s, t, call)), LruSpec.Step(c, OpOf(call), LruSpec.Room(s.maxSize)))
  {
    match call
    case Insert(key) => InsertRefines(s, t, key, c);
    case Increase(key) => IncreaseRefines(s, t, key, c);
    case Find(key) => FindRefines(s, t, key, c);
  }

  // ---------------------------------------------------------------- many calls

  /** The calls of one thread, one after the other. */
  function AloneAll<K(==)>(s: State<K>, t: nat, calls: seq<Call<K>>): State<K>
    decreases |calls|
  {
    if calls == [] then s
    else
      var before := AloneAll(s, t, calls[..|calls| - 1]);
      Run(before, Alone(before, t, Last(calls)))
  }

  function OpsOf<K>(calls: seq<Call<K>>): (ops: seq<LruSpec.Op<K>>)
    ensures |ops| == |calls|
    decreases |calls|
  {
    if calls == [] then [] else OpsOf(calls[..|calls| - 1]) + [OpOf(Last(calls))]
  }

  lemma StepKeepsRest<K(!new)>(s: State<K>, moves: seq<Move<K>>)
    ensures Run(s, moves).maxSize == s.maxSize && |Run(s, moves).threads| == |s.threads|
    decreases moves
  {
    if moves != [] {
      StepKeepsRest(Step(s, moves[0]), moves[1..]);
    }
  }

  lemma {:induction false} CallsRefine<K(!new)>(maxSize: nat, threadCount: nat, t: nat, calls: seq<Call<K>>)
    requires t < threadCount
    ensures var s := AloneAll(Init(maxSize, threadCount), t, calls);
      && Holds(s, LruSpec.Run(LruSpec.Empty(), OpsOf(calls), LruSpec.Room(maxSize)))
      && s.maxSize == maxSize && |s.threads| == threadCount
    decreases |calls|
  {
    if calls == [] {
      InvariantFromInit<K>(maxSize, threadCount, []);
    } else {
      var init, ops := calls[..|calls| - 1], OpsOf(calls);
      var before := AloneAll(Init(maxSize, threadCount), t, init);
      CallsRefine(maxSize, threadCount, t, init);
      CallRefines(before, t, Last(calls), LruSpec.Run(LruSpec.Empty(), OpsOf(init), LruSpec.Room(maxSize)));
      StepKeepsRest(before, Alone(before, t, Last(calls)));
      assert ops[..|ops| - 1] == OpsOf(init) && Last(ops) == OpOf(Last(calls));
    }
  }

  /** With no other thread at work the list is, after any calls, the recency list of the specification, and the map has
      exactly its keys. */
  lemma AloneIsSequential<K(!new)>(maxSize: nat, threadCount: nat, t: nat, calls: seq<Call<K>>)
    requires t < threadCount
    ensures var s := AloneAll(Init(maxSize, threadCount), t, calls);
      var c := LruSpec.Run(LruSpec.Empty(), OpsOf(calls), LruSpec.Room(maxSize));
      KeysOf(s.list) == c.keys && s.map_.Keys == c.count.Keys
  {
    var s := AloneAll(Init<K>(maxSize, threadCount), t, calls);
    var c := LruSpec.Run(LruSpec.Empty(), OpsOf(calls), LruSpec.Room(maxSize));
    CallsRefine(maxSize, threadCount, t, calls);
    forall key ensures key in s.map_.Keys <==> key in c.count.Keys {
      MappedIsListed(s, c, key);
    }
  }
}
