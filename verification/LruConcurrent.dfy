/** A step model of the thread-safe LRU cache: any number of threads run insert(), increase()
    and find() at once. A step is one mutex section, one atomic access to m_size, or one
    operation of the concurrent hash map. The blocking done by map accessors is ignored here, so
    the model allows every interleaving of the code and more; LruConcurrentBlocking adds it. */
module LruConcurrent {
  import opened Seqs

  /** A list node. The code compares nodes by address, here by `id`. */
  datatype Node<K> = Node(key: K, id: nat)

  /** Where a thread stands inside a call. */
  datatype Pc<K> =
    | Idle
    | Missed(key: K)                                     // increase() found nothing and will insert
    | Touch(node: Node<K>)                               // has the entry, about to lock the list
    | Inserted(node: Node<K>)                            // in the map, m_size not loaded yet
    | FirstEvict(node: Node<K>, size: nat)               // inside evict(), list lock not taken
    | FirstErase(node: Node<K>, size: nat, victim: Node<K>)
    | Push(node: Node<K>, evicted: bool, size: nat)      // about to push its own node
    | Count(node: Node<K>)                               // pushed, about to increment m_size
    | Check(node: Node<K>, size: nat)                    // about to compare and exchange m_size
    | SecondEvict(node: Node<K>)
    | SecondErase(node: Node<K>, victim: Node<K>)

  /** `failed` is a history variable: the evict() calls that took nothing: an empty list, or the caller's own node
      last. */
  datatype State<K> = State(
    maxSize: nat,
    map_: map<K, Node<K>>,
    list: seq<Node<K>>,  // most recently used first
    size: nat,
    nextId: nat,
    threads: seq<Pc<K>>,
    failed: nat)

  datatype Call<K> = Insert(key: K) | Increase(key: K) | Find(key: K)

  /** One scheduling decision: thread `t` starts `call` when it is idle, else takes its next step. */
  datatype Move<K> = Move(t: nat, call: Call<K>)

  function Init<K(==)>(maxSize: nat, threadCount: nat): State<K> {
    State(maxSize, map[], [], 0, 0, seq(threadCount, _ => Idle), 0)
  }

  function Set<K(==)>(s: State<K>, t: nat, pc: Pc<K>): State<K>
    requires t < |s.threads|
  {
    s.(threads := s.threads[t := pc])
  }

  /** The map's own insert: it adds a fresh node only when the key is absent. */
  function MapInsert<K(==)>(s: State<K>, t: nat, key: K, present: Pc<K>): State<K>
    requires t < |s.threads|
  {
    if key in s.map_ then Set(s, t, present)
    else
      var node := Node(key, s.nextId);
      Set(s.(map_ := s.map_[key := node], nextId := s.nextId + 1), t, Inserted(node))
  }

  function Start<K(==)>(s: State<K>, t: nat, call: Call<K>): (s': State<K>)
    requires t < |s.threads|
    ensures |s'.threads| == |s.threads| && s'.maxSize == s.maxSize
    ensures s'.threads == s.threads[t := s'.threads[t]]
  {
    match call
    case Insert(key) => MapInsert(s, t, key, Idle)
    case Increase(key) => Set(s, t, if key in s.map_ then Touch(s.map_[key]) else Missed(key))
    case Find(key) => Set(s, t, if key in s.map_ then Touch(s.map_[key]) else Idle)
  }

  /** evict() refuses an empty list and its caller's own key. */
  predicate CanEvict<K(==)>(s: State<K>, key: K) {
    s.list != [] && s.list[|s.list| - 1].key != key
  }

  /** Erases the entry of a delinked node, or returns early when the map has none. */
  function Erase<K(==)>(s: State<K>, victim: Node<K>): State<K> {
    if victim.key in s.map_ then s.(map_ := s.map_ - {victim.key}) else s
  }

  /** The next step of a thread that is inside a call. */
  function Advance<K(==)>(s: State<K>, t: nat): (s': State<K>)
    requires t < |s.threads|
    ensures |s'.threads| == |s.threads| && s'.maxSize == s.maxSize
    ensures s'.threads == s.threads[t := s'.threads[t]]
  {
    match s.threads[t]
    case Idle => s
    case Missed(key) =>
      MapInsert(s, t, key, if key in s.map_ then Touch(s.map_[key]) else Idle)
    case Touch(node) =>
      if node in s.list then Set(s.(list := [node] + Remove(s.list, node)), t, Idle)
      else Set(s, t, Idle)
    case Inserted(node) =>
      if s.size >= s.maxSize then Set(s, t, FirstEvict(node, s.size))
      else Set(s, t, Push(node, false, s.size))
    case FirstEvict(node, size) =>
      if CanEvict(s, node.key) then
        Set(s.(list := s.list[..|s.list| - 1]), t, FirstErase(node, size, Last(s.list)))
      else Set(s.(failed := s.failed + 1), t, Push(node, true, size))
    case FirstErase(node, size, victim) =>
      Set(Erase(s, victim), t, Push(node, true, size))
    case Push(node, evicted, size) =>
      var pushed := s.(list := [node] + s.list);
      Set(pushed, t, if evicted then Check(node, size) else Count(node))
    case Count(node) =>
      Set(s.(size := s.size + 1), t, Check(node, s.size))
    case Check(node, size) =>
      if size > s.maxSize && s.size == size then
        Set(s.(size := size - 1), t, SecondEvict(node))
      else Set(s, t, Idle)
    case SecondEvict(node) =>
      if CanEvict(s, node.key) then
        Set(s.(list := s.list[..|s.list| - 1]), t, SecondErase(node, Last(s.list)))
      else Set(s.(failed := s.failed + 1), t, Idle)
    case SecondErase(_, victim) =>
      Set(Erase(s, victim), t, Idle)
  }

  function Step<K(==)>(s: State<K>, m: Move<K>): (s': State<K>)
    ensures |s'.threads| == |s.threads| && s'.maxSize == s.maxSize
  {
    if m.t >= |s.threads| then s
    else if s.threads[m.t].Idle? then Start(s, m.t, m.call)
    else Advance(s, m.t)
  }

  function Run<K(==)>(s: State<K>, moves: seq<Move<K>>): State<K>
    decreases moves
  {
    if moves == [] then s else Run(Step(s, moves[0]), moves[1..])
  }

  // ---------------------------------------------------------------- where a node is

  /** The node this thread put in the map but not yet in the list. */
  ghost function Unpushed<K>(pc: Pc<K>): set<Node<K>> {
    match pc
    case Inserted(node) => {node}
    case FirstEvict(node, _) => {node}
    case FirstErase(node, _, _) => {node}
    case Push(node, _, _) => {node}
    case _ => {}
  }

  /** The node this thread took out of the list but not yet out of the map. */
  ghost function Unerased<K>(pc: Pc<K>): set<Node<K>> {
    match pc
    case FirstErase(_, _, victim) => {victim}
    case SecondErase(_, victim) => {victim}
    case _ => {}
  }

  ghost function Held<K>(pc: Pc<K>): set<Node<K>> {
    Unpushed(pc) + Unerased(pc)
  }

  ghost predicate InMap<K>(m: map<K, Node<K>>, node: Node<K>) {
    node.key in m && m[node.key] == node
  }

  ghost predicate HeldBySome<K>(threads: seq<Pc<K>>, node: Node<K>) {
    exists t :: 0 <= t < |threads| && node in Held(threads[t])
  }

  /** Every mapped node is in exactly one place: the list, or the hands of one thread. */
  ghost predicate Placed<K(!new)>(s: State<K>) {
    && (forall k :: k in s.map_ ==> s.map_[k].key == k && s.map_[k].id < s.nextId)
    && Distinct(s.list)
    && (forall n :: n in Elements(s.list) ==> InMap(s.map_, n))
    && (forall t, n :: 0 <= t < |s.threads| && n in Held(s.threads[t]) ==> InMap(s.map_, n) && n !in Elements(s.list))
    && (forall t :: 0 <= t < |s.threads| ==> Unpushed(s.threads[t]) !! Unerased(s.threads[t]))
    && (forall t, u :: 0 <= t < u < |s.threads| ==> Held(s.threads[t]) !! Held(s.threads[u]))
    && (forall k :: k in s.map_ ==> s.map_[k] in Elements(s.list) || HeldBySome(s.threads, s.map_[k]))
  }

  /** Whoever holds a node keeps holding it when another thread, or its own next pc, changes nothing about it. */
  lemma HeldStays<K(!new)>(threads: seq<Pc<K>>, t: nat, pc: Pc<K>, node: Node<K>)
    requires t < |threads| && HeldBySome(threads, node)
    requires node in Held(threads[t]) ==> node in Held(pc)
    ensures HeldBySome(threads[t := pc], node)
  {
    var u :| 0 <= u < |threads| && node in Held(threads[u]);
    assert node in Held(threads[t := pc][u]);
  }

  lemma PlacedStay<K(!new)>(s: State<K>, t: nat, pc: Pc<K>)
    requires Placed(s) && t < |s.threads|
    requires Unpushed(pc) == Unpushed(s.threads[t]) && Unerased(pc) == Unerased(s.threads[t])
    ensures Placed(Set(s, t, pc))
  {
    assert Held(pc) == Held(s.threads[t]);
    forall k | k in s.map_ && s.map_[k] !in Elements(s.list) ensures HeldBySome(s.threads[t := pc], s.map_[k]) {
      HeldStays(s.threads, t, pc, s.map_[k]);
    }
  }

  lemma PlacedInsert<K(!new)>(s: State<K>, t: nat, key: K)
    requires Placed(s) && t < |s.threads| && Held(s.threads[t]) == {} && key !in s.map_
    ensures Placed(MapInsert(s, t, key, Idle))
  {
    var node := Node(key, s.nextId);
    var s' := MapInsert(s, t, key, Idle);
    assert !InMap(s.map_, node);
    assert Held(s'.threads[t]) == {node} && node in Held(s'.threads[t]);
    forall n | InMap(s.map_, n) ensures InMap(s'.map_, n) && n != node {
    }
    forall u, v | 0 <= u < v < |s'.threads| ensures Held(s'.threads[u]) !! Held(s'.threads[v]) {
      assert node !in Held(s.threads[u]) && node !in Held(s.threads[v]);
    }
    forall k | k in s'.map_ && s'.map_[k] !in Elements(s'.list) ensures HeldBySome(s'.threads, s'.map_[k]) {
      if k != key {
        HeldStays(s.threads, t, Inserted(node), s.map_[k]);
      }
    }
  }

  lemma PlacedDelink<K(!new)>(s: State<K>, t: nat, pc: Pc<K>, init: seq<Node<K>>, victim: Node<K>)
    requires Placed(s) && t < |s.threads| && s.list != [] && init == s.list[..|s.list| - 1] && victim == Last(s.list)
    requires Unpushed(pc) == Unpushed(s.threads[t]) && Unerased(s.threads[t]) == {} && Unerased(pc) == {victim}
    ensures Placed(Set(s.(list := init), t, pc))
  {
    var s' := Set(s.(list := init), t, pc);
    DistinctDropLast(s.list, init);
    assert victim in Elements(s.list);
    assert forall u :: 0 <= u < |s.threads| ==> victim !in Held(s.threads[u]);
    assert Held(pc) == Held(s.threads[t]) + {victim};
    forall u, v | 0 <= u < v < |s'.threads| ensures Held(s'.threads[u]) !! Held(s'.threads[v]) {
      assert Held(s.threads[u]) !! Held(s.threads[v]);
    }
    forall k | k in s'.map_ && s'.map_[k] !in Elements(init) ensures HeldBySome(s'.threads, s'.map_[k]) {
      if s.map_[k] == victim {
        assert victim in Held(s'.threads[t]);
      } else {
        HeldStays(s.threads, t, pc, s.map_[k]);
      }
    }
  }

  /** The erase after a delink always finds its entry: the early return is never taken. */
  lemma PlacedErase<K(!new)>(s: State<K>, t: nat, victim: Node<K>, pc: Pc<K>)
    requires Placed(s) && t < |s.threads| && Unerased(s.threads[t]) == {victim}
    requires Unpushed(pc) == Unpushed(s.threads[t]) && Unerased(pc) == {}
    ensures InMap(s.map_, victim) && Placed(Set(Erase(s, victim), t, pc))
  {
    assert victim in Held(s.threads[t]);
    assert InMap(s.map_, victim) && victim !in Elements(s.list);
    var s' := Set(Erase(s, victim), t, pc);
    assert Held(s.threads[t]) == Held(pc) + {victim} && victim !in Held(pc);
    forall n | InMap(s.map_, n) && n != victim ensures InMap(s'.map_, n) {
    }
    forall u, n | 0 <= u < |s'.threads| && n in Held(s'.threads[u])
      ensures InMap(s'.map_, n) && n !in Elements(s.list)
    {
      assert n in Held(s.threads[u]) && n != victim;
    }
    forall k | k in s'.map_ && s'.map_[k] !in Elements(s.list) ensures HeldBySome(s'.threads, s'.map_[k]) {
      assert s.map_[k] != victim;
      HeldStays(s.threads, t, pc, s.map_[k]);
    }
  }

  lemma PlacedPush<K(!new)>(s: State<K>, t: nat, node: Node<K>, pc: Pc<K>)
    requires Placed(s) && t < |s.threads| && Unpushed(s.threads[t]) == {node} && Unerased(s.threads[t]) == {}
    requires Held(pc) == {}
    ensures Placed(Set(s.(list := [node] + s.list), t, pc))
  {
    var s' := Set(s.(list := [node] + s.list), t, pc);
    assert node in Held(s.threads[t]);
    DistinctCons(node, s.list);
    forall u, n | 0 <= u < |s'.threads| && n in Held(s'.threads[u])
      ensures InMap(s'.map_, n) && n !in Elements(s'.list)
    {
      assert u != t && n in Held(s.threads[u]);
      assert Held(s.threads[u]) !! Held(s.threads[t]);
    }
    forall k | k in s'.map_ && s'.map_[k] !in Elements(s'.list) ensures HeldBySome(s'.threads, s'.map_[k]) {
      HeldStays(s.threads, t, pc, s.map_[k]);
    }
  }

  lemma PlacedReorder<K(!new)>(s: State<K>, list: seq<Node<K>>)
    requires Placed(s) && Distinct(list) && Elements(list) == Elements(s.list)
    ensures Placed(s.(list := list))
  {
  }

  /** In its first evict() a thread cannot meet its own key: only an empty list stops it. */
  lemma FirstEvictBlockedOnlyByEmptyList<K(!new)>(s: State<K>, t: nat)
    requires Placed(s) && t < |s.threads| && s.threads[t].FirstEvict?
    ensures CanEvict(s, s.threads[t].node.key) <==> s.list != []
  {
    var node := s.threads[t].node;
    assert node in Held(s.threads[t]);
    assert InMap(s.map_, node) && node !in Elements(s.list);
    if s.list != [] {
      assert Last(s.list) in Elements(s.list);
      assert InMap(s.map_, Last(s.list));
    }
  }

  lemma PlacedStart<K(!new)>(s: State<K>, t: nat, call: Call<K>)
    requires Placed(s) && t < |s.threads| && s.threads[t].Idle?
    ensures Placed(Start(s, t, call))
  {
    match call {
      case Insert(key) => if key in s.map_ { PlacedStay(s, t, Idle); } else { PlacedInsert(s, t, key); }
      case Increase(key) => PlacedStay(s, t, if key in s.map_ then Touch(s.map_[key]) else Missed(key));
      case Find(key) => PlacedStay(s, t, if key in s.map_ then Touch(s.map_[key]) else Idle);
    }
  }

  lemma PlacedTouch<K(!new)>(s: State<K>, t: nat)
    requires Placed(s) && t < |s.threads| && s.threads[t].Touch?
    ensures Placed(Advance(s, t))
  {
    var node := s.threads[t].node;
    if node in s.list {
      var list := [node] + Remove(s.list, node);
      DistinctTouch(s.list, node);
      PlacedReorder(s, list);
      PlacedStay(s.(list := list), t, Idle);
    } else {
      PlacedStay(s, t, Idle);
    }
  }

  lemma PlacedFirstEvict<K(!new)>(s: State<K>, t: nat)
    requires Placed(s) && t < |s.threads| && s.threads[t].FirstEvict?
    ensures Placed(Advance(s, t))
  {
    var node, size := s.threads[t].node, s.threads[t].size;
    if CanEvict(s, node.key) {
      var victim := Last(s.list);
      PlacedDelink(s, t, FirstErase(node, size, victim), s.list[..|s.list| - 1], victim);
    } else {
      PlacedStay(s.(failed := s.failed + 1), t, Push(node, true, size));
    }
  }

  lemma PlacedSecondEvict<K(!new)>(s: State<K>, t: nat)
    requires Placed(s) && t < |s.threads| && s.threads[t].SecondEvict?
    ensures Placed(Advance(s, t))
  {
    if CanEvict(s, s.threads[t].node.key) {
      var victim := Last(s.list);
      PlacedDelink(s, t, SecondErase(s.threads[t].node, victim), s.list[..|s.list| - 1], victim);
    } else {
      PlacedStay(s.(failed := s.failed + 1), t, Idle);
    }
  }

  lemma PlacedSize<K(!new)>(s: State<K>, t: nat)
    requires Placed(s) && t < |s.threads|
    requires s.threads[t].Inserted? || s.threads[t].Count? || s.threads[t].Check?
    ensures Placed(Advance(s, t))
  {
    var s' := Advance(s, t);
    assert s' == Set(s.(size := s'.size), t, s'.threads[t]);
    assert Placed(s.(size := s'.size));
    PlacedStay(s.(size := s'.size), t, s'.threads[t]);
  }

  lemma PlacedAdvance<K(!new)>(s: State<K>, t: nat)
    requires Placed(s) && t < |s.threads|
    ensures Placed(Advance(s, t))
  {
    match s.threads[t]
    case Idle =>
    case Missed(key) =>
      if key in s.map_ { PlacedStay(s, t, Touch(s.map_[key])); } else { PlacedInsert(s, t, key); }
    case Touch(_) => PlacedTouch(s, t);
    case FirstEvict(_, _) => PlacedFirstEvict(s, t);
    case SecondEvict(_) => PlacedSecondEvict(s, t);
    case FirstErase(node, size, victim) => PlacedErase(s, t, victim, Push(node, true, size));
    case SecondErase(_, victim) => PlacedErase(s, t, victim, Idle);
    case Push(node, evicted, size) => PlacedPush(s, t, node, if evicted then Check(node, size) else Count(node));
    case _ => PlacedSize(s, t);
  }
}
