/** What one caller alone does to a cache at rest. */
module LruConcurrentSolo {
  import opened Seqs
  import opened LruConcurrent
  import opened LruConcurrentLimits

  function Repeat<T>(x: T, n: nat): (r: seq<T>)
    ensures |r| == n
  {
    if n == 0 then [] else [x] + Repeat(x, n - 1)
  }

  lemma RunOnce<K(!new)>(s: State<K>, m: Move<K>, n: nat)
    requires n > 0
    ensures Run(s, Repeat(m, n)) == Run(Step(s, m), Repeat(m, n - 1))
  {
    assert Repeat(m, n)[0] == m && Repeat(m, n)[1..] == Repeat(m, n - 1);
  }

  lemma {:induction false} RunAppend<K(!new)>(s: State<K>, a: seq<Move<K>>, b: seq<Move<K>>)
    ensures Run(s, a + b) == Run(Run(s, a), b)
    decreases a
  {
    if a == [] {
      assert a + b == b;
    } else {
      assert (a + b)[0] == a[0] && (a + b)[1..] == a[1..] + b;
      RunAppend(Step(s, a[0]), a[1..], b);
    }
  }

  /** One whole insert() by thread t with nobody else running: at most eight steps. */
  function Solo<K>(t: nat, key: K): seq<Move<K>> {
    Repeat(Move(t, Insert(key)), 8)
  }

  /** The state s with one thread somewhere inside an insert(). */
  function At<K(==)>(s: State<K>, t: nat, map_: map<K, Node<K>>, list: seq<Node<K>>, size: nat, pc: Pc<K>): State<K>
    requires t < |s.threads|
  {
    s.(map_ := map_, list := list, size := size, nextId := s.nextId + 1, threads := s.threads[t := pc])
  }

  lemma IdleRepeats<K(!new)>(s: State<K>, t: nat, key: K, n: nat)
    requires t < |s.threads| && s.threads[t].Idle? && key in s.map_
    ensures Run(s, Repeat(Move(t, Insert(key)), n)) == s
  {
    if n > 0 {
      RunOnce(s, Move(t, Insert(key)), n);
      assert Step(s, Move(t, Insert(key))) == s;
      IdleRepeats(s, t, key, n - 1);
    }
  }

  lemma AtSet<K(!new)>(s: State<K>, t: nat, m: map<K, Node<K>>, list: seq<Node<K>>, size: nat, pc: Pc<K>, pc': Pc<K>)
    requires t < |s.threads|
    ensures Set(At(s, t, m, list, size, pc), t, pc') == At(s, t, m, list, size, pc')
  {
    assert s.threads[t := pc][t := pc'] == s.threads[t := pc'];
  }

  lemma AtLoad<K(!new)>(s: State<K>, t: nat, m: map<K, Node<K>>, list: seq<Node<K>>, node: Node<K>)
    requires t < |s.threads|
    ensures Step(At(s, t, m, list, s.size, Inserted(node)), Move(t, Insert(node.key)))
         == At(s, t, m, list, s.size,
               if s.size >= s.maxSize then FirstEvict(node, s.size) else Push(node, false, s.size))
  {
    AtSet(s, t, m, list, s.size, Inserted(node), FirstEvict(node, s.size));
    AtSet(s, t, m, list, s.size, Inserted(node), Push(node, false, s.size));
  }

  lemma AtPush<K(!new)>(s: State<K>, t: nat, m: map<K, Node<K>>, list: seq<Node<K>>, node: Node<K>, evicted: bool)
    requires t < |s.threads|
    ensures Step(At(s, t, m, list, s.size, Push(node, evicted, s.size)), Move(t, Insert(node.key)))
         == At(s, t, m, [node] + list, s.size, if evicted then Check(node, s.size) else Count(node))
  {
    AtSet(s, t, m, [node] + list, s.size, Push(node, evicted, s.size), Check(node, s.size));
    AtSet(s, t, m, [node] + list, s.size, Push(node, evicted, s.size), Count(node));
  }

  lemma AtCount<K(!new)>(s: State<K>, t: nat, m: map<K, Node<K>>, list: seq<Node<K>>, node: Node<K>)
    requires t < |s.threads|
    ensures Step(At(s, t, m, list, s.size, Count(node)), Move(t, Insert(node.key)))
         == At(s, t, m, list, s.size + 1, Check(node, s.size))
  {
    AtSet(s, t, m, list, s.size + 1, Count(node), Check(node, s.size));
  }

  lemma AtCheck<K(!new)>(s: State<K>, t: nat, m: map<K, Node<K>>, list: seq<Node<K>>, size: nat, node: Node<K>)
    requires t < |s.threads|
    ensures Step(At(s, t, m, list, size, Check(node, s.size)), Move(t, Insert(node.key)))
         == if s.size > s.maxSize && size == s.size then At(s, t, m, list, size - 1, SecondEvict(node))
            else At(s, t, m, list, size, Idle)
  {
    if s.size > s.maxSize && size == s.size {
      AtSet(s, t, m, list, size - 1, Check(node, s.size), SecondEvict(node));
    }
    AtSet(s, t, m, list, size, Check(node, s.size), Idle);
  }

  /** An eviction whose victim is still mapped: delink, then erase. */
  lemma AtFirstEvict<K(!new)>(s: State<K>, t: nat, m: map<K, Node<K>>, init: seq<Node<K>>, victim: Node<K>,
                       node: Node<K>)
    requires t < |s.threads| && victim.key != node.key && victim.key in m
    ensures var erasing := At(s, t, m, init, s.size, FirstErase(node, s.size, victim));
      && Step(At(s, t, m, init + [victim], s.size, FirstEvict(node, s.size)), Move(t, Insert(node.key))) == erasing
      && Step(erasing, Move(t, Insert(node.key))) == At(s, t, m - {victim.key}, init, s.size, Push(node, true, s.size))
  {
    assert (init + [victim])[..|init|] == init;
    AtSet(s, t, m, init, s.size, FirstEvict(node, s.size), FirstErase(node, s.size, victim));
    AtSet(s, t, m - {victim.key}, init, s.size, FirstErase(node, s.size, victim), Push(node, true, s.size));
  }

  lemma AtSecondEvict<K(!new)>(s: State<K>, t: nat, m: map<K, Node<K>>, init: seq<Node<K>>, size: nat, victim: Node<K>,
                               node: Node<K>)
    requires t < |s.threads| && victim.key != node.key && victim.key in m
    ensures var erasing := At(s, t, m, init, size, SecondErase(node, victim));
      && Step(At(s, t, m, init + [victim], size, SecondEvict(node)), Move(t, Insert(node.key))) == erasing
      && Step(erasing, Move(t, Insert(node.key))) == At(s, t, m - {victim.key}, init, size, Idle)
  {
    assert (init + [victim])[..|init|] == init;
    AtSet(s, t, m, init, size, SecondEvict(node), SecondErase(node, victim));
    AtSet(s, t, m - {victim.key}, init, size, SecondErase(node, victim), Idle);
  }

  /** The map insert and the load of m_size. */
  lemma SoloStart<K(!new)>(s: State<K>, t: nat, key: K)
    requires Quiescent(s) && t < |s.threads| && key !in s.map_
    ensures var node := Node(key, s.nextId);
      Run(s, Solo(t, key))
      == Run(At(s, t, s.map_[key := node], s.list, s.size,
                if s.size >= s.maxSize then FirstEvict(node, s.size) else Push(node, false, s.size)),
             Repeat(Move(t, Insert(key)), 6))
  {
    var m, node := Move(t, Insert(key)), Node(key, s.nextId);
    var map1 := s.map_[key := node];
    RunOnce(s, m, 8);
    RunOnce(At(s, t, map1, s.list, s.size, Inserted(node)), m, 7);
    AtLoad(s, t, map1, s.list, node);
  }

  lemma SoloBelow<K(!new)>(s: State<K>, t: nat, key: K)
    requires Quiescent(s) && t < |s.threads| && key !in s.map_ && s.size < s.maxSize
    ensures var node := Node(key, s.nextId);
      Run(s, Solo(t, key)) == At(s, t, s.map_[key := node], [node] + s.list, s.size + 1, Idle)
  {
    var m, node := Move(t, Insert(key)), Node(key, s.nextId);
    var map1, list1 := s.map_[key := node], [node] + s.list;
    SoloStart(s, t, key);
    RunOnce(At(s, t, map1, s.list, s.size, Push(node, false, s.size)), m, 6);
    AtPush(s, t, map1, s.list, node, false);
    RunOnce(At(s, t, map1, list1, s.size, Count(node)), m, 5);
    AtCount(s, t, map1, list1, node);
    RunOnce(At(s, t, map1, list1, s.size + 1, Check(node, s.size)), m, 4);
    AtCheck(s, t, map1, list1, s.size + 1, node);
    IdleRepeats(At(s, t, map1, list1, s.size + 1, Idle), t, key, 3);
  }

  /** At capacity: the last entry leaves, the new one enters, and m_size is compared once more. */
  lemma SoloUpToCheck<K(!new)>(s: State<K>, t: nat, key: K, init: seq<Node<K>>, victim: Node<K>)
    requires Quiescent(s) && t < |s.threads| && key !in s.map_ && s.size >= s.maxSize
    requires s.list == init + [victim] && InMap(s.map_, victim)
    ensures var node := Node(key, s.nextId);
      Run(s, Solo(t, key))
      == Run(At(s, t, s.map_[key := node] - {victim.key}, [node] + init, s.size, Check(node, s.size)),
             Repeat(Move(t, Insert(key)), 3))
  {
    var m, node := Move(t, Insert(key)), Node(key, s.nextId);
    var map1 := s.map_[key := node];
    SoloStart(s, t, key);
    RunOnce(At(s, t, map1, s.list, s.size, FirstEvict(node, s.size)), m, 6);
    AtFirstEvict(s, t, map1, init, victim, node);
    RunOnce(At(s, t, map1, init, s.size, FirstErase(node, s.size, victim)), m, 5);
    RunOnce(At(s, t, map1 - {victim.key}, init, s.size, Push(node, true, s.size)), m, 4);
    AtPush(s, t, map1 - {victim.key}, init, node, true);
  }

  lemma SoloFull<K(!new)>(s: State<K>, t: nat, key: K, init: seq<Node<K>>, victim: Node<K>)
    requires Quiescent(s) && t < |s.threads| && key !in s.map_ && s.size == s.maxSize
    requires s.list == init + [victim] && InMap(s.map_, victim)
    ensures var node := Node(key, s.nextId);
      Run(s, Solo(t, key)) == At(s, t, s.map_[key := node] - {victim.key}, [node] + init, s.size, Idle)
  {
    var m, node := Move(t, Insert(key)), Node(key, s.nextId);
    var map2, list2 := s.map_[key := node] - {victim.key}, [node] + init;
    SoloUpToCheck(s, t, key, init, victim);
    RunOnce(At(s, t, map2, list2, s.size, Check(node, s.size)), m, 3);
    AtCheck(s, t, map2, list2, s.size, node);
    IdleRepeats(At(s, t, map2, list2, s.size, Idle), t, key, 2);
  }

  /** Above the maximum: m_size is lowered and a second entry leaves. */
  lemma SoloSecondEvict<K(!new)>(s: State<K>, t: nat, m: map<K, Node<K>>, list: seq<Node<K>>, init: seq<Node<K>>,
                                 second: Node<K>, node: Node<K>)
    requires t < |s.threads| && s.size > s.maxSize && list == init + [second]
    requires second.key != node.key && second.key in m
    ensures Run(At(s, t, m, list, s.size, Check(node, s.size)), Repeat(Move(t, Insert(node.key)), 3))
         == At(s, t, m - {second.key}, init, s.size - 1, Idle)
  {
    var move := Move(t, Insert(node.key));
    RunOnce(At(s, t, m, list, s.size, Check(node, s.size)), move, 3);
    AtCheck(s, t, m, list, s.size, node);
    RunOnce(At(s, t, m, list, s.size - 1, SecondEvict(node)), move, 2);
    AtSecondEvict(s, t, m, init, s.size - 1, second, node);
    RunOnce(At(s, t, m, init, s.size - 1, SecondErase(node, second)), move, 1);
  }

  lemma SoloOver<K(!new)>(s: State<K>, t: nat, key: K, init: seq<Node<K>>, second: Node<K>, victim: Node<K>)
    requires Quiescent(s) && t < |s.threads| && key !in s.map_ && s.size > s.maxSize
    requires s.list == init + [second] + [victim] && InMap(s.map_, victim) && InMap(s.map_, second)
    requires second.key != victim.key
    ensures var node := Node(key, s.nextId);
      Run(s, Solo(t, key))
      == At(s, t, s.map_[key := node] - {victim.key} - {second.key}, [node] + init, s.size - 1, Idle)
  {
    var node := Node(key, s.nextId);
    SoloUpToCheck(s, t, key, init + [second], victim);
    SoloSecondEvict(s, t, s.map_[key := node] - {victim.key}, [node] + (init + [second]), [node] + init, second, node);
  }

  lemma LastTwo<K(!new)>(s: State<K>) returns (init: seq<Node<K>>, second: Node<K>, victim: Node<K>)
    requires Placed(s) && |s.list| >= 2
    ensures s.list == init + [second] + [victim] && InMap(s.map_, second) && InMap(s.map_, victim)
    ensures second.key != victim.key
  {
    var n := |s.list|;
    init, second, victim := s.list[..n - 2], s.list[n - 2], s.list[n - 1];
    assert second in Elements(s.list) && victim in Elements(s.list);
  }

  lemma LastOne<K(!new)>(s: State<K>) returns (init: seq<Node<K>>, victim: Node<K>)
    requires Placed(s) && |s.list| >= 1
    ensures s.list == init + [victim] && InMap(s.map_, victim)
  {
    init, victim := s.list[..|s.list| - 1], Last(s.list);
    assert victim in Elements(s.list);
  }

  /** Above the maximum by m_size. A capacity of 0 never is: its m_size stays 0. */
  lemma SoloAbove<K(!new)>(s: State<K>, t: nat, key: K)
    requires Placed(s) && Accounted(s) && Quiescent(s) && t < |s.threads| && key !in s.map_ && s.size > s.maxSize
    requires |s.list| >= 2
    ensures var s' := Run(s, Solo(t, key));
      Quiescent(s') && |s'.list| == |s.list| - 1 && s'.size == s.size - 1
  {
    var init, second, victim := LastTwo(s);
    SoloOver(s, t, key, init, second, victim);
  }

  lemma AtFailedEvict<K(!new)>(s: State<K>, t: nat, m: map<K, Node<K>>, node: Node<K>)
    requires t < |s.threads|
    ensures Step(At(s, t, m, [], s.size, FirstEvict(node, s.size)), Move(t, Insert(node.key)))
         == At(s.(failed := s.failed + 1), t, m, [], s.size, Push(node, true, s.size))
  {
    AtSet(s.(failed := s.failed + 1), t, m, [], s.size, FirstEvict(node, s.size), Push(node, true, s.size));
  }

  /** With a capacity of 0 the first eviction finds nothing, and the entry goes in all the same. */
  lemma SoloEmpty<K(!new)>(s: State<K>, t: nat, key: K)
    requires Quiescent(s) && t < |s.threads| && key !in s.map_ && s.size == s.maxSize && s.list == []
    ensures var node := Node(key, s.nextId);
      Run(s, Solo(t, key)) == At(s.(failed := s.failed + 1), t, s.map_[key := node], [node], s.size, Idle)
  {
    var m, node := Move(t, Insert(key)), Node(key, s.nextId);
    var map1, s1 := s.map_[key := node], s.(failed := s.failed + 1);
    SoloStart(s, t, key);
    RunOnce(At(s, t, map1, [], s.size, FirstEvict(node, s.size)), m, 6);
    AtFailedEvict(s, t, map1, node);
    RunOnce(At(s1, t, map1, [], s.size, Push(node, true, s.size)), m, 5);
    AtPush(s1, t, map1, [], node, true);
    assert [node] + [] == [node];
    RunOnce(At(s1, t, map1, [node], s.size, Check(node, s.size)), m, 4);
    AtCheck(s1, t, map1, [node], s.size, node);
    IdleRepeats(At(s1, t, map1, [node], s.size, Idle), t, key, 3);
  }

  /** What a lone insert of a new key does to a quiescent cache: an m_size above the maximum comes
      down by one each time, while an entry that m_size misses stays in the list for good. An empty
      cache of capacity 0 takes an entry that m_size misses. */
  lemma SoloInsert<K(!new)>(s: State<K>, t: nat, key: K)
    requires Placed(s) && Accounted(s) && Quiescent(s) && t < |s.threads| && key !in s.map_
    requires s.maxSize == 0 ==> s.size == 0
    ensures var s' := Run(s, Solo(t, key));
      && Quiescent(s')
      && |s'.list| - s'.size == |s.list| - s.size + (if s.maxSize == 0 && s.list == [] then 1 else 0)
      && s'.size == (if s.size < s.maxSize then s.size + 1 else if s.size == s.maxSize then s.size else s.size - 1)
  {
    Sums.SumZero(s.threads, Balance);
    if s.size < s.maxSize {
      SoloBelow(s, t, key);
    } else if s.list == [] {
      SoloEmpty(s, t, key);
    } else if s.size == s.maxSize {
      var init, victim := LastOne(s);
      SoloFull(s, t, key, init, victim);
    } else {
      SoloAbove(s, t, key);
    }
  }

  // ---------------------------------------------------------------- many lone inserts

  ghost predicate KeysBelow(s: State<int>, bound: nat) {
    forall k :: k in s.map_ ==> k < bound
  }

  /** Lone inserts of the given keys one after the other, skipping those the cache already holds. */
  function SoloAll(t: nat, s: State<int>, keys: seq<int>): seq<Move<int>>
    decreases |keys|
  {
    if keys == [] then []
    else if keys[0] in s.map_ then SoloAll(t, s, keys[1..])
    else Solo(t, keys[0]) + SoloAll(t, Run(s, Solo(t, keys[0])), keys[1..])
  }

  lemma {:induction false} OverfillStays(s: State<int>, t: nat, keys: seq<int>)
    requires Placed(s) && Accounted(s) && Quiescent(s) && t < |s.threads| && s.size == s.maxSize
    ensures var s' := Run(s, SoloAll(t, s, keys));
      && Quiescent(s') && s'.size == s.size
      && (|s'.list| == |s.list| || (s.maxSize == 0 && s.list == [] && |s'.list| == 1))
    decreases |keys|
  {
    if keys != [] {
      if keys[0] in s.map_ {
        OverfillStays(s, t, keys[1..]);
      } else {
        var s1 := Run(s, Solo(t, keys[0]));
        SoloInsert(s, t, keys[0]);
        InvariantOverRuns(s, Solo(t, keys[0]));
        OverfillStays(s1, t, keys[1..]);
        RunAppend(s, Solo(t, keys[0]), SoloAll(t, s1, keys[1..]));
      }
    }
  }
}
