/** How far the cache is overfilled at rest, when, and for how long. */
module LruConcurrentOverfill {
  import opened Sums
  import opened LruConcurrent
  import opened LruConcurrentLimits
  import opened LruConcurrentSolo
  import opened LruConcurrentBlocking

  /** The bound on m_size is attained, and all calls return while it is passed: nothing brings it down before the next
      insert. */
  lemma SizeBoundIsAttained(maxSize: nat, threadCount: nat) returns (s: State<int>)
    requires maxSize >= 1 && threadCount >= 1
    ensures Reaches(Init<int>(maxSize, threadCount), s) && Quiescent(s) && s.size == maxSize + threadCount - 1
  {
    s := Overfills(maxSize, threadCount, threadCount);
  }

  // ---------------------------------------------------------------- entries that m_size misses

  lemma GivesUp(s: State<int>, maxSize: nat, threadCount: nat, top: nat, front: seq<Node<int>>, stand: seq<Node<int>>,
                bound: nat)
      returns (n: State<int>)
    requires Standing(s, maxSize, threadCount, top, front, stand, [], bound) && stand != [] && s.size == maxSize
    ensures Standing(n, maxSize, threadCount, top, front, stand[..|stand| - 1], [stand[|stand| - 1]], bound)
    ensures n.size == s.size && |n.list| == |s.list| && n.failed == s.failed + 1
  {
    var t, last := top - |stand|, stand[|stand| - 1];
    assert s.threads[top - 1 - (|stand| - 1)] == SecondEvict(last);
    assert s.list[|s.list| - 1] == last;
    n := s.(failed := s.failed + 1, threads := s.threads[t := Idle]);
    Next(Init<int>(maxSize, threadCount), s, Move(t, Insert(0)), n);
    assert n.list == front + stand[..|stand| - 1] + [last];
  }

  /** One after the other finds its own node last, gives up, and has it pushed out by the next insert. */
  lemma {:induction false} AllGiveUp(s: State<int>, maxSize: nat, threadCount: nat, top: nat, front: seq<Node<int>>,
                                     stand: seq<Node<int>>, bound: nat)
      returns (n: State<int>)
    requires Standing(s, maxSize, threadCount, top, front, stand, [], bound) && s.size == maxSize
    ensures Reaches(Init<int>(maxSize, threadCount), n) && Quiescent(n)
    ensures n.size == s.size && |n.list| == |s.list| && n.failed == s.failed + |stand|
    decreases |stand|
  {
    if stand == [] {
      n := s;
    } else {
      var rest := stand[..|stand| - 1];
      var a := GivesUp(s, maxSize, threadCount, top, front, stand, bound);
      var b, more := Rotates(a, maxSize, threadCount, top, front, rest, [stand[|stand| - 1]], bound);
      n := AllGiveUp(b, maxSize, threadCount, top, more, rest, bound + 1);
    }
  }

  /** At capacity 0 the first i threads are about to evict from an empty list. */
  ghost predicate Starving(s: State<int>, threadCount: nat, i: nat) {
    && Reaches(Init<int>(0, threadCount), s) && s.maxSize == 0 == s.size
    && |s.threads| == threadCount && i <= threadCount
    && s.list == [] && s.failed == 0 && KeysBelow(s, i)
    && (forall j :: 0 <= j < i ==> s.threads[j].FirstEvict? && s.threads[j].size == 0 && s.threads[j].node.key == j)
    && (forall j :: i <= j < threadCount ==> s.threads[j] == Idle)
  }

  lemma {:induction false} AllStarve(s: State<int>, threadCount: nat, i: nat) returns (n: State<int>)
    requires Starving(s, threadCount, i)
    ensures Starving(n, threadCount, threadCount)
    decreases threadCount - i
  {
    if i == threadCount {
      n := s;
    } else {
      assert !LockedByOther(s, i, i);
      Enters(Init<int>(0, threadCount), s, i, i);
      var node := Node(i, s.nextId);
      n := AllStarve(At(s, i, s.map_[i := node], [], 0, FirstEvict(node, 0)), threadCount, i + 1);
    }
  }

  /** The first i have found nothing to evict. */
  ghost predicate Landing(s: State<int>, threadCount: nat, i: nat) {
    && Reaches(Init<int>(0, threadCount), s) && s.maxSize == 0 == s.size
    && |s.threads| == threadCount && i <= threadCount
    && s.list == []
    && (forall j :: 0 <= j < i ==> s.threads[j].Push? && s.threads[j].evicted && s.threads[j].size == 0)
    && (forall j :: i <= j < threadCount ==> s.threads[j].FirstEvict? && s.threads[j].size == 0)
  }

  lemma {:induction false} AllLand(s: State<int>, threadCount: nat, i: nat) returns (n: State<int>)
    requires Landing(s, threadCount, i)
    ensures Landing(n, threadCount, threadCount)
    decreases threadCount - i
  {
    if i == threadCount {
      n := s;
    } else {
      var next := s.(failed := s.failed + 1, threads := s.threads[i := Push(s.threads[i].node, true, 0)]);
      Next(Init<int>(0, threadCount), s, Move(i, Insert(0)), next);
      n := AllLand(next, threadCount, i + 1);
    }
  }

  /** The first i have pushed their nodes and returned. */
  ghost predicate Landed(s: State<int>, threadCount: nat, i: nat) {
    && Reaches(Init<int>(0, threadCount), s) && s.maxSize == 0 == s.size
    && |s.threads| == threadCount && i <= threadCount
    && |s.list| == i
    && (forall j :: 0 <= j < i ==> s.threads[j] == Idle)
    && (forall j :: i <= j < threadCount ==> s.threads[j].Push? && s.threads[j].evicted && s.threads[j].size == 0)
  }

  lemma PushesUncounted(s0: State<int>, s: State<int>, t: nat, node: Node<int>)
    requires Reaches(s0, s) && t < |s.threads| && s.threads[t] == Push(node, true, 0)
    ensures Reaches(s0, s.(list := [node] + s.list, threads := s.threads[t := Idle]))
  {
    var a := s.(list := [node] + s.list, threads := s.threads[t := Check(node, 0)]);
    Next(s0, s, Move(t, Insert(0)), a);
    assert a.threads[t := Idle] == s.threads[t := Idle];
    Next(s0, a, Move(t, Insert(0)), a.(threads := s.threads[t := Idle]));
  }

  lemma {:induction false} AllReturn(s: State<int>, threadCount: nat, i: nat) returns (n: State<int>)
    requires Landed(s, threadCount, i)
    ensures Landed(n, threadCount, threadCount)
    decreases threadCount - i
  {
    if i == threadCount {
      n := s;
    } else {
      var node := s.threads[i].node;
      PushesUncounted(Init<int>(0, threadCount), s, i, node);
      n := AllReturn(s.(list := [node] + s.list, threads := s.threads[i := Idle]), threadCount, i + 1);
    }
  }

  /** The bound on the list is attained at rest with m_size at the maximum, at every capacity and for any number of
      threads: one entry for each extra thread is in no count. */
  lemma OverfillIsAttained(maxSize: nat, threadCount: nat) returns (s: State<int>)
    requires threadCount >= 1
    ensures Reaches(Init<int>(maxSize, threadCount), s) && Quiescent(s)
    ensures s.size == maxSize && |s.list| == Max(1, maxSize) + threadCount - 1
  {
    if maxSize == 0 {
      var start := Init<int>(0, threadCount);
      assert IsBlockingRun(start, []) && Run(start, []) == start;
      var a := AllStarve(start, threadCount, 0);
      var b := AllLand(a, threadCount, 0);
      s := AllReturn(b, threadCount, 0);
    } else {
      var a, front, stand, bound := AllStand(maxSize, threadCount, threadCount);
      s := AllGiveUp(a, maxSize, threadCount, threadCount - 1, front, stand, bound);
    }
  }

  // ---------------------------------------------------------------- when, and for how long

  /** More entries than the capacity allows, and than m_size counts. */
  ghost predicate Overfilled<K>(s: State<K>) {
    |s.list| > Max(1, s.maxSize) && |s.list| > s.size
  }

  ghost predicate CanOverfill(maxSize: nat, threadCount: nat) {
    exists s :: Reaches(Init<int>(maxSize, threadCount), s) && Quiescent(s) && Overfilled(s)
  }

  lemma OneNeverOverfills(maxSize: nat, s: State<int>)
    requires Reaches(Init<int>(maxSize, 1), s) && Quiescent(s)
    ensures !Overfilled(s)
  {
    var moves :| IsBlockingRun(Init<int>(maxSize, 1), moves) && Run(Init<int>(maxSize, 1), moves) == s;
    InvariantFromInit(maxSize, 1, moves);
    QuiescentSizes(maxSize, 1, moves);
  }

  /** Some schedule ends at rest with the cache overfilled if and only if there are at least two threads. */
  lemma OverfillIff(maxSize: nat, threadCount: nat)
    requires threadCount >= 1
    ensures CanOverfill(maxSize, threadCount) <==> threadCount >= 2
  {
    if threadCount >= 2 {
      var s := OverfillIsAttained(maxSize, threadCount);
      ReachedLimits(maxSize, threadCount, s);
      assert Overfilled(s);
    } else {
      forall s | Reaches(Init<int>(maxSize, 1), s) && Quiescent(s) ensures !Overfilled(s) {
        OneNeverOverfills(maxSize, s);
      }
    }
  }

  lemma {:induction false} FailedNeverShrinks<K(!new)>(s: State<K>, moves: seq<Move<K>>)
    ensures Run(s, moves).failed >= s.failed
    decreases moves
  {
    if moves != [] {
      FailedNeverShrinks(Step(s, moves[0]), moves[1..]);
    }
  }

  lemma MissedIsFailed<K(!new)>(s: State<K>)
    requires Accounted(s) && Quiescent(s)
    ensures |s.list| - s.size == s.failed
  {
    SumZero(s.threads, Balance);
  }

  /** Between any two states at rest of a run, under every interleaving, the entries that m_size misses do not get
      fewer. */
  lemma MissedNeverShrinks<K(!new)>(maxSize: nat, threadCount: nat, before: seq<Move<K>>, moves: seq<Move<K>>)
    requires threadCount >= 1 && Quiescent(Run(Init<K>(maxSize, threadCount), before))
    requires Quiescent(Run(Run(Init<K>(maxSize, threadCount), before), moves))
    ensures var s := Run(Init<K>(maxSize, threadCount), before);
      |Run(s, moves).list| - Run(s, moves).size >= |s.list| - s.size
  {
    var s := Run(Init<K>(maxSize, threadCount), before);
    InvariantFromInit(maxSize, threadCount, before);
    InvariantOverRuns(s, moves);
    FailedNeverShrinks(s, moves);
    MissedIsFailed(s);
    MissedIsFailed(Run(s, moves));
  }

  /** So a cache that was once overfilled is overfilled whenever it comes to rest, whatever its callers do. */
  lemma OverfillIsForGood<K(!new)>(maxSize: nat, threadCount: nat, before: seq<Move<K>>, moves: seq<Move<K>>)
    requires threadCount >= 1 && Quiescent(Run(Init<K>(maxSize, threadCount), before))
    requires Quiescent(Run(Run(Init<K>(maxSize, threadCount), before), moves))
    requires Overfilled(Run(Init<K>(maxSize, threadCount), before))
    ensures Overfilled(Run(Run(Init<K>(maxSize, threadCount), before), moves))
  {
    var s := Run(Init<K>(maxSize, threadCount), before);
    LimitsFromInit(maxSize, threadCount, before);
    LimitsOverRuns(s, moves);
    FailedNeverShrinks(s, moves);
    MissedIsFailed(s);
    MissedIsFailed(Run(s, moves));
  }
}
