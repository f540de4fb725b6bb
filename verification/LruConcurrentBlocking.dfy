/** The same threads with the locks that map accessors hold: when calls wait for each other for good. */
module LruConcurrentBlocking {
  import opened Sums
  import opened Seqs
  import opened Options
  import opened LruConcurrent
  import opened LruConcurrentLimits
  import opened LruConcurrentSolo

  /** The key whose entry a thread's accessor locks: from the lookup or the map's insert until the call returns. */
  function Locked<K>(pc: Pc<K>): Option<K> {
    match pc
    case Idle => None
    case Missed(_) => None
    case _ => Some(pc.node.key)
  }

  /** The key whose entry a thread in a call wants to lock next. */
  function Wanted<K>(pc: Pc<K>): Option<K> {
    match pc
    case Missed(key) => Some(key)
    case FirstErase(_, _, victim) => Some(victim.key)
    case SecondErase(_, victim) => Some(victim.key)
    case _ => None
  }

  ghost predicate LockedByOther<K>(s: State<K>, t: nat, key: K) {
    exists u :: 0 <= u < |s.threads| && u != t && Locked(s.threads[u]) == Some(key)
  }

  function Needed<K>(pc: Pc<K>, call: Call<K>): Option<K> {
    if pc.Idle? then Some(call.key) else Wanted(pc)
  }

  /** The thread can take its next step, or start the call: nobody else has the entry it wants locked. */
  ghost predicate CanMove<K>(s: State<K>, m: Move<K>) {
    && m.t < |s.threads|
    && var needed := Needed(s.threads[m.t], m.call); needed.Some? ==> !LockedByOther(s, m.t, needed.value)
  }

  ghost predicate IsBlockingRun<K(!new)>(s: State<K>, moves: seq<Move<K>>)
    decreases moves
  {
    moves == [] || (CanMove(s, moves[0]) && IsBlockingRun(Step(s, moves[0]), moves[1..]))
  }

  predicate WaitsFor<K(==)>(s: State<K>, t: nat, u: nat) {
    && t < |s.threads| && u < |s.threads| && t != u
    && Wanted(s.threads[t]).Some? && Locked(s.threads[u]) == Wanted(s.threads[t])
  }

  ghost predicate WaitsInside<K>(s: State<K>, t: nat, group: set<nat>) {
    exists u :: u in group && WaitsFor(s, t, u)
  }

  /** Every thread of the group wants an entry that another one of the group has locked. */
  ghost predicate Deadlocked<K>(s: State<K>, group: set<nat>) {
    group != {} && forall t :: t in group ==> WaitsInside(s, t, group)
  }

  lemma Blocker<K(!new)>(s: State<K>, group: set<nat>, t: nat) returns (u: nat)
    requires Deadlocked(s, group) && t in group
    ensures u in group && WaitsFor(s, t, u)
  {
    assert WaitsInside(s, t, group);
    u :| u in group && WaitsFor(s, t, u);
  }

  // ---------------------------------------------------------------- for good

  lemma OthersStay<K(!new)>(s: State<K>, m: Move<K>, t: nat)
    requires t != m.t && t < |s.threads|
    ensures t < |Step(s, m).threads| && Step(s, m).threads[t] == s.threads[t]
  {
  }

  lemma WhoWaitsStands<K(!new)>(s: State<K>, m: Move<K>, u: nat)
    requires WaitsFor(s, m.t, u)
    ensures !CanMove(s, m)
  {
    assert LockedByOther(s, m.t, Wanted(s.threads[m.t]).value);
  }

  lemma Stands<K(!new)>(s: State<K>, group: set<nat>, m: Move<K>)
    requires Deadlocked(s, group) && m.t in group
    ensures !CanMove(s, m)
  {
    var u := Blocker(s, group, m.t);
    WhoWaitsStands(s, m, u);
  }

  lemma StillWaits<K(!new)>(s: State<K>, group: set<nat>, m: Move<K>, t: nat, u: nat)
    requires Deadlocked(s, group) && CanMove(s, m) && t in group && u in group && WaitsFor(s, t, u)
    ensures WaitsFor(Step(s, m), t, u) && Step(s, m).threads[t] == s.threads[t]
  {
    if m.t == t || m.t == u {
      Stands(s, group, m);
    } else {
      OthersStay(s, m, t);
      OthersStay(s, m, u);
    }
  }

  lemma DeadlockStays<K(!new)>(s: State<K>, group: set<nat>, m: Move<K>)
    requires Deadlocked(s, group) && CanMove(s, m)
    ensures Deadlocked(Step(s, m), group)
  {
    forall t | t in group ensures WaitsInside(Step(s, m), t, group) {
      var u := Blocker(s, group, t);
      StillWaits(s, group, m, t, u);
    }
  }

  ghost predicate StandsAt<K>(s: State<K>, t: nat, pc: Pc<K>) {
    t < |s.threads| && s.threads[t] == pc && pc != Idle
  }

  lemma StandsNext<K(!new)>(s: State<K>, group: set<nat>, m: Move<K>, t: nat, pc: Pc<K>)
    requires Deadlocked(s, group) && CanMove(s, m) && t in group && StandsAt(s, t, pc)
    ensures Deadlocked(Step(s, m), group) && StandsAt(Step(s, m), t, pc)
  {
    var u := Blocker(s, group, t);
    StillWaits(s, group, m, t, u);
    DeadlockStays(s, group, m);
  }

  /** What every step that is possible keeps holds after every run. */
  lemma {:induction false} KeptOverRuns<K(!new)>(s: State<K>, moves: seq<Move<K>>, kept: State<K> -> bool)
    requires kept(s) && IsBlockingRun(s, moves)
    requires forall n, m :: kept(n) && CanMove(n, m) ==> kept(Step(n, m))
    ensures kept(Run(s, moves))
    decreases moves
  {
    if moves != [] {
      KeptOverRuns(Step(s, moves[0]), moves[1..], kept);
    }
  }

  /** The calls of a deadlock never return: each stays at the step it is at. */
  lemma {:induction false} DeadlockIsForGood<K(!new)>(s: State<K>, group: set<nat>, moves: seq<Move<K>>, t: nat,
                                                      pc: Pc<K>)
    requires Deadlocked(s, group) && IsBlockingRun(s, moves) && t in group && StandsAt(s, t, pc)
    ensures Deadlocked(Run(s, moves), group) && StandsAt(Run(s, moves), t, pc)
  {
    ghost var kept := (n: State<K>) => Deadlocked(n, group) && StandsAt(n, t, pc);
    forall n: State<K>, m | kept(n) && CanMove(n, m) ensures kept(Step(n, m)) {
      StandsNext(n, group, m, t, pc);
    }
    KeptOverRuns(s, moves, kept);
  }

  // ---------------------------------------------------------------- what a deadlock takes

  /** Threads that have lowered m_size and evict for it. */
  function Shrinking<K>(pc: Pc<K>): int {
    match pc
    case SecondEvict(_) => 1
    case SecondErase(_, _) => 1
    case _ => 0
  }

  ghost predicate ShrinksWithin<K>(s: State<K>) {
    s.size + Sum(s.threads, Filling) + Sum(s.threads, Shrinking) <= s.maxSize + |s.threads| - 1
  }

  function FillingOrShrinking<K>(pc: Pc<K>): int {
    Filling(pc) + Shrinking(pc)
  }

  lemma {:induction false} SumsOfBoth<K>(threads: seq<Pc<K>>)
    ensures Sum(threads, FillingOrShrinking) == Sum(threads, Filling) + Sum(threads, Shrinking)
  {
    if threads != [] {
      SumsOfBoth(threads[1..]);
    }
  }

  lemma ShrinksBy<K>(s: State<K>, n: State<K>, t: nat, pc: Pc<K>)
    requires ShrinksWithin(s) && t < |s.threads| && n.threads == s.threads[t := pc] && n.maxSize == s.maxSize
    requires n.size - s.size + FillingOrShrinking(pc) - FillingOrShrinking(s.threads[t]) <= 0
    ensures ShrinksWithin(n)
  {
    SumUpdate(s.threads, t, pc, Filling);
    SumUpdate(s.threads, t, pc, Shrinking);
  }

  /** A thread that loads m_size below the maximum. */
  lemma ShrinksLoad<K(!new)>(s: State<K>, t: nat)
    requires t < |s.threads| && s.threads[t].Inserted? && s.size < s.maxSize
    ensures ShrinksWithin(Advance(s, t))
  {
    var n := Advance(s, t);
    SumOfBits(n.threads, FillingOrShrinking);
    SumsOfBoth(n.threads);
  }

  lemma ShrinksAdvance<K(!new)>(s: State<K>, t: nat)
    requires ShrinksWithin(s) && t < |s.threads|
    ensures ShrinksWithin(Advance(s, t))
  {
    var n := Advance(s, t);
    if s.threads[t].Inserted? && s.size < s.maxSize {
      ShrinksLoad(s, t);
    } else {
      ShrinksBy(s, n, t, n.threads[t]);
    }
  }

  lemma ShrinksStep<K(!new)>(s: State<K>, m: Move<K>)
    requires ShrinksWithin(s)
    ensures ShrinksWithin(Step(s, m))
  {
    if m.t < |s.threads| {
      if s.threads[m.t].Idle? {
        ShrinksBy(s, Start(s, m.t, m.call), m.t, Start(s, m.t, m.call).threads[m.t]);
      } else {
        ShrinksAdvance(s, m.t);
      }
    }
  }

  /** With a capacity of 0 m_size stays 0 and nothing is ever evicted for the second time. */
  predicate NeverCounts<K>(pc: Pc<K>) {
    match pc
    case FirstEvict(_, size) => size == 0
    case FirstErase(_, size, _) => size == 0
    case Push(_, evicted, size) => evicted && size == 0
    case Check(_, size) => size == 0
    case Count(_) => false
    case SecondEvict(_) => false
    case SecondErase(_, _) => false
    case _ => true
  }

  ghost predicate NeverGrows<K>(s: State<K>) {
    s.size == 0 && forall t :: 0 <= t < |s.threads| ==> NeverCounts(s.threads[t])
  }

  lemma NeverGrowsStep<K(!new)>(s: State<K>, m: Move<K>)
    requires s.maxSize == 0 && NeverGrows(s)
    ensures NeverGrows(Step(s, m))
  {
    if m.t < |s.threads| {
      assert NeverCounts(s.threads[m.t]);
      assert NeverCounts(Step(s, m).threads[m.t]);
    }
  }

  lemma {:induction false} LimitsOverRuns<K(!new)>(s: State<K>, moves: seq<Move<K>>)
    requires Placed(s) && Accounted(s) && ShrinksWithin(s) && (s.maxSize == 0 ==> NeverGrows(s))
    ensures var n := Run(s, moves);
      && Placed(n) && Accounted(n) && ShrinksWithin(n) && (n.maxSize == 0 ==> NeverGrows(n))
      && n.maxSize == s.maxSize && |n.threads| == |s.threads|
    decreases moves
  {
    if moves != [] {
      AccountedStep(s, moves[0]);
      PlacedStep(s, moves[0]);
      ShrinksStep(s, moves[0]);
      if s.maxSize == 0 {
        NeverGrowsStep(s, moves[0]);
      }
      LimitsOverRuns(Step(s, moves[0]), moves[1..]);
    }
  }

  lemma LimitsFromInit<K(!new)>(maxSize: nat, threadCount: nat, moves: seq<Move<K>>)
    requires threadCount >= 1
    ensures var n := Run(Init<K>(maxSize, threadCount), moves);
      && Placed(n) && Accounted(n) && ShrinksWithin(n) && (maxSize == 0 ==> NeverGrows(n))
      && n.maxSize == maxSize && |n.threads| == threadCount
  {
    var s := Init<K>(maxSize, threadCount);
    InvariantFromInit<K>(maxSize, threadCount, []);
    SumZero(s.threads, Filling);
    SumZero(s.threads, Shrinking);
    LimitsOverRuns(s, moves);
  }

  lemma HeldOnce<K(!new)>(s: State<K>, t: nat, u: nat, n: Node<K>)
    requires Placed(s) && t < |s.threads| && u < |s.threads| && t != u && n in Held(s.threads[t])
    ensures n !in Held(s.threads[u])
  {
    assert t < u ==> Held(s.threads[t]) !! Held(s.threads[u]);
    assert u < t ==> Held(s.threads[u]) !! Held(s.threads[t]);
  }

  lemma OneHolder<K(!new)>(s: State<K>, t: nat, u: nat, a: Node<K>, b: Node<K>)
    requires Placed(s) && t < |s.threads| && u < |s.threads|
    requires a in Held(s.threads[t]) && b in Held(s.threads[u]) && a.key == b.key
    ensures t == u
  {
    assert InMap(s.map_, a) && InMap(s.map_, b);
    if t != u {
      HeldOnce(s, t, u, a);
    }
  }

  /** A thread waits for nobody who is still in its first eviction: its victim came out of the list, that one's own
      node is not yet in it. */
  lemma WaitsForSecondErase<K(!new)>(s: State<K>, t: nat, u: nat)
    requires Placed(s) && WaitsFor(s, t, u) && !s.threads[t].Missed?
    ensures !s.threads[u].FirstErase?
  {
    var victim := s.threads[t].victim;
    assert victim in Held(s.threads[t]);
    if s.threads[u].FirstErase? {
      OneHolder(s, t, u, victim, s.threads[u].node);
    }
  }

  lemma SumAtLeastTwo<K>(threads: seq<Pc<K>>, t: nat, u: nat)
    requires t < |threads| && u < |threads| && t != u && Shrinking(threads[t]) == 1 && Shrinking(threads[u]) == 1
    ensures Sum(threads, Shrinking) >= 2
  {
    var a := threads[t := Idle];
    var b := a[u := Idle];
    SumUpdate(threads, t, Idle, Shrinking);
    SumUpdate(a, u, Idle, Shrinking);
    SumOfBits(b, Shrinking);
  }

  /** Who waits in a deadlock is in an eviction, and waits for a thread in its second one. */
  lemma IsSecondErase<K(!new)>(s: State<K>, t: nat, u: nat, v: nat)
    requires Placed(s) && WaitsFor(s, t, u) && WaitsFor(s, u, v) && !s.threads[t].Missed?
    ensures s.threads[u].SecondErase?
  {
    WaitsForSecondErase(s, t, u);
  }

  lemma InSecondErase<K(!new)>(s: State<K>, group: set<nat>, t: nat) returns (u: nat)
    requires Placed(s) && Deadlocked(s, group) && t in group && t < |s.threads| && !s.threads[t].Missed?
    ensures u in group && u != t && u < |s.threads| && s.threads[u].SecondErase?
  {
    u := Blocker(s, group, t);
    var v := Blocker(s, group, u);
    IsSecondErase(s, t, u, v);
  }

  lemma SomeoneInside<K(!new)>(s: State<K>, group: set<nat>) returns (t: nat)
    requires Deadlocked(s, group)
    ensures t in group && t < |s.threads| && !s.threads[t].Missed?
  {
    var any :| any in group;
    t := Blocker(s, group, any);
  }

  lemma TwoInSecondErase<K(!new)>(s: State<K>, group: set<nat>) returns (t: nat, u: nat)
    requires Placed(s) && Deadlocked(s, group)
    ensures t < |s.threads| && u < |s.threads| && t != u && s.threads[t].SecondErase? && s.threads[u].SecondErase?
  {
    var first := SomeoneInside(s, group);
    t := InSecondErase(s, group, first);
    u := InSecondErase(s, group, t);
  }

  lemma TwoTakeThree<K(!new)>(s: State<K>, t: nat, u: nat)
    requires Accounted(s) && ShrinksWithin(s) && (s.maxSize == 0 ==> NeverGrows(s))
    requires t < |s.threads| && u < |s.threads| && t != u && s.threads[t].SecondErase? && s.threads[u].SecondErase?
    ensures s.maxSize >= 1 && |s.threads| >= 3
  {
    SumAtLeastTwo(s.threads, t, u);
    SumOfBits(s.threads, Filling);
    assert AfterFull(s.threads[t]) && !NeverCounts(s.threads[t]);
  }

  /** A deadlock takes two second evictions at once, and those take three threads and a capacity of at least 1. */
  lemma DeadlockTakesThree<K(!new)>(s: State<K>, group: set<nat>)
    requires Placed(s) && Accounted(s) && ShrinksWithin(s) && (s.maxSize == 0 ==> NeverGrows(s)) && Deadlocked(s, group)
    ensures s.maxSize >= 1 && |s.threads| >= 3
  {
    var t, u := TwoInSecondErase(s, group);
    TwoTakeThree(s, t, u);
  }

  // ---------------------------------------------------------------- a schedule that gets there

  ghost predicate Reaches<K(!new)>(s: State<K>, n: State<K>) {
    exists moves :: IsBlockingRun(s, moves) && Run(s, moves) == n
  }

  lemma {:induction false} BlockingAppend<K(!new)>(s: State<K>, a: seq<Move<K>>, m: Move<K>)
    requires IsBlockingRun(s, a) && CanMove(Run(s, a), m)
    ensures IsBlockingRun(s, a + [m]) && Run(s, a + [m]) == Step(Run(s, a), m)
    decreases a
  {
    if a == [] {
      assert a + [m] == [m] && [m][1..] == [];
      assert IsBlockingRun(Step(s, m), []);
    } else {
      assert (a + [m])[0] == a[0] && (a + [m])[1..] == a[1..] + [m];
      BlockingAppend(Step(s, a[0]), a[1..], m);
    }
  }

  lemma Next<K(!new)>(s: State<K>, n: State<K>, m: Move<K>, next: State<K>)
    requires Reaches(s, n) && CanMove(n, m) && Step(n, m) == next
    ensures Reaches(s, next)
  {
    var moves :| IsBlockingRun(s, moves) && Run(s, moves) == n;
    BlockingAppend(s, moves, m);
  }

  lemma ReachedLimits<K(!new)>(maxSize: nat, threadCount: nat, s: State<K>)
    requires threadCount >= 1 && Reaches(Init<K>(maxSize, threadCount), s)
    ensures Placed(s) && Accounted(s) && ShrinksWithin(s) && (maxSize == 0 ==> NeverGrows(s))
    ensures s.maxSize == maxSize && |s.threads| == threadCount
  {
    var moves :| IsBlockingRun(Init<K>(maxSize, threadCount), moves) && Run(Init<K>(maxSize, threadCount), moves) == s;
    LimitsFromInit<K>(maxSize, threadCount, moves);
  }

  lemma FreeAt<K(!new)>(s: State<K>, t: nat, m: map<K, Node<K>>, list: seq<Node<K>>, size: nat, pc: Pc<K>, key: K)
    requires t < |s.threads| && !LockedByOther(s, t, key)
    ensures !LockedByOther(At(s, t, m, list, size, pc), t, key)
  {
    forall u | 0 <= u < |s.threads| && u != t ensures Locked(At(s, t, m, list, size, pc).threads[u]) != Some(key) {
    }
  }

  /** The map insert and the load of m_size. */
  lemma Enters<K(!new)>(s0: State<K>, s: State<K>, t: nat, key: K)
    requires Reaches(s0, s) && t < |s.threads| && s.threads[t] == Idle && key !in s.map_ && !LockedByOther(s, t, key)
    ensures var node := Node(key, s.nextId);
      Reaches(s0, At(s, t, s.map_[key := node], s.list, s.size,
                     if s.size >= s.maxSize then FirstEvict(node, s.size) else Push(node, false, s.size)))
  {
    var m, node := Move(t, Insert(key)), Node(key, s.nextId);
    var map1 := s.map_[key := node];
    Next(s0, s, m, At(s, t, map1, s.list, s.size, Inserted(node)));
    AtLoad(s, t, map1, s.list, node);
    Next(s0, At(s, t, map1, s.list, s.size, Inserted(node)), m,
         At(s, t, map1, s.list, s.size,
            if s.size >= s.maxSize then FirstEvict(node, s.size) else Push(node, false, s.size)));
  }

  /** At or above capacity: the last entry leaves, the new one enters. */
  lemma Replaces<K(!new)>(s0: State<K>, s: State<K>, t: nat, key: K, init: seq<Node<K>>, victim: Node<K>)
    requires Reaches(s0, s) && t < |s.threads| && s.threads[t] == Idle && key !in s.map_ && !LockedByOther(s, t, key)
    requires s.size >= s.maxSize && s.list == init + [victim] && InMap(s.map_, victim)
    requires !LockedByOther(s, t, victim.key)
    ensures var node := Node(key, s.nextId);
      Reaches(s0, At(s, t, s.map_[key := node] - {victim.key}, [node] + init, s.size, Check(node, s.size)))
  {
    var m, node := Move(t, Insert(key)), Node(key, s.nextId);
    var map1 := s.map_[key := node];
    Enters(s0, s, t, key);
    AtFirstEvict(s, t, map1, init, victim, node);
    var erasing := At(s, t, map1, init, s.size, FirstErase(node, s.size, victim));
    Next(s0, At(s, t, map1, s.list, s.size, FirstEvict(node, s.size)), m, erasing);
    FreeAt(s, t, map1, init, s.size, FirstErase(node, s.size, victim), victim.key);
    Next(s0, erasing, m, At(s, t, map1 - {victim.key}, init, s.size, Push(node, true, s.size)));
    AtPush(s, t, map1 - {victim.key}, init, node, true);
    Next(s0, At(s, t, map1 - {victim.key}, init, s.size, Push(node, true, s.size)), m,
         At(s, t, map1 - {victim.key}, [node] + init, s.size, Check(node, s.size)));
  }

  /** At capacity that is all; above it the thread goes on to lower m_size. */
  lemma ReplacesOne<K(!new)>(s0: State<K>, s: State<K>, t: nat, key: K, init: seq<Node<K>>, victim: Node<K>)
    requires Reaches(s0, s) && t < |s.threads| && s.threads[t] == Idle && key !in s.map_ && !LockedByOther(s, t, key)
    requires s.size >= s.maxSize && s.list == init + [victim] && InMap(s.map_, victim)
    requires !LockedByOther(s, t, victim.key)
    ensures var node := Node(key, s.nextId);
      var map2 := s.map_[key := node] - {victim.key};
      Reaches(s0, if s.size == s.maxSize then At(s, t, map2, [node] + init, s.size, Idle)
                  else At(s, t, map2, [node] + init, s.size - 1, SecondEvict(node)))
  {
    var m, node := Move(t, Insert(key)), Node(key, s.nextId);
    var map2 := s.map_[key := node] - {victim.key};
    Replaces(s0, s, t, key, init, victim);
    AtCheck(s, t, map2, [node] + init, s.size, node);
    Next(s0, At(s, t, map2, [node] + init, s.size, Check(node, s.size)), m,
         if s.size == s.maxSize then At(s, t, map2, [node] + init, s.size, Idle)
         else At(s, t, map2, [node] + init, s.size - 1, SecondEvict(node)));
  }

  function Pushed<K(==)>(s: State<K>, t: nat, node: Node<K>): State<K>
    requires t < |s.threads|
  {
    s.(list := [node] + s.list, size := s.size + 1, threads := s.threads[t := Idle])
  }

  /** A thread let in below capacity pushes and counts, whatever m_size is by now. */
  lemma Pushes<K(!new)>(s0: State<K>, s: State<K>, t: nat, node: Node<K>, size: nat)
    requires Reaches(s0, s) && t < |s.threads| && s.threads[t] == Push(node, false, size)
    ensures Reaches(s0, Pushed(s, t, node))
  {
    var m, list1 := Move(t, Insert(node.key)), [node] + s.list;
    var a := s.(list := list1, threads := s.threads[t := Count(node)]);
    Next(s0, s, m, a);
    var b := a.(size := s.size + 1, threads := s.threads[t := Check(node, s.size)]);
    assert a.threads[t := Check(node, s.size)] == b.threads;
    Next(s0, a, m, b);
    assert b.threads[t := Idle] == s.threads[t := Idle];
    Next(s0, b, m, Pushed(s, t, node));
  }

  /** Everyone at rest, the last n of the keys 0 .. in the list. */
  ghost predicate AtRest(s: State<int>, maxSize: nat, threadCount: nat, n: nat) {
    && Reaches(Init<int>(maxSize, threadCount), s) && s.maxSize == maxSize && |s.threads| == threadCount
    && Quiescent(s) && s.size == n == |s.list| && s.failed == 0 && KeysBelow(s, n)
  }

  lemma NobodyLocks(s: State<int>, t: nat, key: int)
    requires Quiescent(s)
    ensures !LockedByOther(s, t, key)
  {
  }

  lemma {:induction false} Fills(maxSize: nat, threadCount: nat, n: nat) returns (s: State<int>)
    requires threadCount >= 1 && n <= maxSize
    ensures AtRest(s, maxSize, threadCount, n)
  {
    var start := Init<int>(maxSize, threadCount);
    if n == 0 {
      s := start;
      assert IsBlockingRun(start, []) && Run(start, []) == start;
    } else {
      var before := Fills(maxSize, threadCount, n - 1);
      NobodyLocks(before, 0, n - 1);
      Enters(start, before, 0, n - 1);
      var node := Node(n - 1, before.nextId);
      var a := At(before, 0, before.map_[n - 1 := node], before.list, n - 1, Push(node, false, n - 1));
      Pushes(start, a, 0, node, n - 1);
      s := Pushed(a, 0, node);
    }
  }

  /** The first i of the threads have been let in while m_size was one below the maximum. */
  ghost predicate LetIn(s: State<int>, maxSize: nat, threadCount: nat, i: nat) {
    && Reaches(Init<int>(maxSize, threadCount), s) && s.maxSize == maxSize >= 1 && |s.threads| == threadCount
    && s.size == maxSize - 1 == |s.list| && s.failed == 0 && KeysBelow(s, maxSize - 1 + i) && i <= threadCount
    && (forall j :: 0 <= j < i ==>
          s.threads[j].Push? && !s.threads[j].evicted && s.threads[j].node.key == maxSize - 1 + j)
    && (forall j :: i <= j < threadCount ==> s.threads[j] == Idle)
  }

  lemma {:induction false} LetsIn(s: State<int>, maxSize: nat, threadCount: nat, i: nat, n: nat) returns (r: State<int>)
    requires LetIn(s, maxSize, threadCount, i) && i <= n <= threadCount
    ensures LetIn(r, maxSize, threadCount, n)
    decreases n - i
  {
    if i == n {
      r := s;
    } else {
      var key := maxSize - 1 + i;
      assert !LockedByOther(s, i, key);
      Enters(Init<int>(maxSize, threadCount), s, i, key);
      var node := Node(key, s.nextId);
      var next := At(s, i, s.map_[key := node], s.list, s.size, Push(node, false, s.size));
      r := LetsIn(next, maxSize, threadCount, i + 1, n);
    }
  }

  /** The first i of n such threads have pushed and counted. */
  ghost predicate Counted(s: State<int>, maxSize: nat, threadCount: nat, i: nat, n: nat) {
    && Reaches(Init<int>(maxSize, threadCount), s) && s.maxSize == maxSize >= 1 && |s.threads| == threadCount >= n
    && s.size == maxSize - 1 + i == |s.list| && s.failed == 0 && KeysBelow(s, maxSize - 1 + n) && i <= n
    && (forall j :: i <= j < n ==> s.threads[j].Push? && !s.threads[j].evicted)
    && (forall j :: 0 <= j < threadCount && (j < i || j >= n) ==> s.threads[j] == Idle)
  }

  lemma {:induction false} Counts(s: State<int>, maxSize: nat, threadCount: nat, i: nat, n: nat) returns (r: State<int>)
    requires Counted(s, maxSize, threadCount, i, n)
    ensures Counted(r, maxSize, threadCount, n, n)
    decreases n - i
  {
    if i == n {
      r := s;
    } else {
      Pushes(Init<int>(maxSize, threadCount), s, i, s.threads[i].node, s.threads[i].size);
      r := Counts(Pushed(s, i, s.threads[i].node), maxSize, threadCount, i + 1, n);
    }
  }

  /** n threads let in at once take m_size n - 1 above the maximum. */
  lemma Overfills(maxSize: nat, threadCount: nat, n: nat) returns (s: State<int>)
    requires maxSize >= 1 && threadCount >= n >= 1
    ensures AtRest(s, maxSize, threadCount, maxSize - 1 + n)
  {
    var a := Fills(maxSize, threadCount, maxSize - 1);
    var b := LetsIn(a, maxSize, threadCount, 0, n);
    s := Counts(b, maxSize, threadCount, 0, n);
  }

  /** Some threads stand before their second evictions, the last of them number top - 1. The list holds their nodes,
      latest first, between `front` and `behind`; everybody else is idle. */
  ghost predicate Standing(s: State<int>, maxSize: nat, threadCount: nat, top: nat, front: seq<Node<int>>,
                           stand: seq<Node<int>>, behind: seq<Node<int>>, bound: nat) {
    && Reaches(Init<int>(maxSize, threadCount), s) && s.maxSize == maxSize && |s.threads| == threadCount
    && |stand| <= top < threadCount
    && (forall k :: 0 <= k < |stand| ==> s.threads[top - 1 - k] == SecondEvict(stand[k]))
    && (forall j :: 0 <= j < threadCount && (j < top - |stand| || j >= top) ==> s.threads[j] == Idle)
    && s.list == front + stand + behind && KeysBelow(s, bound)
  }

  lemma ListIsMapped<K(!new)>(s: State<K>, i: nat)
    requires Placed(s) && i < |s.list|
    ensures InMap(s.map_, s.list[i])
  {
    assert s.list[i] in Elements(s.list);
  }

  lemma ListedKeysDiffer<K(!new)>(s: State<K>, i: nat, j: nat)
    requires Placed(s) && i < j < |s.list|
    ensures s.list[i].key != s.list[j].key
  {
    ListIsMapped(s, i);
    ListIsMapped(s, j);
  }

  /** Nobody else has the last entry or a new key locked. */
  lemma LastIsFree(s: State<int>, maxSize: nat, threadCount: nat, top: nat, front: seq<Node<int>>,
                   stand: seq<Node<int>>, behind: seq<Node<int>>, bound: nat, t: nat)
    requires Standing(s, maxSize, threadCount, top, front, stand, behind, bound) && behind != []
    ensures s.list == (front + stand + behind[..|behind| - 1]) + [Last(behind)] && InMap(s.map_, Last(behind))
    ensures !LockedByOther(s, t, Last(behind).key) && !LockedByOther(s, t, bound) && bound !in s.map_
  {
    var m := |s.list|;
    ReachedLimits(maxSize, threadCount, s);
    assert behind == behind[..|behind| - 1] + [Last(behind)];
    assert s.list[m - 1] == Last(behind);
    ListIsMapped(s, m - 1);
    forall u | 0 <= u < threadCount && u != t
      ensures Locked(s.threads[u]) != Some(Last(behind).key) && Locked(s.threads[u]) != Some(bound)
    {
      if top - |stand| <= u < top {
        var k := top - 1 - u;
        assert s.list[|front| + k] == stand[k];
        ListIsMapped(s, |front| + k);
        ListedKeysDiffer(s, |front| + k, m - 1);
      }
    }
  }

  /** An idle thread inserts a key, and what was last in the list leaves it. */
  lemma Rotates(s: State<int>, maxSize: nat, threadCount: nat, top: nat, front: seq<Node<int>>, stand: seq<Node<int>>,
                behind: seq<Node<int>>, bound: nat)
      returns (n: State<int>, more: seq<Node<int>>)
    requires Standing(s, maxSize, threadCount, top, front, stand, behind, bound) && behind != [] && s.size == maxSize
    ensures Standing(n, maxSize, threadCount, top, more, stand, behind[..|behind| - 1], bound + 1)
    ensures n.size == s.size && |n.list| == |s.list| && n.failed == s.failed
  {
    var t, rest, node := threadCount - 1, behind[..|behind| - 1], Node(bound, s.nextId);
    LastIsFree(s, maxSize, threadCount, top, front, stand, behind, bound, t);
    ReplacesOne(Init<int>(maxSize, threadCount), s, t, bound, front + stand + rest, Last(behind));
    more := [node] + front;
    n := At(s, t, s.map_[bound := node] - {Last(behind).key}, [node] + (front + stand + rest), s.size, Idle);
    assert n.list == more + stand + rest;
  }

  lemma {:induction false} RotatesAll(s: State<int>, maxSize: nat, threadCount: nat, top: nat, front: seq<Node<int>>,
                                      stand: seq<Node<int>>, behind: seq<Node<int>>, bound: nat)
      returns (n: State<int>, more: seq<Node<int>>, above: nat)
    requires Standing(s, maxSize, threadCount, top, front, stand, behind, bound) && s.size == maxSize
    ensures Standing(n, maxSize, threadCount, top, more, stand, [], above)
    ensures n.size == s.size && |n.list| == |s.list| && n.failed == s.failed
    decreases |behind|
  {
    if behind == [] {
      n, more, above := s, front, bound;
    } else {
      var next, next_ := Rotates(s, maxSize, threadCount, top, front, stand, behind, bound);
      n, more, above := RotatesAll(next, maxSize, threadCount, top, next_, stand, behind[..|behind| - 1], bound + 1);
    }
  }

  /** With m_size above the maximum the next thread inserts a key and comes to stand as well. */
  lemma Joins(s: State<int>, maxSize: nat, threadCount: nat, top: nat, stand: seq<Node<int>>, behind: seq<Node<int>>,
              bound: nat)
      returns (n: State<int>, more: seq<Node<int>>)
    requires Standing(s, maxSize, threadCount, top, [], stand, behind, bound) && |stand| == top
    requires top + 1 < threadCount && behind != [] && s.size > maxSize
    ensures Standing(n, maxSize, threadCount, top + 1, [], more, behind[..|behind| - 1], bound + 1)
    ensures |more| == top + 1 && n.size == s.size - 1 && |n.list| == |s.list| && n.failed == s.failed
  {
    var rest, node := behind[..|behind| - 1], Node(bound, s.nextId);
    LastIsFree(s, maxSize, threadCount, top, [], stand, behind, bound, top);
    ReplacesOne(Init<int>(maxSize, threadCount), s, top, bound, [] + stand + rest, Last(behind));
    more := [node] + stand;
    n := At(s, top, s.map_[bound := node] - {Last(behind).key}, [node] + ([] + stand + rest), s.size - 1,
            SecondEvict(node));
    assert n.list == [] + more + rest;
    forall k | 0 <= k < |more| ensures n.threads[top - k] == SecondEvict(more[k]) {
      if k > 0 {
        assert more[k] == stand[k - 1] && n.threads[top - k] == s.threads[top - 1 - (k - 1)];
      }
    }
  }

  /** As many threads as m_size is above the maximum come to stand, all but the last thread at most. */
  lemma {:induction false} AllJoin(s: State<int>, maxSize: nat, threadCount: nat, top: nat, stand: seq<Node<int>>,
                                   behind: seq<Node<int>>, bound: nat)
      returns (n: State<int>, to: nat, all: seq<Node<int>>, rest: seq<Node<int>>, above: nat)
    requires Standing(s, maxSize, threadCount, top, [], stand, behind, bound) && |stand| == top
    requires s.size >= maxSize && top + s.size - maxSize < threadCount && |behind| >= s.size - maxSize
    ensures Standing(n, maxSize, threadCount, to, [], all, rest, above) && |all| == to == top + s.size - maxSize
    ensures n.size == maxSize && |n.list| == |s.list| && n.failed == s.failed
    decreases s.size
  {
    if s.size == maxSize {
      n, to, all, rest, above := s, top, stand, behind, bound;
    } else {
      var next, more := Joins(s, maxSize, threadCount, top, stand, behind, bound);
      n, to, all, rest, above := AllJoin(next, maxSize, threadCount, top + 1, more, behind[..|behind| - 1], bound + 1);
    }
  }

  /** From rest, n - 1 above the maximum: n - 1 threads stand before their second evictions, m_size at the maximum, and
      nothing is behind their nodes in the list. */
  lemma AllStand(maxSize: nat, threadCount: nat, n: nat)
      returns (s: State<int>, front: seq<Node<int>>, stand: seq<Node<int>>, bound: nat)
    requires maxSize >= 1 && 1 <= n <= threadCount
    ensures Standing(s, maxSize, threadCount, n - 1, front, stand, [], bound) && |stand| == n - 1
    ensures s.size == maxSize && |s.list| == maxSize - 1 + n && s.failed == 0
  {
    var a := Overfills(maxSize, threadCount, n);
    assert a.list == [] + [] + a.list;
    assert Standing(a, maxSize, threadCount, 0, [], [], a.list, maxSize - 1 + n);
    var b, to, all, rest, above := AllJoin(a, maxSize, threadCount, 0, [], a.list, maxSize - 1 + n);
    stand := all;
    s, front, bound := RotatesAll(b, maxSize, threadCount, to, [], all, rest, above);
  }

  lemma DelinksLast(s0: State<int>, s: State<int>, t: nat, init: seq<Node<int>>, victim: Node<int>, node: Node<int>)
    requires Reaches(s0, s) && t < |s.threads| && s.threads[t] == SecondEvict(node)
    requires s.list == init + [victim] && victim.key != node.key
    ensures Reaches(s0, s.(list := init, threads := s.threads[t := SecondErase(node, victim)]))
  {
    assert s.list[..|s.list| - 1] == init && Last(s.list) == victim;
    Next(s0, s, Move(t, Insert(0)), s.(list := init, threads := s.threads[t := SecondErase(node, victim)]));
  }

  lemma TwoWait(s: State<int>, a: Node<int>, b: Node<int>)
    requires |s.threads| >= 2 && s.threads[0] == SecondErase(a, b) && s.threads[1] == SecondErase(b, a)
    ensures Deadlocked(s, {0, 1})
  {
    assert WaitsFor(s, 0, 1) && WaitsFor(s, 1, 0);
    assert 0 in {0, 1} && 1 in {0, 1};
  }

  /** Each of two delinks the other's node and then waits for its lock. */
  lemma TheyDelinkEachOther(s: State<int>, maxSize: nat, threadCount: nat, front: seq<Node<int>>, stand: seq<Node<int>>,
                            bound: nat)
      returns (n: State<int>)
    requires Standing(s, maxSize, threadCount, 2, front, stand, [], bound) && |stand| == 2
    ensures Reaches(Init<int>(maxSize, threadCount), n) && Deadlocked(n, {0, 1})
  {
    var start, b, a := Init<int>(maxSize, threadCount), stand[0], stand[1];
    ReachedLimits(maxSize, threadCount, s);
    assert s.list == (front + [b]) + [a] && s.threads[1] == SecondEvict(b) && s.threads[0] == SecondEvict(a);
    ListedKeysDiffer(s, |front|, |front| + 1);
    DelinksLast(start, s, 1, front + [b], a, b);
    var s1 := s.(list := front + [b], threads := s.threads[1 := SecondErase(b, a)]);
    DelinksLast(start, s1, 0, front, b, a);
    n := s1.(list := front, threads := s1.threads[0 := SecondErase(a, b)]);
    TwoWait(n, a, b);
  }

  ghost predicate ReachesDeadlocked(maxSize: nat, threadCount: nat, s: State<int>, group: set<nat>) {
    Reaches(Init<int>(maxSize, threadCount), s) && Deadlocked(s, group)
  }

  ghost predicate CanDeadlock(maxSize: nat, threadCount: nat) {
    exists s, group :: ReachesDeadlocked(maxSize, threadCount, s, group)
  }

  lemma ReachesDeadlock(maxSize: nat, threadCount: nat) returns (s: State<int>)
    requires maxSize >= 1 && threadCount >= 3
    ensures ReachesDeadlocked(maxSize, threadCount, s, {0, 1})
  {
    var a, front, stand, bound := AllStand(maxSize, threadCount, 3);
    s := TheyDelinkEachOther(a, maxSize, threadCount, front, stand, bound);
  }

  /** With fewer threads, or a capacity of 0, no interleaving at all gets there, whatever the locks let happen. */
  lemma NoDeadlock<K(!new)>(maxSize: nat, threadCount: nat, moves: seq<Move<K>>, group: set<nat>)
    requires threadCount >= 1 && Deadlocked(Run(Init<K>(maxSize, threadCount), moves), group)
    ensures maxSize >= 1 && threadCount >= 3
  {
    LimitsFromInit<K>(maxSize, threadCount, moves);
    DeadlockTakesThree(Run(Init<K>(maxSize, threadCount), moves), group);
  }

  lemma {:induction false} ThreeCanDeadlock(maxSize: nat, threadCount: nat)
    requires maxSize >= 1 && threadCount >= 3
    ensures CanDeadlock(maxSize, threadCount)
  {
    var s := ReachesDeadlock(maxSize, threadCount);
  }

  lemma OnlyThreeCanDeadlock(maxSize: nat, threadCount: nat)
    requires threadCount >= 1 && CanDeadlock(maxSize, threadCount)
    ensures maxSize >= 1 && threadCount >= 3
  {
    var s, group :| ReachesDeadlocked(maxSize, threadCount, s, group);
    var moves :|
      IsBlockingRun(Init<int>(maxSize, threadCount), moves) && Run(Init<int>(maxSize, threadCount), moves) == s;
    NoDeadlock(maxSize, threadCount, moves, group);
  }

  /** When calls can come to wait for each other for good: with at least three threads, at every capacity but 0. */
  lemma DeadlockIff(maxSize: nat, threadCount: nat)
    requires threadCount >= 1
    ensures CanDeadlock(maxSize, threadCount) <==> maxSize >= 1 && threadCount >= 3
  {
    if CanDeadlock(maxSize, threadCount) {
      OnlyThreeCanDeadlock(maxSize, threadCount);
    } else if maxSize >= 1 && threadCount >= 3 {
      ThreeCanDeadlock(maxSize, threadCount);
    }
  }
}
