/** How far m_size and the list can drift from the configured maximum under any interleaving. */
module LruConcurrentLimits {
  import opened Sums
  import opened Seqs
  import opened LruConcurrent

  /** What a thread in the middle of a call makes the list longer than m_size says. */
  function Balance<K>(pc: Pc<K>): int {
    match pc
    case Count(_) => 1              // pushed, not counted
    case SecondEvict(_) => 1        // m_size lowered, nothing delinked yet
    case FirstErase(_, _, _) => -1  // delinked, own node not pushed
    case Push(_, evicted, _) => if evicted then -1 else 0
    case _ => 0
  }

  /** Threads that saw m_size below the maximum and will still raise it. */
  function Filling<K>(pc: Pc<K>): int {
    match pc
    case Count(_) => 1
    case Push(_, evicted, _) => if evicted then 0 else 1
    case _ => 0
  }

  /** Threads past their capacity check that will still push a node. */
  function Coming<K>(pc: Pc<K>): int {
    match pc
    case FirstErase(_, _, _) => 1
    case Push(_, _, _) => 1
    case _ => 0
  }

  function Early<K>(pc: Pc<K>): int {
    Balance(pc) + Coming(pc)
  }

  /** Threads that only exist once m_size has reached the maximum. */
  predicate AfterFull<K>(pc: Pc<K>) {
    match pc
    case FirstEvict(_, _) => true
    case FirstErase(_, _, _) => true
    case Push(_, evicted, _) => evicted
    case SecondEvict(_) => true
    case SecondErase(_, _) => true
    case _ => false
  }

  function Max(a: int, b: int): int {
    if a < b then b else a
  }

  ghost predicate NotYetFull<K>(s: State<K>) {
    s.failed == 0 && forall t :: 0 <= t < |s.threads| ==> !AfterFull(s.threads[t])
  }

  ghost predicate Accounted<K>(s: State<K>) {
    && |s.list| == s.size + Sum(s.threads, Balance) + s.failed
    && (s.size < s.maxSize ==> NotYetFull(s))
    && s.size + Sum(s.threads, Filling) <= s.maxSize + |s.threads| - 1
    && |s.list| + Sum(s.threads, Coming) <= Max(1, s.maxSize) + |s.threads| - 1
  }

  lemma SumsShift<K>(threads: seq<Pc<K>>, t: nat, pc: Pc<K>)
    requires t < |threads|
    ensures Sum(threads[t := pc], Balance) == Sum(threads, Balance) - Balance(threads[t]) + Balance(pc)
    ensures Sum(threads[t := pc], Filling) == Sum(threads, Filling) - Filling(threads[t]) + Filling(pc)
    ensures Sum(threads[t := pc], Coming) == Sum(threads, Coming) - Coming(threads[t]) + Coming(pc)
  {
    SumUpdate(threads, t, pc, Balance);
    SumUpdate(threads, t, pc, Filling);
    SumUpdate(threads, t, pc, Coming);
  }

  lemma {:induction false} EarlySplits<K>(threads: seq<Pc<K>>)
    ensures Sum(threads, Early) == Sum(threads, Balance) + Sum(threads, Coming)
  {
    if threads != [] {
      EarlySplits(threads[1..]);
    }
  }

  lemma StillNotFull<K>(s: State<K>, t: nat, pc: Pc<K>)
    requires t < |s.threads| && (s.size < s.maxSize ==> NotYetFull(s))
    requires s.size < s.maxSize ==> !AfterFull(pc)
    ensures s.size < s.maxSize ==> NotYetFull(s.(threads := s.threads[t := pc]))
  {
  }

  /** A thread that loads m_size below the maximum: every other pending push was let in the same way. */
  lemma AccountedLoad<K(!new)>(s: State<K>, t: nat)
    requires Placed(s) && Accounted(s) && t < |s.threads| && s.threads[t].Inserted?
    ensures Accounted(Advance(s, t))
  {
    var s' := Advance(s, t);
    SumsShift(s.threads, t, s'.threads[t]);
    StillNotFull(s, t, s'.threads[t]);
    if s.size < s.maxSize {
      forall u | 0 <= u < |s'.threads| ensures 0 <= Early(s'.threads[u]) <= 1 {
        assert !AfterFull(s'.threads[u]);
      }
      SumOfBits(s'.threads, Early);
      EarlySplits(s'.threads);
      SumOfBits(s'.threads, Filling);
    }
  }

  /** An evict() that finds the list empty bounds what is still to come by the number of threads. */
  lemma AccountedFirstEvict<K(!new)>(s: State<K>, t: nat)
    requires Placed(s) && Accounted(s) && t < |s.threads| && s.threads[t].FirstEvict?
    ensures Accounted(Advance(s, t))
  {
    var s' := Advance(s, t);
    SumsShift(s.threads, t, s'.threads[t]);
    assert AfterFull(s.threads[t]);
    FirstEvictBlockedOnlyByEmptyList(s, t);
    SumOfBits(s'.threads, Coming);
  }

  /** A step keeps the account when the list, m_size and `failed` move by what the two pcs say. */
  lemma AccountedBy<K>(s: State<K>, s': State<K>, t: nat, pc: Pc<K>)
    requires Accounted(s) && t < |s.threads| && s'.threads == s.threads[t := pc] && s'.maxSize == s.maxSize
    requires |s'.list| - |s.list| == s'.size - s.size + s'.failed - s.failed + Balance(pc) - Balance(s.threads[t])
    requires s'.size - s.size + Filling(pc) - Filling(s.threads[t]) <= 0
    requires |s'.list| - |s.list| + Coming(pc) - Coming(s.threads[t]) <= 0
    requires s'.size < s'.maxSize ==> s.size < s.maxSize
    requires s'.size < s'.maxSize && !AfterFull(s.threads[t]) ==> !AfterFull(pc) && s'.failed == s.failed
    ensures Accounted(s')
  {
    SumsShift(s.threads, t, pc);
    assert s.size < s.maxSize ==> !AfterFull(s.threads[t]);
  }

  lemma AccountedStart<K(!new)>(s: State<K>, t: nat, call: Call<K>)
    requires Accounted(s) && t < |s.threads| && s.threads[t].Idle?
    ensures Accounted(Start(s, t, call))
  {
    AccountedBy(s, Start(s, t, call), t, Start(s, t, call).threads[t]);
  }

  lemma AccountedTouch<K(!new)>(s: State<K>, t: nat)
    requires Distinct(s.list) && Accounted(s) && t < |s.threads| && s.threads[t].Touch?
    ensures Accounted(Advance(s, t))
  {
    if s.threads[t].node in s.list {
      DistinctTouch(s.list, s.threads[t].node);
    }
    AccountedBy(s, Advance(s, t), t, Idle);
  }

  /** The steps from the map and the list up to the increment of m_size. */
  lemma AccountedInsert<K(!new)>(s: State<K>, t: nat)
    requires Accounted(s) && t < |s.threads|
    requires s.threads[t].Missed? || s.threads[t].FirstErase? || s.threads[t].Push? || s.threads[t].Count?
    ensures Accounted(Advance(s, t))
  {
    AccountedBy(s, Advance(s, t), t, Advance(s, t).threads[t]);
  }

  /** The compare-and-exchange and the second eviction. */
  lemma AccountedShrink<K(!new)>(s: State<K>, t: nat)
    requires Accounted(s) && t < |s.threads|
    requires s.threads[t].Check? || s.threads[t].SecondEvict? || s.threads[t].SecondErase?
    ensures Accounted(Advance(s, t))
  {
    AccountedBy(s, Advance(s, t), t, Advance(s, t).threads[t]);
  }

  lemma AccountedStep<K(!new)>(s: State<K>, m: Move<K>)
    requires Placed(s) && Accounted(s)
    ensures Accounted(Step(s, m))
  {
    if m.t < |s.threads| {
      match s.threads[m.t]
      case Idle => AccountedStart(s, m.t, m.call);
      case Touch(_) => AccountedTouch(s, m.t);
      case Inserted(_) => AccountedLoad(s, m.t);
      case FirstEvict(_, _) => AccountedFirstEvict(s, m.t);
      case Missed(_) => AccountedInsert(s, m.t);
      case FirstErase(_, _, _) => AccountedInsert(s, m.t);
      case Push(_, _, _) => AccountedInsert(s, m.t);
      case Count(_) => AccountedInsert(s, m.t);
      case _ => AccountedShrink(s, m.t);
    }
  }

  lemma PlacedStep<K(!new)>(s: State<K>, m: Move<K>)
    requires Placed(s)
    ensures Placed(Step(s, m))
  {
    if m.t < |s.threads| {
      if s.threads[m.t].Idle? {
        PlacedStart(s, m.t, m.call);
      } else {
        PlacedAdvance(s, m.t);
      }
    }
  }

  lemma {:induction false} InvariantOverRuns<K(!new)>(s: State<K>, moves: seq<Move<K>>)
    requires Placed(s) && Accounted(s)
    ensures Placed(Run(s, moves)) && Accounted(Run(s, moves))
    ensures Run(s, moves).maxSize == s.maxSize && |Run(s, moves).threads| == |s.threads|
    decreases moves
  {
    if moves != [] {
      AccountedStep(s, moves[0]);
      PlacedStep(s, moves[0]);
      InvariantOverRuns(Step(s, moves[0]), moves[1..]);
    }
  }

  lemma InvariantFromInit<K(!new)>(maxSize: nat, threadCount: nat, moves: seq<Move<K>>)
    requires threadCount >= 1
    ensures var s := Run(Init(maxSize, threadCount), moves);
      Placed(s) && Accounted(s) && s.maxSize == maxSize && |s.threads| == threadCount
  {
    var s := Init<K>(maxSize, threadCount);
    SumZero(s.threads, Balance);
    SumZero(s.threads, Filling);
    SumZero(s.threads, Coming);
    InvariantOverRuns(s, moves);
  }

  // ---------------------------------------------------------------- theorems over every run

  ghost function ListKeys<K(!new)>(s: State<K>): set<K> {
    set n | n in Elements(s.list) :: n.key
  }

  ghost function UnpushedKeys<K(!new)>(s: State<K>): set<K> {
    set t, n | 0 <= t < |s.threads| && n in Unpushed(s.threads[t]) :: n.key
  }

  ghost function UnerasedKeys<K(!new)>(s: State<K>): set<K> {
    set t, n | 0 <= t < |s.threads| && n in Unerased(s.threads[t]) :: n.key
  }

  /** At every moment the map's keys are the keys in the list, those mapped but not yet pushed, and
      those delinked but not yet erased; no key is counted twice. */
  lemma MapKeysArePartitioned<K(!new)>(maxSize: nat, threadCount: nat, moves: seq<Move<K>>)
    requires threadCount >= 1
    ensures var s := Run(Init(maxSize, threadCount), moves);
      && s.map_.Keys == ListKeys(s) + UnpushedKeys(s) + UnerasedKeys(s)
      && ListKeys(s) !! UnpushedKeys(s) !! UnerasedKeys(s)
  {
    InvariantFromInit(maxSize, threadCount, moves);
    var s := Run(Init(maxSize, threadCount), moves);
    forall k | k in s.map_ ensures k in ListKeys(s) + UnpushedKeys(s) + UnerasedKeys(s) {
      var n := s.map_[k];
      if n !in Elements(s.list) {
        var t :| 0 <= t < |s.threads| && n in Held(s.threads[t]);
        assert n in Unpushed(s.threads[t]) || n in Unerased(s.threads[t]);
      }
    }
    PlacesAreDisjoint(s);
  }

  lemma PlacesAreDisjoint<K(!new)>(s: State<K>)
    requires Placed(s)
    ensures ListKeys(s) + UnpushedKeys(s) + UnerasedKeys(s) <= s.map_.Keys
    ensures ListKeys(s) !! UnpushedKeys(s) !! UnerasedKeys(s)
  {
    forall k | k in UnpushedKeys(s) ensures k in s.map_ && k !in ListKeys(s) {
      var t, n :| 0 <= t < |s.threads| && n in Unpushed(s.threads[t]) && n.key == k;
      assert n in Held(s.threads[t]);
      assert InMap(s.map_, n);
    }
    forall k | k in UnerasedKeys(s) ensures k in s.map_ && k !in ListKeys(s) && k !in UnpushedKeys(s) {
      var t, n :| 0 <= t < |s.threads| && n in Unerased(s.threads[t]) && n.key == k;
      assert n in Held(s.threads[t]);
      assert InMap(s.map_, n);
      forall u, n' | 0 <= u < |s.threads| && n' in Unpushed(s.threads[u]) ensures n'.key != k {
        assert n' in Held(s.threads[u]);
        assert InMap(s.map_, n');
        assert u != t ==> Held(s.threads[u]) !! Held(s.threads[t]);
      }
    }
  }

  /** The lookup before an erase never fails, so evict() never takes its early return. */
  lemma EraseAlwaysFindsItsEntry<K(!new)>(maxSize: nat, threadCount: nat, moves: seq<Move<K>>, t: nat)
    requires t < threadCount
    ensures var s := Run(Init(maxSize, threadCount), moves);
      t < |s.threads| && (s.threads[t].FirstErase? || s.threads[t].SecondErase? ==> InMap(s.map_, s.threads[t].victim))
  {
    InvariantFromInit(maxSize, threadCount, moves);
    var s := Run(Init(maxSize, threadCount), moves);
    if s.threads[t].FirstErase? || s.threads[t].SecondErase? {
      assert s.threads[t].victim in Held(s.threads[t]);
    }
  }

  /** List length against m_size, and how far either can pass the maximum. */
  lemma SizesUnderContention<K(!new)>(maxSize: nat, threadCount: nat, moves: seq<Move<K>>)
    requires threadCount >= 1
    ensures var s := Run(Init(maxSize, threadCount), moves);
      && |s.list| == s.size + Sum(s.threads, Balance) + s.failed
      && s.size <= maxSize + threadCount - 1
      && |s.list| <= Max(1, maxSize) + threadCount - 1
      && (s.failed > 0 ==> s.size >= maxSize)
  {
    InvariantFromInit(maxSize, threadCount, moves);
    var s := Run(Init(maxSize, threadCount), moves);
    SumOfBits(s.threads, Filling);
    SumOfBits(s.threads, Coming);
  }

  ghost predicate Quiescent<K>(s: State<K>) {
    forall t :: 0 <= t < |s.threads| ==> s.threads[t].Idle?
  }

  lemma {:induction false} DistinctKeys<K(!new)>(nodes: set<Node<K>>)
    requires forall a, b :: a in nodes && b in nodes && a.key == b.key ==> a == b
    ensures |set n | n in nodes :: n.key| == |nodes|
  {
    var keys := set n | n in nodes :: n.key;
    if nodes == {} {
      assert keys == {};
    } else {
      var node :| node in nodes;
      var rest := nodes - {node};
      var restKeys := set n | n in rest :: n.key;
      assert keys == restKeys + {node.key};
      DistinctKeys(rest);
    }
  }

  lemma QuiescentPlaces<K(!new)>(s: State<K>)
    requires Placed(s) && Quiescent(s)
    ensures s.map_.Keys == ListKeys(s) && |s.map_| == |s.list|
  {
    forall k | k in s.map_ ensures s.map_[k] in Elements(s.list) {
      assert forall t :: 0 <= t < |s.threads| ==> Held(s.threads[t]) == {};
    }
    PlacesAreDisjoint(s);
    assert s.map_.Keys == ListKeys(s);
    DistinctSize(s.list);
    DistinctKeys(Elements(s.list));
    assert |s.map_| == |s.map_.Keys|;
  }

  /** Once every call has returned, list and map hold the same entries; m_size misses exactly the
      evictions that took nothing, and the overfill is at most one entry per extra thread. */
  lemma QuiescentSizes<K(!new)>(maxSize: nat, threadCount: nat, moves: seq<Move<K>>)
    requires threadCount >= 1 && Quiescent(Run(Init<K>(maxSize, threadCount), moves))
    ensures var s := Run(Init(maxSize, threadCount), moves);
      && s.map_.Keys == ListKeys(s)
      && |s.map_| == |s.list| == s.size + s.failed <= Max(1, maxSize) + threadCount - 1
  {
    SizesUnderContention(maxSize, threadCount, moves);
    InvariantFromInit(maxSize, threadCount, moves);
    var s := Run(Init(maxSize, threadCount), moves);
    SumZero(s.threads, Balance);
    QuiescentPlaces(s);
  }
}
