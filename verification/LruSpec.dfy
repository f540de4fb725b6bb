/** What the LRU cache is for, on values: the keys by recency and a counter for each. */
module LruSpec {
  import opened Seqs

  /** `keys` runs from most to least recently used. */
  datatype Cache<K> = Cache(keys: seq<K>, count: map<K, int>)

  datatype Op<K> =
    | Find(key: K)
    | SilentFind(key: K)
    | Increase(key: K, value: int)
    | Insert(key: K, value: int)
    | Clear

  function Empty<K(==)>(): Cache<K> {
    Cache([], map[])
  }

  ghost predicate Wf<K>(c: Cache<K>) {
    Distinct(c.keys) && Elements(c.keys) == c.count.Keys
  }

  /** A cache of maximum size 0 still holds one entry: its first eviction finds an empty list. */
  function Room(maxSize: nat): nat {
    if maxSize == 0 then 1 else maxSize
  }

  function Touch<K(==)>(c: Cache<K>, key: K): Cache<K> {
    c.(keys := [key] + Remove(c.keys, key))
  }

  /** Drops the least recently used entry when there is no room for one more. */
  function Evict<K(==)>(c: Cache<K>, room: nat): Cache<K> {
    if c.keys == [] || |c.keys| < room then c
    else Cache(c.keys[..|c.keys| - 1], c.count - {Last(c.keys)})
  }

  function Add<K(==)>(c: Cache<K>, key: K, value: int, room: nat): Cache<K> {
    var e := Evict(c, room);
    Cache([key] + e.keys, e.count[key := value])
  }

  function Step<K(==)>(c: Cache<K>, op: Op<K>, room: nat): Cache<K> {
    match op
    case Find(key) => if key in c.count then Touch(c, key) else c
    case SilentFind(_) => c
    case Increase(key, value) =>
      if key in c.count then Touch(c.(count := c.count[key := c.count[key] + value]), key)
      else Add(c, key, value, room)
    case Insert(key, value) => if key in c.count then c else Add(c, key, value, room)
    case Clear => Empty()
  }

  function Run<K(==)>(c: Cache<K>, ops: seq<Op<K>>, room: nat): Cache<K>
    decreases |ops|
  {
    if ops == [] then c else Step(Run(c, ops[..|ops| - 1], room), Last(ops), room)
  }

  // ---------------------------------------------------------------- recency

  /** The keys touched since the last clear, newest first: a successful find, an increase, or an
      insert of a new key touches its key. */
  function Touched<K(==)>(ops: seq<Op<K>>, room: nat): seq<K>
    decreases |ops|
  {
    if ops == [] then []
    else
      var before, c := Touched(ops[..|ops| - 1], room), Run(Empty(), ops[..|ops| - 1], room);
      match Last(ops)
      case Find(key) => if key in c.count then [key] + before else before
      case SilentFind(_) => before
      case Increase(key, _) => [key] + before
      case Insert(key, _) => if key in c.count then before else [key] + before
      case Clear => []
  }

  /** Each key of a newest-first history once, at its latest touch. */
  function ByRecency<K(==)>(history: seq<K>): seq<K> {
    if history == [] then []
    else [history[0]] + Remove(ByRecency(history[1..]), history[0])
  }

  lemma {:induction false} ByRecencyDistinct<K>(history: seq<K>)
    ensures Distinct(ByRecency(history)) && Elements(ByRecency(history)) == Elements(history)
  {
    if history != [] {
      ByRecencyDistinct(history[1..]);
      DistinctRemove(ByRecency(history[1..]), history[0]);
      DistinctCons(history[0], Remove(ByRecency(history[1..]), history[0]));
      assert history == [history[0]] + history[1..];
      ElementsAppend([history[0]], history[1..]);
    }
  }

  lemma TakeCons<K>(x: K, s: seq<K>, n: nat)
    requires n >= 1
    ensures Take([x] + s, n) == [x] + Take(s, n - 1)
  {
  }

  /** Removing a key before or after cutting the list down to size. */
  lemma {:induction false} TakeRemove<K>(s: seq<K>, k: K, room: nat)
    requires room >= 1 && Distinct(s)
    ensures if k in Take(s, room) then Remove(Take(s, room), k) == Take(Remove(s, k), room - 1)
            else Take(Remove(s, k), room - 1) == Take(s, room - 1)
  {
    if s != [] {
      DistinctTail(s);
      assert s == [s[0]] + s[1..];
      TakeCons(s[0], s[1..], room);
      if s[0] == k {
        assert Take(s, room)[0] == k && Take(s, room)[1..] == Take(s[1..], room - 1);
      } else if room > 1 {
        TakeRemove(s[1..], k, room - 1);
        TakeCons(s[0], s[1..], room - 1);
        TakeCons(s[0], Remove(s[1..], k), room - 1);
        assert ([s[0]] + Take(s[1..], room - 1))[1..] == Take(s[1..], room - 1);
      }
    }
  }

  lemma AddIsWf<K>(c: Cache<K>, key: K, value: int, room: nat)
    requires Wf(c) && |c.keys| <= room && room >= 1 && key !in c.count
    ensures Wf(Evict(c, room)) && Wf(Add(c, key, value, room)) && |Add(c, key, value, room).keys| <= room
  {
    var e := Evict(c, room);
    if e != c {
      DistinctDropLast(c.keys, e.keys);
    }
    DistinctCons(key, e.keys);
  }

  lemma StepIsWf<K>(c: Cache<K>, op: Op<K>, room: nat)
    requires Wf(c) && |c.keys| <= room && room >= 1
    ensures Wf(Step(c, op, room)) && |Step(c, op, room).keys| <= room
  {
    if (op.Find? || op.Increase?) && op.key in c.count {
      DistinctTouch(c.keys, op.key);
    } else if (op.Increase? || op.Insert?) && op.key !in c.count {
      AddIsWf(c, op.key, op.value, room);
    }
  }

  lemma {:induction false} RunIsWf<K>(ops: seq<Op<K>>, room: nat)
    requires room >= 1
    ensures Wf(Run(Empty(), ops, room)) && |Run(Empty(), ops, room).keys| <= room
    decreases |ops|
  {
    if ops != [] {
      RunIsWf(ops[..|ops| - 1], room);
      StepIsWf(Run(Empty(), ops[..|ops| - 1], room), Last(ops), room);
    }
  }

  /** One touch, seen from the full recency order and from the part of it that fits. */
  lemma TouchRefines<K>(c: Cache<K>, order: seq<K>, key: K, room: nat)
    requires room >= 1 && Wf(c) && Distinct(order) && c.keys == Take(order, room)
    ensures Take([key] + Remove(order, key), room)
         == [key] + if key in c.count then Remove(c.keys, key) else Evict(c, room).keys
  {
    TakeRemove(order, key, room);
    TakeCons(key, Remove(order, key), room);
    assert key in c.count <==> key in Elements(c.keys);
    if key !in c.count {
      assert Evict(c, room).keys == Take(order, room - 1);
    }
  }

  /** After any run the cache holds exactly the `room` most recently touched keys, in that order. */
  lemma {:induction false} HoldsMostRecent<K>(ops: seq<Op<K>>, room: nat)
    requires room >= 1
    ensures Run(Empty(), ops, room).keys == Take(ByRecency(Touched(ops, room)), room)
    decreases |ops|
  {
    if ops != [] {
      var before, op := ops[..|ops| - 1], Last(ops);
      var history := Touched(before, room);
      HoldsMostRecent(before, room);
      RunIsWf(before, room);
      ByRecencyDistinct(history);
      if !op.SilentFind? && !op.Clear? {
        TouchRefines(Run(Empty(), before, room), ByRecency(history), op.key, room);
        assert ([op.key] + history)[1..] == history;
      }
    }
  }

  /** Position of the newest touch of k. */
  function Newest<K(==)>(history: seq<K>, k: K): nat
    requires k in history
    ensures Newest(history, k) < |history| && history[Newest(history, k)] == k && k !in history[..Newest(history, k)]
  {
    if history[0] == k then 0
    else
      var n := Newest(history[1..], k);
      assert history[..n + 1] == [history[0]] + history[1..][..n];
      n + 1
  }

  lemma DistinctPrefix<K>(s: seq<K>, a: seq<K>, b: seq<K>)
    requires Distinct(s) && s == a + b
    ensures Distinct(a) && forall x :: x in Elements(a) ==> x !in Elements(b)
  {
    assert forall i :: 0 <= i < |a| ==> a[i] == s[i];
    assert forall i :: 0 <= i < |b| ==> b[i] == s[|a| + i];
  }

  lemma TouchSplit<K>(a: seq<K>, b: seq<K>, k: K, first: K)
    requires first != k && Distinct(a + ([k] + b))
    ensures [first] + Remove(a + ([k] + b), first)
         == ([first] + Remove(a, first)) + ([k] + if first in a then b else Remove(b, first))
    ensures Elements([first] + Remove(a, first)) == {first} + Elements(a)
  {
    DistinctPrefix(a + ([k] + b), a, [k] + b);
    RemoveSplit(a, [k] + b, first);
    DistinctRemove(a, first);
    ElementsAppend([first], Remove(a, first));
    if first !in a {
      RemoveAbsent(a, first);
      assert ([k] + b)[1..] == b;
    }
  }

  /** In recency order a key stands right behind the keys touched after it. */
  lemma {:induction false} RecencySplit<K>(history: seq<K>, k: K) returns (a: seq<K>, b: seq<K>)
    requires k in history
    ensures ByRecency(history) == a + ([k] + b) && Elements(a) == Elements(history[..Newest(history, k)])
  {
    var first, rest, n := history[0], history[1..], Newest(history, k);
    if first == k {
      a, b := [], Remove(ByRecency(rest), first);
    } else {
      var a', b' := RecencySplit(rest, k);
      ByRecencyDistinct(rest);
      TouchSplit(a', b', k, first);
      a, b := [first] + Remove(a', first), if first in a' then b' else Remove(b', first);
      assert history[..n] == [first] + rest[..n - 1];
      ElementsAppend([first], rest[..n - 1]);
    }
  }

  lemma TakeSplit<K>(a: seq<K>, b: seq<K>, k: K, room: nat)
    requires Distinct(a + ([k] + b))
    ensures k in Take(a + ([k] + b), room) <==> |a| < room
  {
    var s := a + ([k] + b);
    if |a| < room {
      assert Take(s, room)[|a|] == k;
    } else {
      assert forall i :: 0 <= i < room ==> s[i] != s[|a|];
    }
  }

  /** The eviction policy in plain terms: a key is cached iff it was touched since the last clear and
      fewer than `room` other keys were touched after it. */
  lemma CachedIffRecentlyTouched<K>(ops: seq<Op<K>>, room: nat, k: K)
    requires room >= 1
    ensures var history := Touched(ops, room);
      k in Run(Empty(), ops, room).count
      <==> k in history && |Elements(history[..Newest(history, k)])| < room
  {
    var history := Touched(ops, room);
    var order := ByRecency(history);
    HoldsMostRecent(ops, room);
    RunIsWf(ops, room);
    ByRecencyDistinct(history);
    assert k in Run(Empty(), ops, room).count <==> k in Elements(Take(order, room));
    if k in history {
      var a, b := RecencySplit(history, k);
      DistinctPrefix(order, a, [k] + b);
      DistinctSize(a);
      TakeSplit(a, b, k, room);
    } else {
      assert k !in Elements(order);
      assert forall i :: 0 <= i < |Take(order, room)| ==> Take(order, room)[i] == order[i] && order[i] in order;
    }
  }

  // ---------------------------------------------------------------- counters

  /** Everything added to key k since the last clear. */
  function Added<K(==)>(ops: seq<Op<K>>, k: K): int
    decreases |ops|
  {
    if ops == [] then 0
    else
      var before := Added(ops[..|ops| - 1], k);
      match Last(ops)
      case Increase(key, value) => if key == k then before + value else before
      case Clear => 0
      case _ => before
  }

  function Count<K(==)>(c: Cache<K>, k: K): int {
    if k in c.count then c.count[k] else 0
  }

  /** Does this step drop k's counter to make room for another key? */
  predicate Evicts<K(==)>(c: Cache<K>, op: Op<K>, room: nat, k: K) {
    k in c.count && !op.Clear? && k !in Step(c, op, room).count
  }

  predicate EverEvicted<K(==)>(ops: seq<Op<K>>, room: nat, k: K)
    decreases |ops|
  {
    ops != []
    && !Last(ops).Clear?
    && (Evicts(Run(Empty(), ops[..|ops| - 1], room), Last(ops), room, k) || EverEvicted(ops[..|ops| - 1], room, k))
  }

  predicate CountsOnly<K>(ops: seq<Op<K>>) {
    forall i :: 0 <= i < |ops| ==> !ops[i].Insert?
  }

  predicate NonNegative<K>(ops: seq<Op<K>>) {
    forall i :: 0 <= i < |ops| ==> ops[i].Increase? ==> ops[i].value >= 0
  }

  lemma CountStep<K>(c: Cache<K>, op: Op<K>, room: nat, k: K)
    requires Wf(c) && room >= 1 && !op.Insert? && !op.Clear? && !Evicts(c, op, room, k)
    ensures Count(Step(c, op, room), k)
         == Count(c, k) + if op.Increase? && op.key == k then op.value else 0
  {
    if op.Increase? && op.key !in c.count && op.key != k {
      var e := Evict(c, room);
      assert k in c.count ==> k in e.count;
    }
  }

  /** A counter that was never evicted holds all that was added since the last clear. */
  lemma {:induction false} CountExactIfNeverEvicted<K>(ops: seq<Op<K>>, room: nat, k: K)
    requires room >= 1 && CountsOnly(ops) && !EverEvicted(ops, room, k)
    ensures Count(Run(Empty(), ops, room), k) == Added(ops, k)
    decreases |ops|
  {
    if ops != [] && !Last(ops).Clear? {
      RunIsWf(ops[..|ops| - 1], room);
      CountExactIfNeverEvicted(ops[..|ops| - 1], room, k);
      CountStep(Run(Empty(), ops[..|ops| - 1], room), Last(ops), room, k);
    }
  }

  /** Evicted or not, a counter never exceeds what was added, when nothing negative was. */
  lemma {:induction false} CountNeverExceeds<K>(ops: seq<Op<K>>, room: nat, k: K)
    requires room >= 1 && CountsOnly(ops) && NonNegative(ops)
    ensures 0 <= Count(Run(Empty(), ops, room), k) <= Added(ops, k)
    decreases |ops|
  {
    if ops != [] {
      var c, op := Run(Empty(), ops[..|ops| - 1], room), Last(ops);
      RunIsWf(ops[..|ops| - 1], room);
      CountNeverExceeds(ops[..|ops| - 1], room, k);
      if !op.Clear? && !Evicts(c, op, room, k) {
        CountStep(c, op, room, k);
      }
    }
  }
}
