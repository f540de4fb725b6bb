/** The cache as the code builds it: a hash map onto nodes of a doubly linked list with two
    sentinels, relinked in place. Every operation is proved to do to the list and the map what
    LruSpec.Step does to recency order and counters. */
module LruCache {
  import opened Seqs
  import LruSpec

  class ListNode<K(0)> {
    const key: K
    var prev: ListNode?<K>
    var next: ListNode?<K>

    constructor (key: K)
      ensures this.key == key && prev == null && next == null
    {
      this.key := key;
      prev, next := null, null;
    }

    constructor Sentinel()
      ensures prev == null && next == null
    {
      prev, next := null, null;
    }
  }

  datatype HashMapValue<K(0)> = HashMapValue(value: int, node: ListNode<K>)

  ghost function KeysOf<K(0)>(nodes: seq<ListNode<K>>): seq<K> {
    seq(|nodes|, i requires 0 <= i < |nodes| => nodes[i].key)
  }

  ghost function ValuesOf<K(0)>(m: map<K, HashMapValue<K>>): map<K, int> {
    map k | k in m :: m[k].value
  }

  /** The map and the list hold the same nodes, each under its own key. */
  ghost predicate Matches<K(0,!new)>(m: map<K, HashMapValue<K>>, nodes: seq<ListNode<K>>) {
    && (forall n :: n in nodes ==> n.key in m && m[n.key].node == n)
    && (forall k :: k in m ==> m[k].node in nodes && m[k].node.key == k)
  }

  lemma KeysAreDistinct<K(0,!new)>(m: map<K, HashMapValue<K>>, nodes: seq<ListNode<K>>)
    requires Matches(m, nodes) && Distinct(nodes)
    ensures Distinct(KeysOf(nodes))
  {
    forall i, j | 0 <= i < j < |nodes| ensures nodes[i].key != nodes[j].key {
      assert nodes[i] in nodes && nodes[j] in nodes;
    }
    forall k | k in m ensures k in KeysOf(nodes) {
      var i :| 0 <= i < |nodes| && nodes[i] == m[k].node;
      assert KeysOf(nodes)[i] == k;
    }
  }

  lemma MatchesDropLast<K(0,!new)>(m: map<K, HashMapValue<K>>, nodes: seq<ListNode<K>>, init: seq<ListNode<K>>)
    requires Matches(m, nodes) && Distinct(nodes) && nodes != [] && init == nodes[..|nodes| - 1]
    ensures Matches(m - {Last(nodes).key}, init)
  {
    var last := Last(nodes);
    assert nodes == init + [last] && last !in init && last in nodes;
    forall n | n in init ensures n.key != last.key {
      assert n in nodes;
    }
  }

  lemma MatchesCons<K(0,!new)>(m: map<K, HashMapValue<K>>, nodes: seq<ListNode<K>>, node: ListNode<K>, value: int)
    requires Matches(m, nodes) && node.key !in m
    ensures Matches(m[node.key := HashMapValue(value, node)], [node] + nodes)
    ensures ValuesOf(m[node.key := HashMapValue(value, node)]) == ValuesOf(m)[node.key := value]
    ensures KeysOf([node] + nodes) == [node.key] + KeysOf(nodes)
  {
  }

  lemma ContentsDropLast<K(0)>(m: map<K, HashMapValue<K>>, nodes: seq<ListNode<K>>)
    requires nodes != []
    ensures KeysOf(nodes[..|nodes| - 1]) == KeysOf(nodes)[..|nodes| - 1]
    ensures Last(KeysOf(nodes)) == Last(nodes).key
    ensures ValuesOf(m - {Last(nodes).key}) == ValuesOf(m) - {Last(nodes).key}
  {
  }

  /** List and map after insert() has added `node` to a cache with room for `room` entries. */
  ghost function NodesAfter<K(0)>(nodes: seq<ListNode<K>>, node: ListNode<K>, full: bool): seq<ListNode<K>>
    requires full ==> nodes != []
  {
    [node] + if full then nodes[..|nodes| - 1] else nodes
  }

  lemma NodesAfterKeeps<K(0)>(nodes: seq<ListNode<K>>, node: ListNode<K>, full: bool)
    requires full ==> nodes != []
    ensures forall n :: n in NodesAfter(nodes, node, full) ==> n == node || n in nodes
    ensures |NodesAfter(nodes, node, full)| == if full then |nodes| else |nodes| + 1
  {
  }

  ghost function MapAfter<K(0)>(m: map<K, HashMapValue<K>>, nodes: seq<ListNode<K>>, node: ListNode<K>, value: int,
                                full: bool): map<K, HashMapValue<K>>
    requires full ==> nodes != []
  {
    var added := m[node.key := HashMapValue(value, node)];
    if full then added - {Last(nodes).key} else added
  }

  lemma InsertRefines<K(0,!new)>(m: map<K, HashMapValue<K>>, nodes: seq<ListNode<K>>, node: ListNode<K>, value: int,
                                 room: nat, full: bool)
    requires Matches(m, nodes) && Distinct(nodes) && node.key !in m && room >= 1
    requires full <==> nodes != [] && |nodes| >= room
    ensures var m', nodes' := MapAfter(m, nodes, node, value, full), NodesAfter(nodes, node, full);
      && Matches(m', nodes')
      && LruSpec.Cache(KeysOf(nodes'), ValuesOf(m'))
         == LruSpec.Add(LruSpec.Cache(KeysOf(nodes), ValuesOf(m)), node.key, value, room)
  {
    if full {
      var last, init := Last(nodes), nodes[..|nodes| - 1];
      assert last in nodes;
      MatchesDropLast(m, nodes, init);
      ContentsDropLast(m, nodes);
      MatchesCons(m - {last.key}, init, node, value);
      assert MapAfter(m, nodes, node, value, full) == (m - {last.key})[node.key := HashMapValue(value, node)];
    } else {
      MatchesCons(m, nodes, node, value);
    }
  }

  /** The i-th element moved to the front, as delink and pushFront leave it. */
  ghost function ToFront<T>(s: seq<T>, i: nat): seq<T>
    requires i < |s|
  {
    [s[i]] + (s[..i] + s[i + 1..])
  }

  lemma ToFrontKeeps<T>(s: seq<T>, i: nat)
    requires i < |s|
    ensures |ToFront(s, i)| == |s| && forall x :: x in ToFront(s, i) <==> x in s
  {
    assert s == s[..i] + [s[i]] + s[i + 1..];
  }

  lemma KeysToFront<K(0)>(nodes: seq<ListNode<K>>, i: nat)
    requires i < |nodes| && Distinct(KeysOf(nodes))
    ensures KeysOf(ToFront(nodes, i)) == [nodes[i].key] + Remove(KeysOf(nodes), nodes[i].key)
  {
    RemoveAt(KeysOf(nodes), i);
  }

  class LruCache<K(==,0,!new)> {
    const maxSize: nat
    var size: nat
    var map_: map<K, HashMapValue<K>>
    const head: ListNode<K>
    const tail: ListNode<K>
    /** The nodes between the sentinels, most recently used first. */
    ghost var nodes: seq<ListNode<K>>

    ghost function Chain(): seq<ListNode<K>>
      reads this
    {
      [head] + nodes + [tail]
    }

    /** The pointers spell out Chain() in both directions. */
    ghost predicate Linked()
      reads this, head, tail, nodes
    {
      && Distinct(Chain())
      && head.prev == null && tail.next == null
      && (forall i :: 0 <= i <= |nodes| ==> Chain()[i].next == Chain()[i + 1] && Chain()[i + 1].prev == Chain()[i])
    }

    ghost predicate Valid()
      reads this, head, tail, nodes
    {
      && Linked() && Matches(map_, nodes)
      && |nodes| <= LruSpec.Room(maxSize)
      && size == (if maxSize == 0 then 0 else |nodes|)
    }

    ghost function Contents(): LruSpec.Cache<K>
      reads this
    {
      LruSpec.Cache(KeysOf(nodes), ValuesOf(map_))
    }

    constructor (maxSize: nat)
      ensures Valid() && this.maxSize == maxSize && Contents() == LruSpec.Empty() && nodes == []
      ensures fresh(head) && fresh(tail)
    {
      this.maxSize := maxSize;
      size, map_ := 0, map[];
      head := new ListNode<K>.Sentinel();
      tail := new ListNode<K>.Sentinel();
      nodes := [];
      new;
      head.next, tail.prev := tail, head;
    }

    /** Unlinks the i-th node; its own `next` keeps pointing into the list. */
    method Delink(node: ListNode<K>, ghost i: nat)
      requires Linked() && i < |nodes| && nodes[i] == node
      modifies this`nodes, head, tail, nodes
      ensures Linked() && nodes == old(nodes)[..i] + old(nodes)[i + 1..] && node.prev == null
      ensures node !in Chain()
    {
      ghost var before := Chain();
      assert before[i + 1] == node;
      assert before[i].next == node && before[i + 1].prev == before[i];
      assert before[i + 1].next == before[i + 2] && before[i + 2].prev == node;
      var prev, next := node.prev, node.next;
      prev.next := next;
      next.prev := prev;
      node.prev := null;
      nodes := nodes[..i] + nodes[i + 1..];
      assert before[0] != before[i + 1];
      ghost var after := Chain();
      assert forall j :: 0 <= j < |after| ==> after[j] == if j <= i then before[j] else before[j + 1];
      forall j, k | 0 <= j < k < |after| ensures after[j] != after[k] && after[k] != node {
        assert before[if j <= i then j else j + 1] != before[if k <= i then k else k + 1];
      }
      assert after[0] != node && forall k :: 0 <= k < |after| ==> after[k] != node;
      forall j | 0 <= j <= |nodes| ensures after[j].next == after[j + 1] && after[j + 1].prev == after[j] {
        if j != i {
          var k := if j < i then j else j + 1;
          assert before[k] == after[j] && before[k + 1] == after[j + 1];
        }
      }
    }

    method PushFront(node: ListNode<K>)
      requires Linked() && node !in Chain()
      modifies this`nodes, head, tail, nodes, node
      ensures Linked() && nodes == [node] + old(nodes)
    {
      ghost var before := Chain();
      assert before[0].next == before[1] && before[1].prev == before[0];
      var oldRealHead := head.next;
      node.prev := head;
      node.next := oldRealHead;
      oldRealHead.prev := node;
      head.next := node;
      nodes := [node] + nodes;
      assert Chain() == [head, node] + before[1..];
    }

    /** Evicts the least recently used node, unless the list is empty or that node is the caller's own. */
    method Evict(key: K)
      requires Linked()
      modifies this`nodes, this`map_, head, tail, nodes
      ensures Linked()
      ensures var n := |old(nodes)|;
        if n == 0 || old(nodes)[n - 1].key == key then nodes == old(nodes) && map_ == old(map_)
        else nodes == old(nodes)[..n - 1] && map_ == old(map_) - {old(nodes)[n - 1].key}
    {
      var moribund := tail.prev;
      ghost var n := |nodes|;
      assert Chain()[n + 1] == tail;
      assert Chain()[n].next == Chain()[n + 1] && Chain()[n + 1].prev == Chain()[n];
      if n > 0 {
        assert Chain()[n - 1].next == Chain()[n] && Chain()[n].prev == Chain()[n - 1];
        assert nodes[n - 1] == Chain()[n];
      }
      if moribund.prev == null || moribund.key == key {
        return;
      }
      Delink(moribund, n - 1);
      if moribund.key !in map_ {
        return;
      }
      map_ := map_ - {moribund.key};
    }

    method Relink(node: ListNode<K>, ghost i: nat)
      requires Linked() && i < |nodes| && nodes[i] == node
      modifies this`nodes, head, tail, nodes
      ensures Linked() && nodes == ToFront(old(nodes), i)
    {
      Delink(node, i);
      PushFront(node);
    }

    /** What find() and increase() do to the list: the node of a mapped key moves to the front. */
    method MoveToFront(key: K)
      requires Valid() && key in map_
      modifies this`nodes, head, tail, nodes
      ensures Valid() && Contents() == LruSpec.Touch(old(Contents()), key)
      ensures forall n :: n in nodes <==> n in old(nodes)
    {
      var node := map_[key].node;
      ghost var i :| 0 <= i < |nodes| && nodes[i] == node;
      assert Chain()[i + 1] == node;
      assert Chain()[i].next == Chain()[i + 1] && Chain()[i + 1].prev == Chain()[i];
      Apart();
      KeysAreDistinct(map_, nodes);
      KeysToFront(nodes, i);
      ToFrontKeeps(nodes, i);
      if node.prev != null {
        Relink(node, i);
      }
    }

    method SilentFind(key: K) returns (found: bool, value: int)
      requires Valid()
      ensures found <==> key in Contents().count
      ensures found ==> value == Contents().count[key]
    {
      if key !in map_ {
        return false, 0;
      }
      return true, map_[key].value;
    }

    method Find(key: K) returns (found: bool, value: int)
      requires Valid()
      modifies this`nodes, head, tail, nodes
      ensures Valid() && Contents() == LruSpec.Step(old(Contents()), LruSpec.Find(key), LruSpec.Room(maxSize))
      ensures found <==> key in old(Contents()).count
      ensures found ==> value == old(Contents()).count[key]
      ensures forall n :: n in nodes <==> n in old(nodes)
    {
      if key !in map_ {
        return false, 0;
      }
      found, value := true, map_[key].value;
      MoveToFront(key);
    }

    /** insert() once the hash map has found the key absent. */
    method InsertNew(node: ListNode<K>, value: int)
      requires Valid() && node.key !in map_ && node !in Chain()
      modifies this, head, tail, nodes, node
      ensures Linked()
      ensures var full := old(size) >= maxSize && old(nodes) != [];
        && nodes == NodesAfter(old(nodes), node, full)
        && map_ == MapAfter(old(map_), old(nodes), node, value, full)
      ensures size == if old(size) >= maxSize then old(size) else old(size) + 1
    {
      assert nodes != [] ==> Last(nodes) in nodes;
      map_ := map_[node.key := HashMapValue(value, node)];
      var loaded, evictionDone := size, false;
      if loaded >= maxSize {
        Evict(node.key);
        evictionDone := true;
        assert forall n :: n in nodes ==> n in old(nodes);
      }
      assert node !in Chain();
      PushFront(node);
      if !evictionDone {
        loaded, size := size, size + 1;
      }
      if loaded > maxSize {
        // With one caller at a time m_size never passes the maximum.
        assert false;
      }
    }

    method Insert(key: K, value: int) returns (inserted: bool)
      requires Valid()
      modifies this, head, tail, nodes
      ensures Valid() && Contents() == LruSpec.Step(old(Contents()), LruSpec.Insert(key, value), LruSpec.Room(maxSize))
      ensures inserted <==> key !in old(Contents()).count
      ensures forall n :: n in nodes ==> n in old(nodes) || fresh(n)
    {
      var node := new ListNode<K>(key);
      if key in map_ {
        return false;
      }
      Apart();
      InsertRefines(map_, nodes, node, value, LruSpec.Room(maxSize), size >= maxSize && nodes != []);
      ghost var full := size >= maxSize && nodes != [];
      NodesAfterKeeps(nodes, node, full);
      InsertNew(node, value);
      return true;
    }

    method Increase(key: K, value: int) returns (existed: bool)
      requires Valid()
      modifies this, head, tail, nodes
      ensures Valid()
      ensures Contents() == LruSpec.Step(old(Contents()), LruSpec.Increase(key, value), LruSpec.Room(maxSize))
      ensures existed <==> key in old(Contents()).count
      ensures forall n :: n in nodes ==> n in old(nodes) || fresh(n)
    {
      if key !in map_ {
        var inserted := Insert(key, value);
        return false;
      }
      ghost var was := Contents();
      map_ := map_[key := map_[key].(value := map_[key].value + value)];
      assert Contents() == was.(count := was.count[key := was.count[key] + value]);
      MoveToFront(key);
      return true;
    }

    method Clear()
      requires Valid()
      modifies this, head, tail, nodes
      ensures Valid() && Contents() == LruSpec.Step(old(Contents()), LruSpec.Clear, LruSpec.Room(maxSize))
      ensures nodes == []
      ensures forall n :: n in old(nodes) ==> n.prev == null && n.next == null
    {
      map_ := map[];
      Apart();
      Unchain();
      head.next := tail;
      tail.prev := head;
      nodes := [];
      size := 0;
    }

    /** The loop of clear(): it reaches the tail sentinel, the only node without a successor. */
    method Unchain()
      requires Linked()
      modifies nodes
      ensures forall n :: n in nodes ==> n.prev == null && n.next == null
    {
      ghost var chain := Chain();
      assert chain[0].next == chain[1];
      var node := head.next;
      ghost var i := 0;
      while node.next != null
        invariant 0 <= i <= |nodes| && node == chain[i + 1]
        invariant forall j :: i < j <= |nodes| ==> chain[j].next == chain[j + 1]
        invariant forall j :: 0 < j <= i ==> chain[j].prev == null && chain[j].next == null
        invariant chain[|nodes| + 1].next == null && (i < |nodes| ==> node.next == chain[i + 2])
        decreases |nodes| - i
      {
        var next := node.next;
        assert chain[i + 1] == nodes[i];
        node.prev := null;
        node.next := null;
        node := next;
        i := i + 1;
      }
      if i < |nodes| {
        assert false;
      }
      assert forall j :: 0 <= j < |nodes| ==> nodes[j] == chain[j + 1];
    }

    lemma Apart()
      requires Linked()
      ensures head != tail && head !in nodes && tail !in nodes && Distinct(nodes)
    {
      assert Chain()[0] != Chain()[|nodes| + 1];
      assert forall j :: 0 <= j < |nodes| ==> nodes[j] == Chain()[j + 1];
    }

    /** Appends the keys from most to least recently used. */
    method SnapshotKeys(keys: seq<K>) returns (all: seq<K>)
      requires Valid()
      ensures all == keys + Contents().keys
    {
      all := keys;
      var node := head.next;
      assert Chain()[0].next == Chain()[1];
      ghost var i := 0;
      while node != tail
        invariant 0 <= i <= |nodes| && node == Chain()[i + 1]
        invariant all == keys + KeysOf(nodes)[..i]
        decreases |nodes| - i
      {
        assert Chain()[i + 1] == nodes[i] && Chain()[i + 1].next == Chain()[i + 2];
        all := all + [node.key];
        node := node.next;
        i := i + 1;
      }
      assert Chain()[|nodes| + 1] == tail;
    }
  }
}
