/** Sequences without repetitions, as recency lists are. */
module Seqs {

  ghost predicate Distinct<T>(s: seq<T>) {
    forall i, j :: 0 <= i < j < |s| ==> s[i] != s[j]
  }

  ghost function Elements<T>(s: seq<T>): set<T> {
    set x | x in s
  }

  function Last<T>(s: seq<T>): T
    requires s != []
  {
    s[|s| - 1]
  }

  /** The sequence without the first occurrence of x. */
  function Remove<T(==)>(s: seq<T>, x: T): seq<T> {
    if s == [] then []
    else if s[0] == x then s[1..]
    else [s[0]] + Remove(s[1..], x)
  }

  function Take<T>(s: seq<T>, n: nat): seq<T> {
    if n < |s| then s[..n] else s
  }

  lemma ElementsAppend<T>(a: seq<T>, b: seq<T>)
    ensures Elements(a + b) == Elements(a) + Elements(b)
  {
  }

  lemma DistinctCons<T>(x: T, s: seq<T>)
    requires x !in Elements(s) && Distinct(s)
    ensures Distinct([x] + s) && Elements([x] + s) == {x} + Elements(s)
  {
    assert forall i :: 0 <= i < |s| ==> s[i] in s;
    ElementsAppend([x], s);
  }

  lemma DistinctTail<T>(s: seq<T>)
    requires s != [] && Distinct(s)
    ensures Distinct(s[1..]) && s[0] !in Elements(s[1..]) && Elements(s) == {s[0]} + Elements(s[1..])
  {
    assert s == [s[0]] + s[1..];
    ElementsAppend([s[0]], s[1..]);
  }

  lemma DistinctDropLast<T>(s: seq<T>, init: seq<T>)
    requires s != [] && Distinct(s) && init == s[..|s| - 1]
    ensures Distinct(init) && Last(s) !in Elements(init) && Elements(s) == Elements(init) + {Last(s)}
  {
    assert s == init + [Last(s)];
    ElementsAppend(init, [Last(s)]);
  }

  lemma {:induction false} DistinctRemove<T>(s: seq<T>, x: T)
    requires Distinct(s)
    ensures Distinct(Remove(s, x)) && Elements(Remove(s, x)) == Elements(s) - {x}
    ensures |Remove(s, x)| == if x in Elements(s) then |s| - 1 else |s|
  {
    if s != [] {
      DistinctTail(s);
      if s[0] != x {
        DistinctRemove(s[1..], x);
        DistinctCons(s[0], Remove(s[1..], x));
      }
    }
  }

  /** Moving an element to the front keeps what a list without repetitions holds. */
  lemma DistinctTouch<T>(s: seq<T>, x: T)
    requires Distinct(s) && x in Elements(s)
    ensures Distinct([x] + Remove(s, x)) && Elements([x] + Remove(s, x)) == Elements(s)
    ensures |[x] + Remove(s, x)| == |s|
  {
    DistinctRemove(s, x);
    DistinctCons(x, Remove(s, x));
  }

  lemma {:induction false} DistinctSize<T>(s: seq<T>)
    requires Distinct(s)
    ensures |Elements(s)| == |s|
  {
    if s != [] {
      DistinctTail(s);
      DistinctSize(s[1..]);
    }
  }

  lemma {:induction false} RemoveAbsent<T>(s: seq<T>, x: T)
    requires x !in Elements(s)
    ensures Remove(s, x) == s
  {
    if s != [] {
      assert s[0] in s && forall y :: y in s[1..] ==> y in s;
      RemoveAbsent(s[1..], x);
    }
  }

  lemma {:induction false} RemoveAt<T>(s: seq<T>, i: nat)
    requires i < |s| && forall j :: 0 <= j < i ==> s[j] != s[i]
    ensures Remove(s, s[i]) == s[..i] + s[i + 1..]
  {
    if i > 0 {
      RemoveAt(s[1..], i - 1);
      assert s[..i] == [s[0]] + s[1..][..i - 1] && s[1..][i..] == s[i + 1..];
    }
  }

  lemma {:induction false} RemoveSplit<T>(a: seq<T>, b: seq<T>, x: T)
    ensures Remove(a + b, x) == if x in a then Remove(a, x) + b else a + Remove(b, x)
  {
    if a == [] {
      assert a + b == b;
    } else {
      assert (a + b)[0] == a[0] && (a + b)[1..] == a[1..] + b;
      RemoveSplit(a[1..], b, x);
      assert a == [a[0]] + a[1..];
    }
  }
}
