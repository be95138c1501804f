/** Sequence helpers for the java.util.List operations the service relies on. */
module Lists {
  import opened Wrappers

  /** List.indexOf: the first position holding x. */
  function FirstIndex<T(==)>(s: seq<T>, x: T): (r: Option<nat>)
    ensures r.Some? <==> x in s
    ensures r.Some? ==> r.value < |s| && s[r.value] == x
  {
    if |s| == 0 then None
    else if s[0] == x then Some(0)
    else match FirstIndex(s[1..], x)
      case None => None
      case Some(i) => Some(i + 1)
  }

  /** No earlier position holds x. */
  lemma {:induction false} FirstIndexFirst<T>(s: seq<T>, x: T)
    requires x in s
    ensures x !in s[..FirstIndex(s, x).value]
  {
    if s[0] != x {
      assert x in s[1..];
      FirstIndexFirst(s[1..], x);
      var i := FirstIndex(s[1..], x).value;
      assert s[..i + 1] == [s[0]] + s[1..][..i];
    }
  }

  /** List.remove(Object): drops the first occurrence of x only, keeping the order of the rest. */
  function RemoveFirst<T(==)>(s: seq<T>, x: T): (r: seq<T>)
    ensures x !in s ==> r == s
    ensures x in s ==> |r| == |s| - 1
  {
    match FirstIndex(s, x)
    case None => s
    case Some(i) => s[..i] + s[i + 1..]
  }

  /** What List.remove cuts out is the first occurrence of x, and the elements before and after
      it keep their order. */
  lemma RemoveFirstCutsFirst<T>(s: seq<T>, x: T)
    requires x in s
    ensures exists i :: 0 <= i < |s| && s[i] == x && x !in s[..i] && RemoveFirst(s, x) == s[..i] + s[i + 1..]
  {
    var i := FirstIndex(s, x).value;
    FirstIndexFirst(s, x);
    assert RemoveFirst(s, x) == s[..i] + s[i + 1..];
  }

  /** As a multiset, the result is the input with one x taken out. */
  lemma RemoveFirstMultiset<T>(s: seq<T>, x: T)
    ensures multiset(RemoveFirst(s, x)) == multiset(s) - multiset{x}
  {
    match FirstIndex(s, x)
    case None =>
      assert multiset(s)[x] == 0;
      assert multiset(s) - multiset{x} == multiset(s);
    case Some(i) =>
      assert RemoveFirst(s, x) == s[..i] + s[i + 1..];
      DropAtMultiset(s, i);
  }

  /** Dropping the element at position i takes exactly one copy of it out of the multiset. */
  lemma DropAtMultiset<T>(s: seq<T>, i: nat)
    requires i < |s|
    ensures multiset(s[..i] + s[i + 1..]) == multiset(s) - multiset{s[i]}
  {
    assert s == s[..i] + [s[i]] + s[i + 1..];
  }

  /** Removing one occurrence of x leaves every other element's number of occurrences as it was,
      and x itself is gone exactly when it occurred once. */
  lemma RemoveFirstCounts<T>(s: seq<T>, x: T, y: T)
    ensures y != x ==> multiset(RemoveFirst(s, x))[y] == multiset(s)[y]
    ensures x in s ==> multiset(RemoveFirst(s, x))[x] == multiset(s)[x] - 1
    ensures (x in RemoveFirst(s, x)) <==> multiset(s)[x] > 1
  {
    RemoveFirstMultiset(s, x);
    assert x in RemoveFirst(s, x) <==> multiset(RemoveFirst(s, x))[x] > 0;
  }

  /** The elements of s that are Some, in order; the "drop the children that came back null" step. */
  function Somes<T>(s: seq<Option<T>>): (r: seq<T>)
    ensures |r| <= |s|
  {
    if |s| == 0 then []
    else if s[0].Some? then [s[0].value] + Somes(s[1..])
    else Somes(s[1..])
  }

  /** Every element kept came from one of the input's. */
  lemma {:induction false} SomesFrom<T>(s: seq<Option<T>>, i: nat)
    requires i < |Somes(s)|
    ensures Some(Somes(s)[i]) in s
  {
    if s[0].Some? {
      if i > 0 {
        SomesFrom(s[1..], i - 1);
      }
    } else {
      SomesFrom(s[1..], i);
    }
  }

  lemma {:induction false} SomesEmpty<T>(s: seq<Option<T>>)
    ensures Somes(s) == [] <==> forall i :: 0 <= i < |s| ==> s[i].None?
  {
    if |s| > 0 {
      SomesEmpty(s[1..]);
      assert forall i :: 1 <= i < |s| ==> s[i] == s[1..][i - 1];
    }
  }

  /** A relation that holds position by position between xs and all but the last of ys still
      does after a value that it relates to the last of ys is appended to xs. */
  lemma PairwiseSnoc<A, B>(p: (A, B) -> bool, xs: seq<A>, ys: seq<B>, x: A)
    requires |ys| == |xs| + 1
    requires forall j :: 0 <= j < |xs| ==> p(xs[j], ys[..|xs|][j])
    requires p(x, ys[|xs|])
    ensures forall j :: 0 <= j < |ys| ==> p((xs + [x])[j], ys[j])
  {
    forall j | 0 <= j < |ys| ensures p((xs + [x])[j], ys[j]) {
      if j < |xs| {
        assert ys[..|xs|][j] == ys[j];
      }
    }
  }

  /** No element occurs twice. */
  predicate Distinct<T(==)>(s: seq<T>) {
    forall i, j :: 0 <= i < j < |s| ==> s[i] != s[j]
  }

  /** A list without repetitions has as many elements as the set of its elements. */
  lemma {:induction false} DistinctCard<T>(s: seq<T>)
    requires Distinct(s)
    ensures |(set x | x in s)| == |s|
  {
    if |s| > 0 {
      var n := |s| - 1;
      var front := s[..n];
      assert Distinct(front);
      DistinctCard(front);
      assert s == front + [s[n]];
      assert (set x | x in s) == (set x | x in front) + {s[n]};
      assert s[n] !in front;
    }
  }

  /** Two maps with the same keys and the same value at every key are equal. */
  lemma MapsAgree<K, V>(a: map<K, V>, b: map<K, V>)
    requires a.Keys == b.Keys && forall k :: k in a ==> a[k] == b[k]
    ensures a == b
  {
  }
}
