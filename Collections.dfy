/** Collection operations the library takes from the Kotlin standard library:
    List.toMap, a map built from pairs where a later key overwrites an earlier
    one, and MutableList.remove, which drops only the first equal element. */
module Collections {

  /** List<Pair<K, V>>.toMap(): later pairs override earlier ones. */
  function ToMap<K, V>(ps: seq<(K, V)>): map<K, V>
    decreases |ps|
  {
    if |ps| == 0 then map[]
    else ToMap(ps[..|ps| - 1])[ps[|ps| - 1].0 := ps[|ps| - 1].1]
  }

  /** The index of the last pair with key `k`, or -1. */
  function LastIndexOfKey<K(==), V>(ps: seq<(K, V)>, k: K): (i: int)
    ensures -1 <= i < |ps|
    ensures i >= 0 ==> ps[i].0 == k
    ensures forall j :: i < j < |ps| ==> ps[j].0 != k
    decreases |ps|
  {
    if |ps| == 0 then -1
    else if ps[|ps| - 1].0 == k then |ps| - 1
    else LastIndexOfKey(ps[..|ps| - 1], k)
  }

  /** toMap keeps every key that occurs and gives it the value of its last pair. */
  lemma {:induction false} ToMapLastWins<K, V>(ps: seq<(K, V)>, k: K)
    ensures k in ToMap(ps) <==> LastIndexOfKey(ps, k) >= 0
    ensures k in ToMap(ps) ==> ToMap(ps)[k] == ps[LastIndexOfKey(ps, k)].1
    decreases |ps|
  {
    if |ps| > 0 {
      ToMapLastWins(ps[..|ps| - 1], k);
    }
  }

  /** The keys of toMap are exactly the keys of the pairs. */
  lemma ToMapKeys<K, V>(ps: seq<(K, V)>, k: K)
    ensures k in ToMap(ps) <==> exists i :: 0 <= i < |ps| && ps[i].0 == k
  {
    ToMapLastWins(ps, k);
  }

  /** No element occurs twice. */
  predicate Distinct<T(==)>(s: seq<T>) {
    forall i, j :: 0 <= i < j < |s| ==> s[i] != s[j]
  }

  /** MutableList.remove(x): the list without the first element equal to x. */
  function RemoveFirst<T(==)>(s: seq<T>, x: T): (r: seq<T>)
    ensures x in s ==> |r| == |s| - 1
    ensures x !in s ==> r == s
  {
    if |s| == 0 then []
    else if s[0] == x then
      assert s == [s[0]] + s[1..];
      s[1..]
    else
      assert s == [s[0]] + s[1..];
      [s[0]] + RemoveFirst(s[1..], x)
  }

  /** remove(x) takes exactly one x out of the list when there is one. */
  lemma {:induction false} RemoveFirstCount<T>(s: seq<T>, x: T)
    ensures multiset(RemoveFirst(s, x)) == multiset(s) - multiset{x}
    decreases |s|
  {
    if |s| > 0 {
      assert s == [s[0]] + s[1..];
      if s[0] != x {
        RemoveFirstCount(s[1..], x);
      }
    }
  }

  /** remove(x) keeps the elements before the first x and after it, in order. */
  lemma {:induction false} RemoveFirstSplits<T>(s: seq<T>, x: T, i: nat)
    requires i < |s| && s[i] == x && x !in s[..i]
    ensures RemoveFirst(s, x) == s[..i] + s[i + 1..]
  {
    if i == 0 {
      assert s[..0] + s[1..] == s[1..];
    } else {
      ConsSplit(s, i);
      RemoveFirstSplits(s[1..], x, i - 1);
    }
  }

  /** Cutting out s[i] keeps the head and cuts s[i] out of the tail. */
  lemma ConsSplit<T>(s: seq<T>, i: nat)
    requires 0 < i < |s|
    ensures s[..i] + s[i + 1..] == [s[0]] + (s[1..][..i - 1] + s[1..][i..])
    ensures s[0] in s[..i] && s[1..][..i - 1] == s[1..i]
  {
    assert s[..i] == [s[0]] + s[1..i];
    assert s[1..][i..] == s[i + 1..];
  }

  /** In a list without repeats, remove(x) drops x, keeps every other element and
      leaves no repeat. */
  lemma {:induction false} RemoveDistinct<T>(s: seq<T>, x: T)
    requires Distinct(s)
    ensures Distinct(RemoveFirst(s, x))
    ensures forall y :: y in RemoveFirst(s, x) <==> y in s && y != x
    decreases |s|
  {
    if |s| > 0 {
      var rest := s[1..];
      DistinctTail(s);
      assert s == [s[0]] + rest;
      if s[0] != x {
        RemoveDistinct(rest, x);
        var r := RemoveFirst(rest, x);
        assert RemoveFirst(s, x) == [s[0]] + r;
        DistinctCons(s[0], r);
      }
    }
  }

  lemma DistinctTail<T>(s: seq<T>)
    requires Distinct(s) && |s| > 0
    ensures Distinct(s[1..]) && s[0] !in s[1..]
  {
    forall i, j | 0 <= i < j < |s[1..]|
      ensures s[1..][i] != s[1..][j]
    {
      assert s[1..][i] == s[i + 1] && s[1..][j] == s[j + 1];
    }
  }

  lemma DistinctCons<T>(a: T, s: seq<T>)
    requires Distinct(s) && a !in s
    ensures Distinct([a] + s)
  {
    var r := [a] + s;
    forall i, j | 0 <= i < j < |r|
      ensures r[i] != r[j]
    {
      assert r[j] == s[j - 1];
      if i > 0 {
        assert r[i] == s[i - 1];
      }
    }
  }

  /** Flow.filter / List.filter: the elements satisfying `p`, in order. */
  function Filter<T>(s: seq<T>, p: T -> bool): (r: seq<T>)
    ensures |r| <= |s|
    ensures forall k :: 0 <= k < |r| ==> p(r[k])
    decreases |s|
  {
    if |s| == 0 then []
    else if p(s[0]) then [s[0]] + Filter(s[1..], p)
    else Filter(s[1..], p)
  }

  /** filter keeps exactly the elements that satisfy the predicate. */
  lemma {:induction false} FilterMembers<T>(s: seq<T>, p: T -> bool, x: T)
    ensures x in Filter(s, p) <==> x in s && p(x)
    decreases |s|
  {
    if |s| > 0 {
      FilterMembers(s[1..], p, x);
      assert s == [s[0]] + s[1..];
    }
  }

  /** filter distributes over concatenation, so it keeps the input order. */
  lemma {:induction false} FilterAppend<T>(a: seq<T>, b: seq<T>, p: T -> bool)
    ensures Filter(a + b, p) == Filter(a, p) + Filter(b, p)
    decreases |a|
  {
    if |a| == 0 {
      assert a + b == b;
    } else {
      assert (a + b)[0] == a[0];
      assert (a + b)[1..] == a[1..] + b;
      FilterAppend(a[1..], b, p);
    }
  }

  /** An element satisfying the predicate is kept, one that does not is dropped. */
  lemma FilterSingle<T>(x: T, p: T -> bool)
    ensures Filter([x], p) == if p(x) then [x] else []
  {
    assert [x][1..] == [];
  }

  /** A predicate that holds everywhere keeps everything. */
  lemma {:induction false} FilterAll<T>(s: seq<T>, p: T -> bool)
    requires forall x :: p(x)
    ensures Filter(s, p) == s
    decreases |s|
  {
    if |s| > 0 {
      FilterAll(s[1..], p);
      assert s == [s[0]] + s[1..];
    }
  }
}
