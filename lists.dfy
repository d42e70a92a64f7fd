/** The array and query operations the handlers use on id lists and on
    collections: `filter`, `push` guarded by `includes`, `$addToSet`,
    de-duplication through a `Set`, `find by id`, `sort` and `limit`. */
module Lists {
  import opened Common

  predicate NoDuplicates<T(==)>(xs: seq<T>) {
    forall i, j :: 0 <= i < j < |xs| ==> xs[i] != xs[j]
  }

  /** `xs.filter(y => y !== x)`: every copy of `x` goes, every other entry
      stays with its multiplicity. */
  function RemoveAll<T(==,!new)>(xs: seq<T>, x: T): (r: seq<T>)
    ensures multiset(r) == multiset(xs)[x := 0]
    ensures x !in r
    ensures forall y :: y != x ==> (y in r <==> y in xs)
    decreases |xs|
  {
    if xs == [] then []
    else
      var rest := RemoveAll(xs[1..], x);
      assert xs == [xs[0]] + xs[1..];
      if xs[0] == x then rest else [xs[0]] + rest
  }

  /** Removing a value that is absent leaves the list as it was. */
  lemma {:induction false} RemoveAllAbsent<T(!new)>(xs: seq<T>, x: T)
    requires x !in xs
    ensures RemoveAll(xs, x) == xs
    decreases |xs|
  {
    if xs != [] {
      RemoveAllAbsent(xs[1..], x);
    }
  }

  /** Removal works entry by entry, so it keeps the order of what remains. */
  lemma {:induction false} RemoveAllAppend<T(!new)>(xs: seq<T>, ys: seq<T>, x: T)
    ensures RemoveAll(xs + ys, x) == RemoveAll(xs, x) + RemoveAll(ys, x)
    decreases |xs|
  {
    if xs == [] {
      assert xs + ys == ys;
    } else {
      assert (xs + ys)[1..] == xs[1..] + ys;
      RemoveAllAppend(xs[1..], ys, x);
    }
  }

  /** Pushing an absent value and then filtering it out restores the list. */
  lemma PushThenRemove<T(!new)>(xs: seq<T>, x: T)
    requires x !in xs
    ensures RemoveAll(xs + [x], x) == xs
  {
    RemoveAllAppend(xs, [x], x);
    RemoveAllAbsent(xs, x);
    assert RemoveAll([x], x) == [];
  }

  /** Mongo's `$addToSet`. */
  function AddToSet<T(==,!new)>(xs: seq<T>, x: T): (r: seq<T>)
    ensures x in r
    ensures forall y :: y in r <==> y in xs || y == x
    ensures NoDuplicates(xs) ==> NoDuplicates(r)
    ensures x in xs ==> r == xs
  {
    if x in xs then xs else xs + [x]
  }

  /** First position of `x` in `xs`. */
  function IndexOf<T(==)>(xs: seq<T>, x: T): (k: nat)
    requires x in xs
    ensures k < |xs| && xs[k] == x && x !in xs[..k]
    decreases |xs|
  {
    if xs[0] == x then 0
    else
      var k := IndexOf(xs[1..], x) + 1;
      assert xs[..k] == [xs[0]] + xs[1..][..k - 1];
      k
  }

  /** `[...new Set(xs)]`: the distinct values, each at its first occurrence. */
  function Dedup<T(==,!new)>(xs: seq<T>): (r: seq<T>)
    ensures forall y :: y in r <==> y in xs
    ensures NoDuplicates(r)
    ensures |r| <= |xs|
    decreases |xs|
  {
    if xs == [] then []
    else
      var init := xs[..|xs| - 1];
      var rest := Dedup(init);
      var x := xs[|xs| - 1];
      assert xs == init + [x];
      if x in rest then rest else rest + [x]
  }

  lemma IndexOfInPrefix<T(!new)>(xs: seq<T>, n: nat, y: T)
    requires n <= |xs| && y in xs[..n]
    ensures IndexOf(xs, y) == IndexOf(xs[..n], y)
  {
    var k := IndexOf(xs[..n], y);
    assert xs[..k] == xs[..n][..k];
    assert xs[k] == y;
  }

  /** `Dedup` lists the values in the order of their first occurrence. */
  lemma {:induction false} DedupKeepsFirstOccurrenceOrder<T(!new)>(xs: seq<T>)
    ensures forall i, j :: 0 <= i < j < |Dedup(xs)| ==>
      IndexOf(xs, Dedup(xs)[i]) < IndexOf(xs, Dedup(xs)[j])
    decreases |xs|
  {
    if xs != [] {
      var n := |xs| - 1;
      var init := xs[..n];
      var rest := Dedup(init);
      var x := xs[n];
      DedupKeepsFirstOccurrenceOrder(init);
      forall y | y in rest
        ensures IndexOf(xs, y) == IndexOf(init, y) && IndexOf(xs, y) < n
      {
        IndexOfInPrefix(xs, n, y);
      }
      if x !in rest {
        assert x !in init;
        assert IndexOf(xs, x) == n by {
          assert xs[..n] == init;
        }
      }
    }
  }

  /** `xs.filter(p)`. */
  function Filter<T(==,!new)>(xs: seq<T>, p: T -> bool): (r: seq<T>)
    ensures |r| <= |xs|
    ensures forall x :: x in r <==> x in xs && p(x)
    ensures forall x :: x in r ==> multiset(r)[x] == multiset(xs)[x]
    ensures multiset(r) <= multiset(xs)
    decreases |xs|
  {
    if xs == [] then []
    else
      var rest := Filter(xs[1..], p);
      assert xs == [xs[0]] + xs[1..];
      if p(xs[0]) then [xs[0]] + rest else rest
  }

  /** `filter` works entry by entry, so it keeps the order of what it keeps:
      filtering a concatenation is concatenating the filtered parts. */
  lemma {:induction false} FilterAppend<T(!new)>(xs: seq<T>, ys: seq<T>, p: T -> bool)
    ensures Filter(xs + ys, p) == Filter(xs, p) + Filter(ys, p)
    decreases |xs|
  {
    if xs == [] {
      assert xs + ys == ys;
    } else {
      assert (xs + ys)[1..] == xs[1..] + ys;
      FilterAppend(xs[1..], ys, p);
    }
  }

  /** Two tests that agree on every entry keep the same entries. */
  lemma {:induction false} FilterAgree<T(!new)>(xs: seq<T>, p: T -> bool, q: T -> bool)
    requires forall x :: x in xs ==> p(x) == q(x)
    ensures Filter(xs, p) == Filter(xs, q)
    decreases |xs|
  {
    if xs != [] {
      assert forall x :: x in xs[1..] ==> x in xs;
      FilterAgree(xs[1..], p, q);
    }
  }

  /** Position of the first record whose identity is `id` (a `findById`). */
  function Find<T>(xs: seq<T>, idOf: T -> Id, id: Id): (r: Option<nat>)
    ensures r.Some? ==> r.value < |xs| && idOf(xs[r.value]) == id
    ensures r.Some? ==> forall k :: 0 <= k < r.value ==> idOf(xs[k]) != id
    ensures r.None? <==> forall k :: 0 <= k < |xs| ==> idOf(xs[k]) != id
    decreases |xs|
  {
    if xs == [] then None
    else if idOf(xs[0]) == id then Some(0)
    else match Find(xs[1..], idOf, id)
      case None => None
      case Some(k) => Some(k + 1)
  }

  /** Appending a record keeps every earlier lookup by id. */
  lemma FindAppend<T>(xs: seq<T>, idOf: T -> Id, x: T, id: Id)
    requires Find(xs, idOf, id).Some?
    ensures Find(xs + [x], idOf, id) == Find(xs, idOf, id)
  {
    var k := Find(xs, idOf, id).value;
    assert (xs + [x])[k] == xs[k];
    assert forall j :: 0 <= j < k ==> (xs + [x])[j] == xs[j];
  }

  predicate UniqueIds<T>(xs: seq<T>, idOf: T -> Id) {
    forall i, j :: 0 <= i < j < |xs| ==> idOf(xs[i]) != idOf(xs[j])
  }

  predicate IdsBelow<T>(xs: seq<T>, idOf: T -> Id, bound: Id) {
    forall i :: 0 <= i < |xs| ==> idOf(xs[i]) < bound
  }

  /** In a collection with unique identities, the record found for an
      identity is the only one carrying it. */
  lemma FindUnique<T>(xs: seq<T>, idOf: T -> Id, k: nat)
    requires UniqueIds(xs, idOf) && k < |xs|
    ensures Find(xs, idOf, idOf(xs[k])) == Some(k)
  {
  }

  /** Position of the first record matching a query (a `findOne`). */
  function FindFirst<T>(xs: seq<T>, p: T -> bool): (r: Option<nat>)
    ensures r.Some? ==> r.value < |xs| && p(xs[r.value])
    ensures r.Some? ==> forall k :: 0 <= k < r.value ==> !p(xs[k])
    ensures r.None? <==> forall k :: 0 <= k < |xs| ==> !p(xs[k])
    decreases |xs|
  {
    if xs == [] then None
    else if p(xs[0]) then Some(0)
    else match FindFirst(xs[1..], p)
      case None => None
      case Some(k) => Some(k + 1)
  }

  /** Two queries that agree on every record find the same record. */
  lemma {:induction false} FindFirstSame<T>(xs: seq<T>, p: T -> bool, q: T -> bool)
    requires forall k :: 0 <= k < |xs| ==> p(xs[k]) == q(xs[k])
    ensures FindFirst(xs, p) == FindFirst(xs, q)
    decreases |xs|
  {
    if xs != [] {
      FindFirstSame(xs[1..], p, q);
    }
  }

  /** Finding by id depends only on the ids, in order. */
  lemma {:induction false} FindSameIds<T>(xs: seq<T>, ys: seq<T>, idOf: T -> Id)
    requires |xs| == |ys| && forall j :: 0 <= j < |xs| ==> idOf(xs[j]) == idOf(ys[j])
    ensures forall id :: Find(xs, idOf, id) == Find(ys, idOf, id)
    decreases |xs|
  {
    if xs != [] {
      FindSameIds(xs[1..], ys[1..], idOf);
    }
  }

  /** The collection without its `k`-th record (a `deleteOne`). */
  function RemoveAt<T>(xs: seq<T>, k: nat): (r: seq<T>)
    requires k < |xs|
    ensures |r| == |xs| - 1
    ensures forall i :: 0 <= i < k ==> r[i] == xs[i]
    ensures forall i :: k <= i < |r| ==> r[i] == xs[i + 1]
  {
    xs[..k] + xs[k + 1..]
  }

  /** A record whose identity is the next fresh one keeps identities unique
      when appended, and moves the bound past it. */
  lemma AppendFresh<T>(xs: seq<T>, idOf: T -> Id, x: T, bound: Id)
    requires UniqueIds(xs, idOf) && IdsBelow(xs, idOf, bound) && idOf(x) == bound
    ensures UniqueIds(xs + [x], idOf) && IdsBelow(xs + [x], idOf, bound + 1)
  {
  }

  /** Deleting a record keeps identities unique and below the bound. */
  lemma RemoveAtKeepsIds<T>(xs: seq<T>, idOf: T -> Id, k: nat, bound: Id)
    requires k < |xs| && UniqueIds(xs, idOf) && IdsBelow(xs, idOf, bound)
    ensures UniqueIds(RemoveAt(xs, k), idOf) && IdsBelow(RemoveAt(xs, k), idOf, bound)
  {
    var r := RemoveAt(xs, k);
    forall i, j | 0 <= i < j < |r| ensures idOf(r[i]) != idOf(r[j]) {
      var i' := if i < k then i else i + 1;
      var j' := if j < k then j else j + 1;
      assert r[i] == xs[i'] && r[j] == xs[j'];
    }
  }

  predicate SortedDesc<T>(xs: seq<T>, key: T -> int) {
    forall i, j :: 0 <= i < j < |xs| ==> key(xs[i]) >= key(xs[j])
  }

  function Insert<T>(x: T, xs: seq<T>, key: T -> int): (r: seq<T>)
    requires SortedDesc(xs, key)
    ensures SortedDesc(r, key)
    ensures multiset(r) == multiset(xs) + multiset{x}
    decreases |xs|
  {
    if xs == [] then [x]
    else if key(x) >= key(xs[0]) then [x] + xs
    else
      var rest := Insert(x, xs[1..], key);
      InsertBehindHead(x, xs, rest, key);
      [xs[0]] + rest
  }

  /** Inserting behind the head of a sorted list keeps it sorted when the
      head's key is larger. */
  lemma InsertBehindHead<T>(x: T, xs: seq<T>, rest: seq<T>, key: T -> int)
    requires xs != [] && SortedDesc(xs, key) && key(x) < key(xs[0])
    requires SortedDesc(rest, key) && multiset(rest) == multiset(xs[1..]) + multiset{x}
    ensures SortedDesc([xs[0]] + rest, key)
    ensures multiset([xs[0]] + rest) == multiset(xs) + multiset{x}
  {
    assert xs == [xs[0]] + xs[1..];
    forall z | z in rest ensures key(z) <= key(xs[0]) {
      assert z in multiset(rest);
      if z != x {
        assert z in multiset(xs[1..]);
      }
    }
    var r := [xs[0]] + rest;
    forall i, j | 0 <= i < j < |r| ensures key(r[i]) >= key(r[j]) {
      assert r[j] == rest[j - 1];
      if i > 0 {
        assert r[i] == rest[i - 1];
      }
    }
  }

  /** `sort({ key: -1 })`: a permutation of `xs` in non-increasing key order. */
  function SortDesc<T>(xs: seq<T>, key: T -> int): (r: seq<T>)
    ensures SortedDesc(r, key)
    ensures multiset(r) == multiset(xs)
    ensures |r| == |xs|
    decreases |xs|
  {
    if xs == [] then []
    else
      assert xs == [xs[0]] + xs[1..];
      Insert(xs[0], SortDesc(xs[1..], key), key)
  }

  /** `find(query).sort({ key: -1 })`: the records matching `p`, each as
      often as stored, in non-increasing key order. */
  function SortedFilter<T(==,!new)>(xs: seq<T>, p: T -> bool, key: T -> int): (r: seq<T>)
    ensures SortedDesc(r, key)
    ensures forall x :: x in r <==> x in xs && p(x)
    ensures forall x :: x in r ==> multiset(r)[x] == multiset(xs)[x]
  {
    var picked := Filter(xs, p);
    var r := SortDesc(picked, key);
    assert forall x :: x in r <==> x in multiset(picked);
    r
  }

  /** `limit(n)`. */
  function Take<T>(xs: seq<T>, n: nat): seq<T> {
    if |xs| <= n then xs else xs[..n]
  }

  /** `sort({ key: -1 }).limit(k)`. */
  function TopK<T>(xs: seq<T>, key: T -> int, k: nat): seq<T> {
    Take(SortDesc(xs, key), k)
  }

  /** What a sorted, limited query returns: at most `k` of the records, in
      non-increasing key order, and all of them when there are at most `k`. */
  lemma TopKSpec<T>(xs: seq<T>, key: T -> int, k: nat)
    ensures |TopK(xs, key, k)| == if |xs| <= k then |xs| else k
    ensures SortedDesc(TopK(xs, key, k), key)
    ensures multiset(TopK(xs, key, k)) <= multiset(xs)
    ensures |xs| <= k ==> multiset(TopK(xs, key, k)) == multiset(xs)
  {
    var s := SortDesc(xs, key);
    if |s| > k {
      assert s == s[..k] + s[k..];
      assert multiset(s) == multiset(s[..k]) + multiset(s[k..]);
    }
  }

  /** Two equal entries at different positions give a multiplicity of at
      least two. */
  lemma RepeatedEntry<T>(xs: seq<T>, i: nat, j: nat)
    requires i < j < |xs| && xs[i] == xs[j]
    ensures multiset(xs)[xs[i]] >= 2
  {
    assert xs == xs[..i] + [xs[i]] + xs[i + 1..j] + [xs[j]] + xs[j + 1..];
  }

  /** A list without duplicates holds each entry once. */
  lemma {:induction false} NoDuplicatesOnce<T>(xs: seq<T>, x: T)
    requires NoDuplicates(xs)
    ensures multiset(xs)[x] <= 1
    decreases |xs|
  {
    if xs != [] {
      assert xs == [xs[0]] + xs[1..];
      NoDuplicatesOnce(xs[1..], x);
      if x == xs[0] {
        assert x !in xs[1..];
      }
    }
  }

  /** A sub-multiset of a list without duplicates has none either. */
  lemma SubNoDuplicates<T>(xs: seq<T>, ys: seq<T>)
    requires multiset(xs) <= multiset(ys) && NoDuplicates(ys)
    ensures NoDuplicates(xs)
  {
    forall i, j | 0 <= i < j < |xs| ensures xs[i] != xs[j] {
      if xs[i] == xs[j] {
        RepeatedEntry(xs, i, j);
        NoDuplicatesOnce(ys, xs[i]);
      }
    }
  }

  /** The facts about a sorted, limited query that its callers use most. */
  lemma TopKBasics<T>(xs: seq<T>, key: T -> int, k: nat)
    ensures |TopK(xs, key, k)| <= k && |TopK(xs, key, k)| <= |xs|
    ensures SortedDesc(TopK(xs, key, k), key)
    ensures forall x :: x in TopK(xs, key, k) ==> x in xs
  {
    TopKSpec(xs, key, k);
    forall x | x in TopK(xs, key, k) ensures x in xs {
      assert x in multiset(TopK(xs, key, k));
    }
  }

  /** A record a limited query leaves out has a key no larger than any
      record it returns. */
  lemma TopKLeftOut<T>(xs: seq<T>, key: T -> int, k: nat, x: T)
    requires x in xs && x !in TopK(xs, key, k)
    ensures forall y :: y in TopK(xs, key, k) ==> key(x) <= key(y)
  {
    var s := SortDesc(xs, key);
    assert x in multiset(s);
    var j :| 0 <= j < |s| && s[j] == x;
    assert |s| > k;
    assert j >= k;
    forall y | y in TopK(xs, key, k) ensures key(x) <= key(y) {
      var i :| 0 <= i < k && s[i] == y;
    }
  }

  /** A limited query over no more records than the limit returns them all. */
  lemma TopKAll<T>(xs: seq<T>, key: T -> int, k: nat)
    requires |xs| <= k
    ensures forall x :: x in xs ==> x in TopK(xs, key, k)
  {
    TopKSpec(xs, key, k);
    forall x | x in xs ensures x in TopK(xs, key, k) {
      assert x in multiset(xs);
    }
  }
}
