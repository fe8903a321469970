/**
  Generic list helpers shared by the visit engine and the page: collecting
  the results of a parse loop that stops at the first error, and the stable
  sort `Array.prototype.sort` performs with a numeric comparator.
*/
module Lists {
  import opened Wrappers

  // ---------------------------------------------------------------------------
  // A loop that pushes each success and returns the first error

  /** All values in order when every result is a success, else the first error. */
  function AllOk<T>(rs: seq<Result<T>>): (r: Result<seq<T>>)
    ensures r.Ok? ==> |r.value| == |rs|
    decreases |rs|
  {
    if rs == [] then Ok([])
    else match AllOk(rs[..|rs| - 1])
      case Err(e) => Err(e)
      case Ok(vs) =>
        match rs[|rs| - 1]
        case Err(e) => Err(e)
        case Ok(v) => Ok(vs + [v])
  }

  /** On success, the values are exactly those of the results. */
  lemma {:induction false} AllOkValues<T>(rs: seq<Result<T>>)
    ensures AllOk(rs).Ok? <==> forall i :: 0 <= i < |rs| ==> rs[i].Ok?
    ensures AllOk(rs).Ok? ==> forall i :: 0 <= i < |rs| ==> AllOk(rs).value[i] == rs[i].value
    decreases |rs|
  {
    if rs != [] {
      var n := |rs| - 1;
      AllOkValues(rs[..n]);
      assert forall i :: 0 <= i < n ==> rs[..n][i] == rs[i];
    }
  }

  /** On failure, the error is that of the first failing result. */
  lemma {:induction false} AllOkFirstError<T>(rs: seq<Result<T>>)
    ensures AllOk(rs).Err? ==>
      exists i :: 0 <= i < |rs| && rs[i] == Err(AllOk(rs).error) && forall j :: 0 <= j < i ==> rs[j].Ok?
    decreases |rs|
  {
    if rs != [] {
      var n := |rs| - 1;
      AllOkFirstError(rs[..n]);
      AllOkValues(rs[..n]);
      assert forall i :: 0 <= i < n ==> rs[..n][i] == rs[i];
    }
  }

  /** One more success extends the values; a failure after all successes is the result. */
  lemma AllOkLast<T>(rs: seq<Result<T>>, k: nat, vs: seq<T>)
    requires k < |rs| && AllOk(rs[..k]) == Ok(vs)
    ensures AllOk(rs[..k + 1]) == if rs[k].Ok? then Ok(vs + [rs[k].value]) else Err(rs[k].error)
  {
    assert rs[..k + 1][..k] == rs[..k];
  }

  /** A failure in a prefix is the failure of the whole list. */
  lemma {:induction false} AllOkPrefixError<T>(rs: seq<Result<T>>, k: nat)
    requires k <= |rs| && AllOk(rs[..k]).Err?
    ensures AllOk(rs) == AllOk(rs[..k])
    decreases |rs| - k
  {
    if k < |rs| {
      var n := |rs| - 1;
      assert rs[..n][..k] == rs[..k];
      AllOkPrefixError(rs[..n], k);
    } else {
      assert rs[..k] == rs;
    }
  }

  // ---------------------------------------------------------------------------
  // Stable sorting by a numeric key

  /** `x` placed before the first element whose key is not smaller; equal keys keep `x` first. */
  function InsertBy<T>(x: T, s: seq<T>, key: T -> int): (r: seq<T>)
    ensures |r| == |s| + 1 && multiset(r) == multiset(s) + multiset{x}
  {
    if s == [] || key(x) <= key(s[0]) then [x] + s
    else
      assert s == [s[0]] + s[1..];
      [s[0]] + InsertBy(x, s[1..], key)
  }

  /**
    `xs.sort((a, b) => key(a) - key(b))`. The sort is stable (ECMAScript
    2019 and later), as insertion from the back is: an element is inserted
    before the later ones with an equal key (`SortByStable`).
  */
  function SortBy<T>(xs: seq<T>, key: T -> int): (r: seq<T>)
    ensures |r| == |xs| && multiset(r) == multiset(xs)
  {
    if xs == [] then []
    else
      assert xs == [xs[0]] + xs[1..];
      InsertBy(xs[0], SortBy(xs[1..], key), key)
  }

  predicate SortedBy<T>(s: seq<T>, key: T -> int) {
    forall i, j :: 0 <= i < j < |s| ==> key(s[i]) <= key(s[j])
  }

  lemma {:induction false} InsertBySorted<T>(x: T, s: seq<T>, key: T -> int)
    requires SortedBy(s, key)
    ensures SortedBy(InsertBy(x, s, key), key)
    decreases |s|
  {
    if s != [] && key(x) > key(s[0]) {
      var rest := InsertBy(x, s[1..], key);
      InsertBySorted(x, s[1..], key);
      InsertByFrom(x, s[1..], key);
      forall k | 0 <= k < |rest|
        ensures key(s[0]) <= key(rest[k])
      {
        if rest[k] != x {
          var j :| 0 <= j < |s[1..]| && s[1..][j] == rest[k];
        }
      }
      assert InsertBy(x, s, key) == [s[0]] + rest;
    }
  }

  /** The sorted list is ordered by the key. */
  lemma {:induction false} SortBySorted<T>(xs: seq<T>, key: T -> int)
    ensures SortedBy(SortBy(xs, key), key)
    decreases |xs|
  {
    if xs != [] {
      SortBySorted(xs[1..], key);
      InsertBySorted(xs[0], SortBy(xs[1..], key), key);
    }
  }

  /** Sorting an ordered list changes nothing. */
  lemma {:induction false} SortBySortedIdentity<T>(xs: seq<T>, key: T -> int)
    requires SortedBy(xs, key)
    ensures SortBy(xs, key) == xs
    decreases |xs|
  {
    if xs != [] {
      assert SortedBy(xs[1..], key);
      SortBySortedIdentity(xs[1..], key);
      assert SortBy(xs, key) == InsertBy(xs[0], xs[1..], key);
    }
  }

  /** Every element of the sorted list comes from the input, and every input element is in it. */
  lemma SortBySameElements<T>(xs: seq<T>, key: T -> int)
    ensures forall x :: x in SortBy(xs, key) <==> x in xs
  {
    var r := SortBy(xs, key);
    forall x
      ensures x in r <==> x in xs
    {
      assert x in r <==> x in multiset(r);
      assert x in xs <==> x in multiset(xs);
    }
  }

  /** Each input element has a position in the sorted list. */
  lemma SortByIndex<T>(xs: seq<T>, key: T -> int, m: nat) returns (i: nat)
    requires m < |xs|
    ensures i < |SortBy(xs, key)| && SortBy(xs, key)[i] == xs[m]
  {
    var s := SortBy(xs, key);
    assert xs[m] in multiset(s);
    i :| 0 <= i < |s| && s[i] == xs[m];
  }

  // ---------------------------------------------------------------------------
  // Keeping the first element of each key

  /** `u.find((x) => key(x) === k)` found something. */
  function HasKey<T, K(==)>(u: seq<T>, k: K, key: T -> K): (b: bool)
    ensures b <==> exists j :: 0 <= j < |u| && key(u[j]) == k
    decreases |u|
  {
    if u == [] then false
    else key(u[|u| - 1]) == k || HasKey(u[..|u| - 1], k, key)
  }

  /** The loop `for (x of xs) if (!uniq.find(...)) uniq.push(x)`: the first element of each key, in order. */
  function UniqBy<T, K(==)>(xs: seq<T>, key: T -> K): (u: seq<T>)
    ensures |u| <= |xs|
    decreases |xs|
  {
    if xs == [] then []
    else
      var u := UniqBy(xs[..|xs| - 1], key);
      if HasKey(u, key(xs[|xs| - 1]), key) then u else u + [xs[|xs| - 1]]
  }

  predicate DistinctBy<T, K(==)>(u: seq<T>, key: T -> K) {
    forall i, j :: 0 <= i < j < |u| ==> key(u[i]) != key(u[j])
  }

  predicate Within<T(==)>(u: seq<T>, xs: seq<T>) {
    forall i :: 0 <= i < |u| ==> u[i] in xs
  }

  predicate KeysCovered<T, K(==)>(u: seq<T>, xs: seq<T>, key: T -> K) {
    forall i :: 0 <= i < |xs| ==> exists j :: 0 <= j < |u| && key(u[j]) == key(xs[i])
  }

  /** Every element kept is an input element. */
  lemma {:induction false} UniqByWithin<T, K>(xs: seq<T>, key: T -> K)
    ensures Within(UniqBy(xs, key), xs)
    decreases |xs|
  {
    if xs != [] {
      var n := |xs| - 1;
      UniqByWithin(xs[..n], key);
      var u := UniqBy(xs[..n], key);
      forall i | 0 <= i < |u|
        ensures u[i] in xs
      {
        assert u[i] in xs[..n];
      }
    }
  }

  /** The kept elements have distinct keys. */
  lemma {:induction false} UniqByDistinct<T, K>(xs: seq<T>, key: T -> K)
    ensures DistinctBy(UniqBy(xs, key), key)
    decreases |xs|
  {
    if xs != [] {
      UniqByDistinct(xs[..|xs| - 1], key);
    }
  }

  /** Every input key is kept. */
  lemma {:induction false} UniqByCovers<T, K>(xs: seq<T>, key: T -> K)
    ensures KeysCovered(UniqBy(xs, key), xs, key)
    decreases |xs|
  {
    if xs != [] {
      var n := |xs| - 1;
      var init := xs[..n];
      UniqByCovers(init, key);
      var u := UniqBy(init, key);
      var u' := UniqBy(xs, key);
      assert u'[..|u|] == u;
      forall i | 0 <= i < |xs|
        ensures exists j :: 0 <= j < |u'| && key(u'[j]) == key(xs[i])
      {
        if i < n {
          assert xs[i] == init[i];
          var j :| 0 <= j < |u| && key(u[j]) == key(init[i]);
          assert u'[j] == u[j];
        } else if !HasKey(u, key(xs[n]), key) {
          assert u'[|u|] == xs[n];
        }
      }
    }
  }

  /** The first element of each key is the one kept. */
  lemma {:induction false} UniqByKeepsFirst<T, K>(xs: seq<T>, key: T -> K, i: nat)
    requires i < |xs| && forall j :: 0 <= j < i ==> key(xs[j]) != key(xs[i])
    ensures xs[i] in UniqBy(xs, key)
    decreases |xs|
  {
    var n := |xs| - 1;
    var u := UniqBy(xs[..n], key);
    if i < n {
      UniqByKeepsFirst(xs[..n], key, i);
    } else {
      UniqByWithin(xs[..n], key);
      forall j | 0 <= j < |u|
        ensures key(u[j]) != key(xs[n])
      {
        var m :| 0 <= m < n && xs[..n][m] == u[j];
      }
    }
  }

  // ---------------------------------------------------------------------------
  // Distinct keys survive sorting

  /** Every element of the result is `x` or an element of `s`. */
  lemma {:induction false} InsertByFrom<T>(x: T, s: seq<T>, order: T -> int)
    ensures forall k :: 0 <= k < |InsertBy(x, s, order)| ==> InsertBy(x, s, order)[k] == x || InsertBy(x, s, order)[k] in s
    decreases |s|
  {
    if s != [] && order(x) > order(s[0]) {
      InsertByFrom(x, s[1..], order);
      var rest := InsertBy(x, s[1..], order);
      assert InsertBy(x, s, order) == [s[0]] + rest;
      forall k | 0 <= k < |rest|
        ensures rest[k] == x || rest[k] in s
      {
        if rest[k] != x {
          assert rest[k] in s[1..];
        }
      }
    }
  }

  /** Inserting an element whose key is new keeps the keys distinct. */
  lemma {:induction false} InsertByKeepsDistinct<T, K>(x: T, s: seq<T>, order: T -> int, key: T -> K)
    requires DistinctBy(s, key) && forall j :: 0 <= j < |s| ==> key(s[j]) != key(x)
    ensures DistinctBy(InsertBy(x, s, order), key)
    decreases |s|
  {
    if s != [] && order(x) > order(s[0]) {
      var rest := InsertBy(x, s[1..], order);
      InsertByKeepsDistinct(x, s[1..], order, key);
      InsertByFrom(x, s[1..], order);
      forall k | 0 <= k < |rest|
        ensures key(s[0]) != key(rest[k])
      {
        if rest[k] != x {
          var j :| 0 <= j < |s[1..]| && s[1..][j] == rest[k];
        }
      }
      assert InsertBy(x, s, order) == [s[0]] + rest;
    } else {
      assert InsertBy(x, s, order) == [x] + s;
    }
  }

  /** Sorting keeps the keys of another key function distinct. */
  lemma {:induction false} SortByKeepsDistinct<T, K>(xs: seq<T>, order: T -> int, key: T -> K)
    requires DistinctBy(xs, key)
    ensures DistinctBy(SortBy(xs, order), key)
    decreases |xs|
  {
    if xs != [] {
      var rest := SortBy(xs[1..], order);
      SortByKeepsDistinct(xs[1..], order, key);
      forall j | 0 <= j < |rest|
        ensures key(rest[j]) != key(xs[0])
      {
        assert rest[j] in multiset(xs[1..]);
        var m :| 0 <= m < |xs[1..]| && xs[1..][m] == rest[j];
      }
      InsertByKeepsDistinct(xs[0], rest, order, key);
    }
  }

  // ---------------------------------------------------------------------------
  // Buckets: a Map from a key to the list of its elements, in insertion order

  /** The elements with key `k`, in order. */
  function Filter<T, K(==)>(xs: seq<T>, k: K, key: T -> K): (r: seq<T>)
    ensures |r| <= |xs|
    decreases |xs|
  {
    if xs == [] then []
    else Filter(xs[..|xs| - 1], k, key) + (if key(xs[|xs| - 1]) == k then [xs[|xs| - 1]] else [])
  }

  /** What a filtered list holds. */
  lemma {:induction false} FilterFacts<T, K>(xs: seq<T>, k: K, key: T -> K)
    ensures forall i :: 0 <= i < |Filter(xs, k, key)| ==> key(Filter(xs, k, key)[i]) == k
    ensures Within(Filter(xs, k, key), xs)
    ensures forall i :: 0 <= i < |xs| && key(xs[i]) == k ==> xs[i] in Filter(xs, k, key)
    decreases |xs|
  {
    if xs != [] {
      var n := |xs| - 1;
      FilterFacts(xs[..n], k, key);
      var r0 := Filter(xs[..n], k, key);
      forall i | 0 <= i < |r0|
        ensures r0[i] in xs
      {
        assert r0[i] in xs[..n];
      }
      forall i | 0 <= i < n && key(xs[i]) == k
        ensures xs[i] in r0
      {
        assert xs[..n][i] == xs[i];
      }
    }
  }

  /** A filter is empty exactly when no element has the key. */
  lemma {:induction false} FilterEmptyIff<T, K>(xs: seq<T>, k: K, key: T -> K)
    ensures Filter(xs, k, key) == [] <==> forall i :: 0 <= i < |xs| ==> key(xs[i]) != k
    decreases |xs|
  {
    if xs != [] {
      var n := |xs| - 1;
      FilterEmptyIff(xs[..n], k, key);
      assert forall i :: 0 <= i < n ==> xs[..n][i] == xs[i];
    }
  }

  /** Filtering a concatenation filters each part. */
  lemma {:induction false} FilterAppend<T, K>(a: seq<T>, b: seq<T>, k: K, key: T -> K)
    ensures Filter(a + b, k, key) == Filter(a, k, key) + Filter(b, k, key)
    decreases |b|
  {
    if b == [] {
      assert a + b == a;
    } else {
      var c := a + b;
      var n := |b| - 1;
      assert c[..|c| - 1] == a + b[..n];
      assert c[|c| - 1] == b[n];
      FilterAppend(a, b[..n], k, key);
    }
  }

  /** Filtering one element keeps it exactly when it has the key. */
  lemma FilterSingle<T, K>(x: T, k: K, key: T -> K)
    ensures Filter([x], k, key) == if key(x) == k then [x] else []
  {
    assert [x][..0] == [];
  }

  /** Inserting `x` adds it to its own key's elements, in front of them, and leaves every other key's elements as they were. */
  lemma {:induction false} InsertByFilter<T>(x: T, s: seq<T>, key: T -> int, k: int)
    ensures Filter(InsertBy(x, s, key), k, key) == Filter([x], k, key) + Filter(s, k, key)
    decreases |s|
  {
    if s == [] || key(x) <= key(s[0]) {
      FilterAppend([x], s, k, key);
    } else {
      InsertByFilter(x, s[1..], key, k);
      assert InsertBy(x, s, key) == [s[0]] + InsertBy(x, s[1..], key);
      assert s == [s[0]] + s[1..];
      FilterPastSmaller(s[0], x, InsertBy(x, s[1..], key), s[1..], key, k);
    }
  }

  /** Moving a first element of a smaller key past `x` does not change any key's elements. */
  lemma FilterPastSmaller<T>(s0: T, x: T, rest: seq<T>, t: seq<T>, key: T -> int, k: int)
    requires key(s0) < key(x)
    requires Filter(rest, k, key) == Filter([x], k, key) + Filter(t, k, key)
    ensures Filter([s0] + rest, k, key) == Filter([x], k, key) + Filter([s0] + t, k, key)
  {
    var fx, f0, ft := Filter([x], k, key), Filter([s0], k, key), Filter(t, k, key);
    var lhs, rhs := Filter([s0] + rest, k, key), Filter([s0] + t, k, key);
    assert lhs == f0 + (fx + ft) by {
      FilterAppend([s0], rest, k, key);
    }
    assert rhs == f0 + ft by {
      FilterAppend([s0], t, k, key);
    }
    assert f0 == [] || fx == [] by {
      FilterSingle(x, k, key);
      FilterSingle(s0, k, key);
    }
    if fx == [] {
      assert fx + ft == ft && fx + rhs == rhs;
    } else {
      assert f0 + (fx + ft) == fx + ft && rhs == ft;
    }
  }

  /**
    The sort is stable: the elements of any one key come out in the order
    they went in.
  */
  lemma {:induction false} SortByStable<T>(xs: seq<T>, key: T -> int, k: int)
    ensures Filter(SortBy(xs, key), k, key) == Filter(xs, k, key)
    decreases |xs|
  {
    if xs != [] {
      SortByStable(xs[1..], key, k);
      InsertByFilter(xs[0], SortBy(xs[1..], key), key, k);
      assert xs == [xs[0]] + xs[1..];
      FilterAppend([xs[0]], xs[1..], k, key);
    }
  }

  /** `map.has(k) ? map.get(k) : undefined`, as the position of the bucket of key `k`. */
  function FindBucket<T, K(==)>(bs: seq<seq<T>>, k: K, key: T -> K): (i: Option<nat>)
    ensures i.Some? ==> i.value < |bs| && bs[i.value] != [] && key(bs[i.value][0]) == k
    ensures i.None? ==> forall j :: 0 <= j < |bs| && bs[j] != [] ==> key(bs[j][0]) != k
  {
    if bs == [] then None
    else if bs[0] != [] && key(bs[0][0]) == k then Some(0)
    else match FindBucket(bs[1..], k, key)
      case None => None
      case Some(j) => Some(j + 1)
  }

  /** `if (!map.has(k)) map.set(k, []); map.get(k).push(x)` with `k = key(x)`. */
  function Place<T, K(==)>(bs: seq<seq<T>>, x: T, key: T -> K): seq<seq<T>> {
    match FindBucket(bs, key(x), key)
    case None => bs + [[x]]
    case Some(j) => bs[j := bs[j] + [x]]
  }

  /** The buckets after placing every element in order. */
  function Buckets<T, K(==)>(xs: seq<T>, key: T -> K): seq<seq<T>>
    decreases |xs|
  {
    if xs == [] then [] else Place(Buckets(xs[..|xs| - 1], key), xs[|xs| - 1], key)
  }

  /** Filtering one more element. */
  lemma FilterLast<T, K>(init: seq<T>, x: T, k: K, key: T -> K)
    ensures Filter(init + [x], k, key) == Filter(init, k, key) + (if key(x) == k then [x] else [])
  {
    assert (init + [x])[..|init|] == init;
  }

  /** Bucket `i` holds the elements of `xs` with the key of `u[i]`. */
  ghost predicate Matches<T, K>(bs: seq<seq<T>>, u: seq<T>, xs: seq<T>, key: T -> K) {
    |bs| == |u| && forall i :: 0 <= i < |u| ==> bs[i] == Filter(xs, key(u[i]), key)
  }

  /** The first element of each matching bucket has the bucket's key. */
  lemma MatchesHeads<T, K>(bs: seq<seq<T>>, u: seq<T>, xs: seq<T>, key: T -> K)
    requires Matches(bs, u, xs, key) && Within(u, xs)
    ensures forall i :: 0 <= i < |u| ==> bs[i] != [] && key(bs[i][0]) == key(u[i])
  {
    forall i | 0 <= i < |u|
      ensures bs[i] != [] && key(bs[i][0]) == key(u[i])
    {
      var m :| 0 <= m < |xs| && xs[m] == u[i];
      FilterEmptyIff(xs, key(u[i]), key);
      FilterFacts(xs, key(u[i]), key);
    }
  }

  /** Placing an element whose key has a bucket. */
  lemma PlaceFound<T, K>(bs: seq<seq<T>>, u: seq<T>, init: seq<T>, x: T, key: T -> K, j: nat)
    requires Matches(bs, u, init, key) && DistinctBy(u, key)
    requires j < |u| && key(u[j]) == key(x)
    ensures Matches(bs[j := bs[j] + [x]], u, init + [x], key)
  {
    forall i | 0 <= i < |u|
      ensures bs[j := bs[j] + [x]][i] == Filter(init + [x], key(u[i]), key)
    {
      FilterLast(init, x, key(u[i]), key);
    }
  }

  /** Placing an element whose key is new. */
  lemma PlaceNew<T, K>(bs: seq<seq<T>>, u: seq<T>, init: seq<T>, x: T, key: T -> K)
    requires Matches(bs, u, init, key) && KeysCovered(u, init, key)
    requires forall j :: 0 <= j < |u| ==> key(u[j]) != key(x)
    ensures Matches(bs + [[x]], u + [x], init + [x], key)
  {
    FilterEmptyIff(init, key(x), key);
    forall i | 0 <= i < |u| + 1
      ensures (bs + [[x]])[i] == Filter(init + [x], key((u + [x])[i]), key)
    {
      FilterLast(init, x, key((u + [x])[i]), key);
    }
  }

  /**
    Bucket `i` holds exactly the elements with the `i`-th distinct key in
    order of first occurrence, in input order.
  */
  lemma {:induction false} BucketsAsFilter<T, K>(xs: seq<T>, key: T -> K)
    ensures Matches(Buckets(xs, key), UniqBy(xs, key), xs, key)
    decreases |xs|
  {
    if xs != [] {
      var n := |xs| - 1;
      var init := xs[..n];
      var x := xs[n];
      assert xs == init + [x];
      BucketsAsFilter(init, key);
      var u0 := UniqBy(init, key);
      var bs0 := Buckets(init, key);
      UniqByWithin(init, key);
      UniqByDistinct(init, key);
      MatchesHeads(bs0, u0, init, key);
      match FindBucket(bs0, key(x), key)
      case Some(j) =>
        assert HasKey(u0, key(x), key) by {
          assert key(u0[j]) == key(x);
        }
        PlaceFound(bs0, u0, init, x, key, j);
      case None =>
        assert !HasKey(u0, key(x), key);
        UniqByCovers(init, key);
        PlaceNew(bs0, u0, init, x, key);
    }
  }

  /** Each bucket is non-empty, holds input elements of one key, and no two buckets share a key. */
  lemma BucketsShape<T, K>(xs: seq<T>, key: T -> K)
    ensures forall i :: 0 <= i < |Buckets(xs, key)| ==>
      Buckets(xs, key)[i] != [] && Within(Buckets(xs, key)[i], xs)
    ensures forall i, k :: 0 <= i < |Buckets(xs, key)| && 0 <= k < |Buckets(xs, key)[i]| ==>
      key(Buckets(xs, key)[i][k]) == key(Buckets(xs, key)[i][0])
    ensures forall i, j :: 0 <= i < j < |Buckets(xs, key)| ==>
      key(Buckets(xs, key)[i][0]) != key(Buckets(xs, key)[j][0])
  {
    var bs := Buckets(xs, key);
    var u := UniqBy(xs, key);
    BucketsAsFilter(xs, key);
    UniqByWithin(xs, key);
    UniqByDistinct(xs, key);
    forall i | 0 <= i < |bs|
      ensures bs[i] != [] && Within(bs[i], xs) && key(bs[i][0]) == key(u[i])
      ensures forall k :: 0 <= k < |bs[i]| ==> key(bs[i][k]) == key(u[i])
    {
      var m :| 0 <= m < |xs| && xs[m] == u[i];
      FilterEmptyIff(xs, key(u[i]), key);
      FilterFacts(xs, key(u[i]), key);
    }
  }

  /** Every element lands in the bucket of its key. */
  lemma BucketsCover<T, K>(xs: seq<T>, key: T -> K, m: nat)
    requires m < |xs|
    ensures exists i :: 0 <= i < |Buckets(xs, key)| && xs[m] in Buckets(xs, key)[i]
  {
    var bs := Buckets(xs, key);
    var u := UniqBy(xs, key);
    BucketsAsFilter(xs, key);
    BucketsShape(xs, key);
    UniqByCovers(xs, key);
    var i :| 0 <= i < |u| && key(u[i]) == key(xs[m]);
    FilterFacts(xs, key(u[i]), key);
    assert xs[m] in bs[i];
  }

  /** The loop that fills such a Map. */
  method BucketBy<T, K(==)>(xs: seq<T>, key: T -> K) returns (bs: seq<seq<T>>)
    ensures bs == Buckets(xs, key)
  {
    bs := [];
    var i := 0;
    while i < |xs|
      invariant 0 <= i <= |xs|
      invariant bs == Buckets(xs[..i], key)
    {
      assert xs[..i + 1][..i] == xs[..i];
      var j := FindBucket(bs, key(xs[i]), key);
      if j.None? {
        bs := bs + [[xs[i]]];
      } else {
        bs := bs[j.value := bs[j.value] + [xs[i]]];
      }
      i := i + 1;
    }
    assert xs[..i] == xs;
  }

  // ---------------------------------------------------------------------------
  // The first element of each key, sorted

  /** Every element of the sorted list is an input element. */
  lemma SortByWithin<T>(xs: seq<T>, order: T -> int)
    ensures Within(SortBy(xs, order), xs)
  {
    var r := SortBy(xs, order);
    forall i | 0 <= i < |r|
      ensures r[i] in xs
    {
      assert r[i] in multiset(r);
    }
  }

  /** Every input key is the key of an element of the sorted list. */
  lemma SortByKeysCovered<T, K>(u: seq<T>, xs: seq<T>, key: T -> K, order: T -> int)
    requires KeysCovered(u, xs, key)
    ensures KeysCovered(SortBy(u, order), xs, key)
  {
    var r := SortBy(u, order);
    forall i | 0 <= i < |xs|
      ensures exists j :: 0 <= j < |r| && key(r[j]) == key(xs[i])
    {
      var j :| 0 <= j < |u| && key(u[j]) == key(xs[i]);
      assert u[j] in multiset(r);
      var k :| 0 <= k < |r| && r[k] == u[j];
    }
  }

  /** `SortBy(UniqBy(xs, key), order)`: distinct keys, ordered, from the input, covering its keys. */
  lemma SortedUniqFacts<T, K>(xs: seq<T>, key: T -> K, order: T -> int)
    ensures DistinctBy(SortBy(UniqBy(xs, key), order), key) && SortedBy(SortBy(UniqBy(xs, key), order), order)
    ensures Within(SortBy(UniqBy(xs, key), order), xs) && KeysCovered(SortBy(UniqBy(xs, key), order), xs, key)
    ensures xs != [] ==> SortBy(UniqBy(xs, key), order) != []
  {
    var u := UniqBy(xs, key);
    var r := SortBy(u, order);
    UniqByDistinct(xs, key);
    UniqByWithin(xs, key);
    UniqByCovers(xs, key);
    SortByKeepsDistinct(u, order, key);
    SortBySorted(u, order);
    SortByWithin(u, order);
    SortByKeysCovered(u, xs, key, order);
    forall i | 0 <= i < |r|
      ensures r[i] in xs
    {
      assert r[i] in u;
    }
    if xs != [] {
      assert |u| > 0 by {
        var j :| 0 <= j < |u| && key(u[j]) == key(xs[0]);
      }
    }
  }

  // ---------------------------------------------------------------------------
  // Concatenation

  /** The pieces, one after the other. */
  function Concat<T>(xss: seq<seq<T>>): (r: seq<T>)
    decreases |xss|
  {
    if xss == [] then [] else xss[0] + Concat(xss[1..])
  }

  /** A prefix grows by the element that follows it. */
  lemma PrefixGrows<T>(s: seq<T>, i: nat)
    requires i < |s|
    ensures s[..i + 1] == s[..i] + [s[i]]
  {
  }

  /** What a prefix holds, the whole holds. */
  lemma PrefixHas<T>(a: seq<T>, b: seq<T>, x: T)
    requires a <= b && x in a
    ensures x in b
  {
    var j :| 0 <= j < |a| && a[j] == x;
    assert b[j] == x;
  }

  /** An element of either part is an element of the concatenation. */
  lemma InAppend<T>(a: seq<T>, b: seq<T>, x: T)
    requires x in a
    ensures x in a + b && x in b + a
  {
  }

  /** An element of a concatenation comes from its first part or from its second. */
  lemma AppendIndex<T>(a: seq<T>, b: seq<T>, j: nat)
    requires j < |a + b|
    ensures j < |a| ==> (a + b)[j] == a[j]
    ensures j >= |a| ==> (a + b)[j] == b[j - |a|]
  {
  }

  lemma PrefixWhole<T>(s: seq<T>)
    ensures s[..|s|] == s
  {
  }

  lemma AppendAssoc<T>(a: seq<T>, x: T, b: seq<T>)
    ensures (a + [x]) + b == a + ([x] + b)
  {
  }

  /** Every element of every piece is an element of the concatenation. */
  lemma {:induction false} ConcatHas<T>(xss: seq<seq<T>>, k: nat, j: nat)
    requires k < |xss| && j < |xss[k]|
    ensures xss[k][j] in Concat(xss)
    decreases |xss|
  {
    if k == 0 {
      assert Concat(xss)[j] == xss[0][j];
    } else {
      ConcatHas(xss[1..], k - 1, j);
    }
  }

  // ---------------------------------------------------------------------------
  // Prefixes

  /**
    A prefix of a list with distinct keys in order keeps both properties, and
    every element left out comes at or after the prefix's last in that order.
  */
  lemma TakeFacts<T, K>(s: seq<T>, n: nat, key: T -> K, order: T -> int)
    requires n <= |s| && DistinctBy(s, key) && SortedBy(s, order)
    ensures DistinctBy(s[..n], key) && SortedBy(s[..n], order)
    ensures n > 0 ==> forall y :: y in s ==> y in s[..n] || order(s[n - 1]) <= order(y)
  {
    forall y | n > 0 && y in s
      ensures y in s[..n] || order(s[n - 1]) <= order(y)
    {
      var k :| 0 <= k < |s| && s[k] == y;
      if k < n {
        assert s[..n][k] == y;
      }
    }
  }

  /** `Within` is transitive. */
  lemma WithinTrans<T>(a: seq<T>, b: seq<T>, c: seq<T>)
    requires Within(a, b) && Within(b, c)
    ensures Within(a, c)
  {
    forall i | 0 <= i < |a|
      ensures a[i] in c
    {
      var k :| 0 <= k < |b| && b[k] == a[i];
    }
  }
}
