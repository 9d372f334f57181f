/** The two dataframe operations the callbacks apply to a table of rows:
    a boolean-mask filter, `df[mask]`, and `nlargest(n, column)` with its
    default `keep='first'`. Rows are kept as a sequence in frame order. */
module Query {

  function Min(a: int, b: int): int
  {
    if a <= b then a else b
  }

  /** `sub` is `s` with some elements dropped and the others left in order. */
  predicate IsSubsequence<T(==)>(sub: seq<T>, s: seq<T>)
  {
    if sub == [] then true
    else if s == [] then false
    else (sub[0] == s[0] && IsSubsequence(sub[1..], s[1..])) || IsSubsequence(sub, s[1..])
  }

  /** `df[mask]`: the rows satisfying `p`, in frame order. */
  function Filter<T>(s: seq<T>, p: T -> bool): seq<T>
  {
    if s == [] then []
    else if p(s[0]) then [s[0]] + Filter(s[1..], p)
    else Filter(s[1..], p)
  }

  /** The filter keeps exactly the rows satisfying `p`, every copy of each,
      in the order they had in the frame; no match gives an empty frame. */
  lemma {:induction false} FilterSpec<T>(s: seq<T>, p: T -> bool)
    ensures forall x | x in Filter(s, p) :: p(x)
    ensures forall x | x in s :: multiset(Filter(s, p))[x] == if p(x) then multiset(s)[x] else 0
    ensures multiset(Filter(s, p)) <= multiset(s)
    ensures IsSubsequence(Filter(s, p), s)
  {
    if s != [] {
      FilterSpec(s[1..], p);
      assert s == [s[0]] + s[1..];
      var r := Filter(s, p);
      if p(s[0]) {
        assert r == [s[0]] + Filter(s[1..], p);
        assert r[0] == s[0] && r[1..] == Filter(s[1..], p);
      }
    }
  }

  /** Filtering two orderings of the same rows keeps the same rows. */
  lemma FilterPermutation<T>(a: seq<T>, b: seq<T>, p: T -> bool)
    requires multiset(a) == multiset(b)
    ensures multiset(Filter(a, p)) == multiset(Filter(b, p))
  {
    FilterSpec(a, p);
    FilterSpec(b, p);
    forall x
      ensures multiset(Filter(a, p))[x] == multiset(Filter(b, p))[x]
    {
      if x !in a {
        assert x !in multiset(b);
      }
    }
  }

  lemma {:induction false} FilterConcat<T>(a: seq<T>, b: seq<T>, p: T -> bool)
    ensures Filter(a + b, p) == Filter(a, p) + Filter(b, p)
  {
    if a == [] {
      assert a + b == b;
    } else {
      var ab := a + b;
      assert ab[0] == a[0] && ab[1..] == a[1..] + b;
      FilterConcat(a[1..], b, p);
      var head := if p(a[0]) then [a[0]] else [];
      assert Filter(ab, p) == head + Filter(ab[1..], p);
      assert Filter(a, p) == head + Filter(a[1..], p);
    }
  }

  /** Where a kept row lands in the filtered frame: after the kept rows before it. */
  lemma FilterIndex<T>(s: seq<T>, p: T -> bool, i: nat) returns (k: nat)
    requires i < |s| && p(s[i])
    ensures k == |Filter(s[..i], p)| && k < |Filter(s, p)| && Filter(s, p)[k] == s[i]
  {
    k := |Filter(s[..i], p)|;
    assert s == s[..i] + s[i..];
    FilterConcat(s[..i], s[i..], p);
    assert s[i..] == [s[i]] + s[i + 1..];
  }

  /** Two kept rows keep their relative order in the filtered frame. */
  lemma FilterIndices<T>(s: seq<T>, p: T -> bool, i: nat, j: nat) returns (i': nat, j': nat)
    requires i < j < |s| && p(s[i]) && p(s[j])
    ensures i' < j' < |Filter(s, p)| && Filter(s, p)[i'] == s[i] && Filter(s, p)[j'] == s[j]
  {
    i' := FilterIndex(s, p, i);
    j' := FilterIndex(s, p, j);
    assert s[..j] == s[..i] + s[i..j];
    FilterConcat(s[..i], s[i..j], p);
    assert s[i..j] == [s[i]] + s[i + 1..j];
    FilterConcat([s[i]], s[i + 1..j], p);
  }

  /** Keys never increase from one row to the next. */
  predicate Descending<T>(s: seq<T>, key: T -> int)
  {
    forall i, j :: 0 <= i < j < |s| ==> key(s[i]) >= key(s[j])
  }

  /** Puts `x` in front of the first row whose key is not larger than its own,
      so that `x` goes before the rows of equal key that follow it. */
  function InsertDesc<T>(x: T, s: seq<T>, key: T -> int): seq<T>
  {
    if s == [] || key(s[0]) <= key(x) then [x] + s
    else [s[0]] + InsertDesc(x, s[1..], key)
  }

  /** Sorts by descending key; rows with equal keys keep their frame order. */
  function SortDesc<T>(s: seq<T>, key: T -> int): seq<T>
  {
    if s == [] then [] else InsertDesc(s[0], SortDesc(s[1..], key), key)
  }

  /** The mask "the key of the row is `v`". */
  function KeyIs<T>(key: T -> int, v: int): T -> bool
  {
    x => key(x) == v
  }

  /** The rows of `s` whose key is `v`, in order. */
  function WithKey<T>(s: seq<T>, key: T -> int, v: int): seq<T>
  {
    Filter(s, KeyIs(key, v))
  }

  lemma {:induction false} InsertDescMultiset<T>(x: T, s: seq<T>, key: T -> int)
    ensures multiset(InsertDesc(x, s, key)) == multiset(s) + multiset{x}
  {
    if s != [] && key(s[0]) > key(x) {
      assert s == [s[0]] + s[1..];
      InsertDescMultiset(x, s[1..], key);
    }
  }

  /** A row whose key is at least every key of a descending frame can go in front. */
  lemma ConsDescending<T>(x: T, s: seq<T>, key: T -> int)
    requires Descending(s, key)
    requires forall j :: 0 <= j < |s| ==> key(s[j]) <= key(x)
    ensures Descending([x] + s, key)
  {
    var r := [x] + s;
    forall i, j | 0 <= i < j < |r|
      ensures key(r[i]) >= key(r[j])
    {
      assert r[j] == s[j - 1];
      if i > 0 {
        assert r[i] == s[i - 1];
      }
    }
  }

  lemma {:induction false} InsertDescSorted<T>(x: T, s: seq<T>, key: T -> int)
    requires Descending(s, key)
    ensures Descending(InsertDesc(x, s, key), key)
  {
    if s == [] || key(s[0]) <= key(x) {
      ConsDescending(x, s, key);
    } else {
      var rest := InsertDesc(x, s[1..], key);
      InsertDescSorted(x, s[1..], key);
      InsertDescMultiset(x, s[1..], key);
      forall j | 0 <= j < |rest|
        ensures key(rest[j]) <= key(s[0])
      {
        assert rest[j] in multiset(rest);
        if rest[j] != x {
          assert rest[j] in s[1..];
        }
      }
      ConsDescending(s[0], rest, key);
    }
  }

  lemma {:induction false} InsertDescStable<T>(x: T, s: seq<T>, key: T -> int, v: int)
    ensures WithKey(InsertDesc(x, s, key), key, v)
         == (if key(x) == v then [x] else []) + WithKey(s, key, v)
  {
    if s == [] || key(s[0]) <= key(x) {
      FilterConcat([x], s, KeyIs(key, v));
    } else {
      FilterConcat([s[0]], InsertDesc(x, s[1..], key), KeyIs(key, v));
      FilterConcat([s[0]], s[1..], KeyIs(key, v));
      assert s == [s[0]] + s[1..];
      InsertDescStable(x, s[1..], key, v);
    }
  }

  lemma {:induction false} SortDescSpec<T>(s: seq<T>, key: T -> int)
    ensures multiset(SortDesc(s, key)) == multiset(s)
    ensures Descending(SortDesc(s, key), key)
    ensures forall v :: WithKey(SortDesc(s, key), key, v) == WithKey(s, key, v)
  {
    if s != [] {
      assert s == [s[0]] + s[1..];
      SortDescSpec(s[1..], key);
      InsertDescMultiset(s[0], SortDesc(s[1..], key), key);
      InsertDescSorted(s[0], SortDesc(s[1..], key), key);
      forall v
        ensures WithKey(SortDesc(s, key), key, v) == WithKey(s, key, v)
      {
        InsertDescStable(s[0], SortDesc(s[1..], key), key, v);
        FilterConcat([s[0]], s[1..], KeyIs(key, v));
      }
    }
  }

  /** Sorting rows that are already in descending order leaves them as they are. */
  lemma {:induction false} SortDescOfDescending<T>(s: seq<T>, key: T -> int)
    requires Descending(s, key)
    ensures SortDesc(s, key) == s
  {
    if s != [] {
      SortDescOfDescending(s[1..], key);
      assert s == [s[0]] + s[1..];
    }
  }

  /** `nlargest(n, key)` with `keep='first'`: the `n` rows with the largest
      keys (all rows when there are fewer), in descending key order; rows of
      equal key are taken in frame order, so a tie goes to the earlier row. */
  function NLargest<T(==)>(n: nat, s: seq<T>, key: T -> int): (r: seq<T>)
    ensures |r| == Min(n, |s|)
    ensures Descending(r, key)
    ensures multiset(r) <= multiset(s)
    ensures forall x, y :: x in multiset(s) - multiset(r) && y in r ==> key(x) <= key(y)
    ensures forall v :: WithKey(r, key, v) <= WithKey(s, key, v)
  {
    var sorted := SortDesc(s, key);
    SortDescSpec(s, key);
    NLargestSpec(n, sorted, key);
    sorted[..Min(n, |s|)]
  }

  /** What taking the first `n` rows of a sorted frame gives `NLargest`. */
  lemma NLargestSpec<T>(n: nat, sorted: seq<T>, key: T -> int)
    requires Descending(sorted, key)
    ensures var r := sorted[..Min(n, |sorted|)];
      && multiset(r) <= multiset(sorted)
      && (forall x, y :: x in multiset(sorted) - multiset(r) && y in r ==> key(x) <= key(y))
      && (forall v :: WithKey(r, key, v) <= WithKey(sorted, key, v))
  {
    var m := Min(n, |sorted|);
    var r, rest := sorted[..m], sorted[m..];
    assert sorted == r + rest;
    assert multiset(sorted) == multiset(r) + multiset(rest);
    forall x, y | x in multiset(sorted) - multiset(r) && y in r
      ensures key(x) <= key(y)
    {
      assert x in rest;
    }
    forall v
      ensures WithKey(r, key, v) <= WithKey(sorted, key, v)
    {
      FilterConcat(r, rest, KeyIs(key, v));
    }
  }

  /** `nlargest` applied to its own result gives that result back. */
  lemma NLargestIdempotent<T>(n: nat, s: seq<T>, key: T -> int)
    ensures NLargest(n, NLargest(n, s, key), key) == NLargest(n, s, key)
  {
    var r := NLargest(n, s, key);
    SortDescOfDescending(r, key);
  }
}
