/** The list operations the application is built from: `filter`, a `reduce`
    that sums, and a stable `sort` by a comparator, each with the facts the
    rest of the model relies on. */
module Seqs {

  /** `s.filter(p)`: the elements of `s` that satisfy `p`, in their order. */
  function Filter<T>(s: seq<T>, p: T -> bool): (r: seq<T>)
    ensures |r| <= |s|
    ensures forall i :: 0 <= i < |r| ==> r[i] in s && p(r[i])
    ensures forall i :: 0 <= i < |s| && p(s[i]) ==> s[i] in r
  {
    if s == [] then [] else (if p(s[0]) then [s[0]] else []) + Filter(s[1..], p)
  }

  lemma {:induction false} FilterAppend<T>(a: seq<T>, b: seq<T>, p: T -> bool)
    ensures Filter(a + b, p) == Filter(a, p) + Filter(b, p)
  {
    if a == [] {
      assert a + b == b;
    } else {
      assert (a + b)[0] == a[0];
      assert (a + b)[1..] == a[1..] + b;
      FilterAppend(a[1..], b, p);
    }
  }

  /** Filtering by a predicate that holds everywhere keeps the whole list. */
  lemma {:induction false} FilterAll<T>(s: seq<T>, p: T -> bool)
    requires forall i :: 0 <= i < |s| ==> p(s[i])
    ensures Filter(s, p) == s
  {
    if s != [] {
      FilterAll(s[1..], p);
    }
  }

  /** Filtering by a predicate that holds nowhere keeps nothing. */
  lemma {:induction false} FilterNone<T>(s: seq<T>, p: T -> bool)
    requires forall i :: 0 <= i < |s| ==> !p(s[i])
    ensures Filter(s, p) == []
  {
    if s != [] {
      FilterNone(s[1..], p);
    }
  }

  /** The filtered list is empty exactly when no element passes the test. */
  lemma FilterEmptyIff<T>(s: seq<T>, p: T -> bool)
    ensures Filter(s, p) == [] <==> forall i :: 0 <= i < |s| ==> !p(s[i])
  {
    if forall i :: 0 <= i < |s| ==> !p(s[i]) {
      FilterNone(s, p);
    }
  }

  /** Two predicates that agree on the list filter it alike. */
  lemma {:induction false} FilterSame<T>(s: seq<T>, p: T -> bool, q: T -> bool)
    requires forall i :: 0 <= i < |s| ==> p(s[i]) == q(s[i])
    ensures Filter(s, p) == Filter(s, q)
  {
    if s != [] {
      FilterSame(s[1..], p, q);
    }
  }

  /** Filtering by two predicates of which exactly one holds on each element
      splits the list into two parts that together are a permutation of it. */
  lemma {:induction false} FilterPartition<T>(s: seq<T>, p: T -> bool, q: T -> bool)
    requires forall i :: 0 <= i < |s| ==> p(s[i]) != q(s[i])
    ensures multiset(Filter(s, p)) + multiset(Filter(s, q)) == multiset(s)
  {
    if s != [] {
      FilterPartition(s[1..], p, q);
      assert s == [s[0]] + s[1..];
    }
  }

  /** A filtered list takes each element at most as often as the list has
      it. */
  lemma {:induction false} FilterSubMultiset<T>(s: seq<T>, p: T -> bool)
    ensures multiset(Filter(s, p)) <= multiset(s)
  {
    if s != [] {
      FilterSubMultiset(s[1..], p);
      assert s == [s[0]] + s[1..];
      if p(s[0]) {
        assert Filter(s, p) == [s[0]] + Filter(s[1..], p);
      }
    }
  }

  /** Replacing an element that the filter drops by another one it drops does
      not change the filtered list. */
  lemma {:induction false} FilterUpdateDropped<T>(s: seq<T>, j: nat, x: T, p: T -> bool)
    requires j < |s| && !p(s[j]) && !p(x)
    ensures Filter(s[j := x], p) == Filter(s, p)
  {
    if j > 0 {
      assert s[j := x][1..] == s[1..][j - 1 := x];
      FilterUpdateDropped(s[1..], j - 1, x, p);
    }
  }

  /** Filtering out exactly one element removes that element and keeps the
      others in order. */
  lemma {:induction false} FilterRemovesOne<T>(s: seq<T>, k: nat, p: T -> bool)
    requires k < |s| && !p(s[k])
    requires forall j :: 0 <= j < |s| && j != k ==> p(s[j])
    ensures Filter(s, p) == s[..k] + s[k + 1..]
  {
    var t := s[1..];
    assert forall j :: 0 <= j < |t| && j + 1 != k ==> p(t[j]) by {
      forall j | 0 <= j < |t| && j + 1 != k ensures p(t[j]) {
        assert t[j] == s[j + 1];
      }
    }
    if k == 0 {
      FilterAll(t, p);
    } else {
      FilterRemovesOne(t, k - 1, p);
      assert p(s[0]);
      RemoveAtTail(s, k);
    }
  }

  /** Removing position `k > 0` keeps the head and removes position `k - 1`
      of the tail. */
  lemma RemoveAtTail<T>(s: seq<T>, k: nat)
    requires 0 < k < |s|
    ensures s[..k] + s[k + 1..] == [s[0]] + (s[1..][..k - 1] + s[1..][k..])
  {
    assert s[..k] == [s[0]] + s[1..][..k - 1];
    assert s[k + 1..] == s[1..][k..];
  }

  /** Filtering out at least one element shortens the list. */
  lemma {:induction false} FilterShorter<T>(s: seq<T>, k: nat, p: T -> bool)
    requires k < |s| && !p(s[k])
    ensures |Filter(s, p)| < |s|
  {
    if k > 0 {
      FilterShorter(s[1..], k - 1, p);
    }
  }

  /** An element is kept exactly when it is in the list and passes the test. */
  lemma FilterMembers<T>(s: seq<T>, p: T -> bool)
    ensures forall x :: x in Filter(s, p) <==> x in s && p(x)
  {
    forall x ensures x in Filter(s, p) <==> x in s && p(x) {
      if x in Filter(s, p) {
        var i :| 0 <= i < |Filter(s, p)| && Filter(s, p)[i] == x;
      }
      if x in s && p(x) {
        var i :| 0 <= i < |s| && s[i] == x;
      }
    }
  }

  lemma AppendPieces<T>(c: seq<T>, a: seq<T>, b: seq<T>, x: seq<T>, y: seq<T>)
    ensures c + a + b + x + y == c + (a + b + x + y)
    ensures c + a + b + x == c + (a + b + x)
  {
  }

  /** A loop that builds `target` element by element while comparing it with
      `orig`: one more element keeps the built list a prefix of `target`, and
      it differs from `orig`'s prefix exactly when it did before or the new
      element differs. */
  lemma PrefixStep<T>(target: seq<T>, orig: seq<T>, i: nat, acc: seq<T>, x: T)
    requires i < |target| && i < |orig| && acc == target[..i] && x == target[i]
    ensures acc + [x] == target[..i + 1]
    ensures acc + [x] != orig[..i + 1] <==> acc != orig[..i] || x != orig[i]
  {
    assert orig[..i + 1] == orig[..i] + [orig[i]];
    if acc + [x] == orig[..i + 1] {
      assert acc == (acc + [x])[..i] && orig[..i] == orig[..i + 1][..i];
      assert x == (acc + [x])[i];
    }
  }

  lemma AppendAssoc<T>(a: seq<T>, b: seq<T>, c: seq<T>)
    ensures a + b + c == a + (b + c)
  {
  }

  /** The layout of a list with a head, a middle and a tail appended. */
  lemma AppendLayout<T>(s: seq<T>, m: T, l: seq<T>, r: seq<T>)
    ensures var all := s + ([m] + l + r);
      all == s + [m] + l + r && |all| == |s| + 1 + |l| + |r|
      && all[..|s|] == s && all[|s|] == m && all[|s| + 1..] == l + r
      && all[|s| + 1..|s| + 1 + |l|] == l
  {
    var all := s + ([m] + l + r);
    assert all[|s| + 1..] == l + r;
  }

  lemma AppendBlock<T>(c: seq<T>, a: seq<T>, b: seq<T>, x: seq<T>, y: seq<T>, z: seq<T>)
    ensures c + a + b + x + y + z == c + (a + b + (x + y) + z)
  {
  }

  /** `s.filter((_, j) => j !== i)`: removes the element at index `i`, if
      there is one. */
  function RemoveAt<T>(s: seq<T>, i: nat): (r: seq<T>)
    ensures i < |s| ==> |r| == |s| - 1 && r == s[..i] + s[i + 1..]
    ensures i >= |s| ==> r == s
  {
    if i < |s| then s[..i] + s[i + 1..] else s
  }

  /** `s.reduce((acc, x) => acc + f(x), 0)` for a non-negative `f`. */
  function Sum<T>(s: seq<T>, f: T -> nat): nat
  {
    if s == [] then 0 else f(s[0]) + Sum(s[1..], f)
  }

  lemma {:induction false} SumAppend<T>(a: seq<T>, b: seq<T>, f: T -> nat)
    ensures Sum(a + b, f) == Sum(a, f) + Sum(b, f)
  {
    if a == [] {
      assert a + b == b;
    } else {
      assert (a + b)[0] == a[0];
      assert (a + b)[1..] == a[1..] + b;
      SumAppend(a[1..], b, f);
    }
  }

  /** Summing over two filters of which exactly one keeps each element gives
      the sum over the whole list. */
  lemma {:induction false} SumSplit<T>(s: seq<T>, p: T -> bool, q: T -> bool, f: T -> nat)
    requires forall i :: 0 <= i < |s| ==> p(s[i]) != q(s[i])
    ensures Sum(Filter(s, p), f) + Sum(Filter(s, q), f) == Sum(s, f)
  {
    if s != [] {
      SumSplit(s[1..], p, q, f);
      var h := if p(s[0]) then [s[0]] else [];
      var k := if q(s[0]) then [s[0]] else [];
      SumAppend(h, Filter(s[1..], p), f);
      SumAppend(k, Filter(s[1..], q), f);
    }
  }

  /** A sum over part of a list is at most the sum over all of it. */
  lemma {:induction false} SumFilterLe<T>(s: seq<T>, p: T -> bool, f: T -> nat)
    ensures Sum(Filter(s, p), f) <= Sum(s, f)
  {
    if s != [] {
      SumFilterLe(s[1..], p, f);
      SumAppend(if p(s[0]) then [s[0]] else [], Filter(s[1..], p), f);
    }
  }

  /** Two functions that agree on the list sum to the same total. */
  lemma {:induction false} SumSame<T>(s: seq<T>, f: T -> nat, g: T -> nat)
    requires forall i :: 0 <= i < |s| ==> f(s[i]) == g(s[i])
    ensures Sum(s, f) == Sum(s, g)
  {
    if s != [] {
      SumSame(s[1..], f, g);
    }
  }

  /** `s.reduce((acc, x) => acc + f(x), 0)` over real numbers. */
  function SumReal<T>(s: seq<T>, f: T -> real): real
  {
    if s == [] then 0.0 else f(s[0]) + SumReal(s[1..], f)
  }

  lemma {:induction false} SumRealAppend<T>(a: seq<T>, b: seq<T>, f: T -> real)
    ensures SumReal(a + b, f) == SumReal(a, f) + SumReal(b, f)
  {
    if a == [] {
      assert a + b == b;
    } else {
      assert (a + b)[0] == a[0];
      assert (a + b)[1..] == a[1..] + b;
      SumRealAppend(a[1..], b, f);
    }
  }

  lemma SumRealSnoc<T>(s: seq<T>, x: T, f: T -> real)
    ensures SumReal(s + [x], f) == SumReal(s, f) + f(x)
  {
    SumRealAppend(s, [x], f);
    assert SumReal([x], f) == f(x) + SumReal([], f);
  }

  /** A pointwise bound on the terms bounds the sums. */
  lemma {:induction false} SumRealLe<T>(s: seq<T>, f: T -> real, g: T -> real)
    requires forall i :: 0 <= i < |s| ==> f(s[i]) <= g(s[i])
    ensures SumReal(s, f) <= SumReal(s, g)
  {
    if s != [] {
      SumRealLe(s[1..], f, g);
    }
  }

  /** `s.slice(0, n)` */
  function Take<T>(s: seq<T>, n: nat): (r: seq<T>)
    ensures |r| <= n && |r| <= |s|
    ensures |s| >= n ==> |r| == n
    ensures r == s[..|r|]
  {
    if |s| <= n then s else s[..n]
  }

  // --- Sorting --------------------------------------------------------------

  /** Every two elements are comparable. */
  ghost predicate Total<T(!new)>(le: (T, T) -> bool) {
    forall a, b :: le(a, b) || le(b, a)
  }

  ghost predicate Transitive<T(!new)>(le: (T, T) -> bool) {
    forall a, b, c :: le(a, b) && le(b, c) ==> le(a, c)
  }

  /** Every element is `le` every element after it. */
  ghost predicate SortedBy<T>(s: seq<T>, le: (T, T) -> bool) {
    forall i, j :: 0 <= i < j < |s| ==> le(s[i], s[j])
  }

  /** Puts `x` in front of the first element it may precede. */
  function Insert<T>(x: T, s: seq<T>, le: (T, T) -> bool): (r: seq<T>)
    ensures |r| == |s| + 1
    ensures multiset(r) == multiset(s) + multiset{x}
  {
    if s == [] then [x]
    else if le(x, s[0]) then [x] + s
    else
      assert s == [s[0]] + s[1..];
      [s[0]] + Insert(x, s[1..], le)
  }

  /** `[...s].sort(cmp)` where `le(a, b)` stands for `cmp(a, b) <= 0`: a stable
      insertion sort (an element never moves past an equal element that came
      after it). */
  function SortBy<T>(s: seq<T>, le: (T, T) -> bool): (r: seq<T>)
    ensures |r| == |s|
    ensures multiset(r) == multiset(s)
  {
    if s == [] then []
    else
      assert s == [s[0]] + s[1..];
      Insert(s[0], SortBy(s[1..], le), le)
  }

  lemma {:induction false} InsertSorted<T(!new)>(x: T, s: seq<T>, le: (T, T) -> bool)
    requires Total(le) && Transitive(le) && SortedBy(s, le)
    ensures SortedBy(Insert(x, s, le), le)
  {
    if s != [] && !le(x, s[0]) {
      assert le(s[0], x);
      var t := Insert(x, s[1..], le);
      InsertSorted(x, s[1..], le);
      forall k | 0 <= k < |t| ensures le(s[0], t[k]) {
        assert t[k] in multiset(t);
        assert t[k] == x || t[k] in s[1..];
      }
    }
  }

  lemma {:induction false} SortBySorted<T(!new)>(s: seq<T>, le: (T, T) -> bool)
    requires Total(le) && Transitive(le)
    ensures SortedBy(SortBy(s, le), le)
  {
    if s != [] {
      SortBySorted(s[1..], le);
      InsertSorted(s[0], SortBy(s[1..], le), le);
    }
  }

  /** Sorting keeps exactly the elements it was given. */
  lemma SortByMembers<T>(s: seq<T>, le: (T, T) -> bool)
    ensures forall x :: x in SortBy(s, le) <==> x in s
  {
    forall x ensures x in SortBy(s, le) <==> x in s {
      assert x in SortBy(s, le) <==> x in multiset(SortBy(s, le));
      assert x in s <==> x in multiset(s);
    }
  }

  /** The first element of a sorted list comes no later than any element. */
  lemma SortByHeadLeast<T(!new)>(s: seq<T>, le: (T, T) -> bool)
    requires Total(le) && Transitive(le) && s != []
    ensures forall x :: x in s ==> le(SortBy(s, le)[0], x)
  {
    var r := SortBy(s, le);
    SortBySorted(s, le);
    SortByMembers(s, le);
    forall x | x in s ensures le(r[0], x) {
      var j :| 0 <= j < |r| && r[j] == x;
      if j == 0 {
        assert le(x, x) || le(x, x);
      }
    }
  }

  /** A prefix of a sorted list is sorted. */
  lemma TakeSorted<T>(s: seq<T>, n: nat, le: (T, T) -> bool)
    requires SortedBy(s, le)
    ensures SortedBy(Take(s, n), le)
  {
  }
}
