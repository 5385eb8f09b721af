/** The LINQ operators the queries are built from, as pure functions on
    sequences: `Where`, `Count`, `Sum`, `Select`, `Skip`, `Take`,
    `FirstOrDefault` and a stable `OrderBy`. */
module Seqs {
  import opened Optional

  /** `Where`: the elements satisfying `p`, in their original order. */
  function Filter<T>(s: seq<T>, p: T -> bool): (r: seq<T>)
    ensures |r| <= |s|
    ensures forall i :: 0 <= i < |r| ==> r[i] in s && p(r[i])
    ensures forall i :: 0 <= i < |s| && p(s[i]) ==> s[i] in r
    ensures multiset(r) <= multiset(s)
    decreases |s|
  {
    if |s| == 0 then []
    else
      assert s == [s[0]] + s[1..];
      (if p(s[0]) then [s[0]] else []) + Filter(s[1..], p)
  }

  /** Filtering with two predicates that agree everywhere gives the same result. */
  lemma {:induction false} FilterCongruent<T>(s: seq<T>, p: T -> bool, q: T -> bool)
    requires forall x :: p(x) == q(x)
    ensures Filter(s, p) == Filter(s, q)
    decreases |s|
  {
    if |s| > 0 {
      FilterCongruent(s[1..], p, q);
    }
  }

  /** Two successive `Where` stages equal one stage with the conjunction. */
  lemma {:induction false} FilterFilter<T>(s: seq<T>, p: T -> bool, q: T -> bool, both: T -> bool)
    requires forall x :: both(x) == (p(x) && q(x))
    ensures Filter(Filter(s, p), q) == Filter(s, both)
    decreases |s|
  {
    if |s| > 0 {
      FilterFilter(s[1..], p, q, both);
      assert Filter(s, p) == (if p(s[0]) then [s[0]] else []) + Filter(s[1..], p);
      if p(s[0]) {
        assert Filter(s, p)[1..] == Filter(s[1..], p);
      } else {
        assert Filter(s, p) == Filter(s[1..], p);
      }
    }
  }

  /** No two elements share a key. */
  ghost predicate DistinctKeys<T, K>(s: seq<T>, key: T -> K) {
    forall i, j :: 0 <= i < j < |s| ==> key(s[i]) != key(s[j])
  }

  /** `Where` keeps elements with distinct keys distinct. */
  lemma {:induction false} FilterKeepsDistinct<T, K>(s: seq<T>, p: T -> bool, key: T -> K)
    requires DistinctKeys(s, key)
    ensures DistinctKeys(Filter(s, p), key)
    decreases |s|
  {
    if |s| > 0 {
      var rest := s[1..];
      assert DistinctKeys(rest, key) by {
        forall i, j | 0 <= i < j < |rest| ensures key(rest[i]) != key(rest[j]) {
          assert rest[i] == s[i + 1] && rest[j] == s[j + 1];
        }
      }
      FilterKeepsDistinct(rest, p, key);
      var tail := Filter(rest, p);
      assert Filter(s, p) == (if p(s[0]) then [s[0]] else []) + tail;
      if p(s[0]) {
        HeadKeyUnique(s, key);
        var r := [s[0]] + tail;
        forall i, j | 0 <= i < j < |r| ensures key(r[i]) != key(r[j]) {
          assert r[j] == tail[j - 1];
          if i > 0 {
            assert r[i] == tail[i - 1];
          }
        }
      }
    }
  }

  /** With distinct keys, no later element shares the first one's key. */
  lemma HeadKeyUnique<T, K>(s: seq<T>, key: T -> K)
    requires |s| > 0 && DistinctKeys(s, key)
    ensures forall x :: x in s[1..] ==> key(x) != key(s[0])
  {
    forall x | x in s[1..] ensures key(x) != key(s[0]) {
      var m :| 0 <= m < |s| - 1 && s[1..][m] == x;
      assert s[m + 1] == x;
    }
  }

  /** Filtering with a weaker predicate keeps at least as many elements. */
  lemma {:induction false} FilterMonotone<T>(s: seq<T>, p: T -> bool, q: T -> bool)
    requires forall x :: p(x) ==> q(x)
    ensures |Filter(s, p)| <= |Filter(s, q)|
    decreases |s|
  {
    if |s| > 0 {
      FilterMonotone(s[1..], p, q);
    }
  }

  /** `a` is `s` with some elements left out and the rest in their order. */
  ghost predicate Subsequence<T>(a: seq<T>, s: seq<T>)
    decreases |s|
  {
    if |a| == 0 then true
    else if |s| == 0 then false
    else (a[0] == s[0] && Subsequence(a[1..], s[1..])) || Subsequence(a, s[1..])
  }

  /** `Where` keeps the order of what it keeps. */
  lemma {:induction false} FilterOrdered<T>(s: seq<T>, p: T -> bool)
    ensures Subsequence(Filter(s, p), s)
    decreases |s|
  {
    if |s| > 0 {
      FilterOrdered(s[1..], p);
      var t := Filter(s[1..], p);
      if p(s[0]) {
        var r := [s[0]] + t;
        assert Filter(s, p) == r;
        assert r[1..] == t;
        assert Subsequence(r, s);
      } else {
        assert Filter(s, p) == t;
      }
    }
  }

  /** `Where` keeps every copy of an element satisfying `p` and no copy of
      any other. */
  lemma {:induction false} FilterMultiplicity<T>(s: seq<T>, p: T -> bool, x: T)
    ensures multiset(Filter(s, p))[x] == if p(x) then multiset(s)[x] else 0
    decreases |s|
  {
    if |s| > 0 {
      FilterMultiplicity(s[1..], p, x);
      var t := Filter(s[1..], p);
      var head := if p(s[0]) then [s[0]] else [];
      assert Filter(s, p) == head + t;
      assert multiset(Filter(s, p)) == multiset(head) + multiset(t);
      assert s == [s[0]] + s[1..];
      assert multiset(s) == multiset{s[0]} + multiset(s[1..]);
    }
  }

  /** `Count(predicate)`. */
  function Count<T>(s: seq<T>, p: T -> bool): (n: nat)
    ensures n <= |s|
  {
    |Filter(s, p)|
  }

  /** `Sum(selector)`. */
  function Sum<T>(s: seq<T>, f: T -> int): int
    decreases |s|
  {
    if |s| == 0 then 0 else f(s[0]) + Sum(s[1..], f)
  }

  /** Summing two selectors that agree on every element gives the same total. */
  lemma {:induction false} SumCongruent<T>(s: seq<T>, f: T -> int, g: T -> int)
    requires forall i :: 0 <= i < |s| ==> f(s[i]) == g(s[i])
    ensures Sum(s, f) == Sum(s, g)
    decreases |s|
  {
    if |s| > 0 {
      SumCongruent(s[1..], f, g);
    }
  }

  /** A sum splits over concatenation. */
  lemma {:induction false} SumConcat<T>(a: seq<T>, b: seq<T>, f: T -> int)
    ensures Sum(a + b, f) == Sum(a, f) + Sum(b, f)
    decreases |a|
  {
    if |a| > 0 {
      SumConcat(a[1..], b, f);
      assert (a + b)[1..] == a[1..] + b;
    } else {
      assert a + b == b;
    }
  }

  /** A sum does not depend on the order of the summands. */
  lemma {:induction false} SumPermutation<T>(a: seq<T>, b: seq<T>, f: T -> int)
    requires multiset(a) == multiset(b)
    ensures Sum(a, f) == Sum(b, f)
    decreases |a|
  {
    if |a| == 0 {
      assert |b| == |multiset(b)| == 0;
    } else {
      var k := MatchFirst(a, b);
      SumPermutation(a[1..], b[..k] + b[k + 1..], f);
      SumConcat(b[..k], b[k + 1..], f);
      SumSplit(b, k, f);
    }
  }

  /** A sum, split around position `k`. */
  lemma SumSplit<T>(b: seq<T>, k: int, f: T -> int)
    requires 0 <= k < |b|
    ensures Sum(b, f) == Sum(b[..k], f) + f(b[k]) + Sum(b[k + 1..], f)
  {
    assert b == b[..k] + ([b[k]] + b[k + 1..]);
    SumConcat(b[..k], [b[k]] + b[k + 1..], f);
    assert ([b[k]] + b[k + 1..])[1..] == b[k + 1..];
  }

  /** `Select`. */
  function Map<A, B>(s: seq<A>, f: A -> B): (r: seq<B>)
    ensures |r| == |s|
    ensures forall i :: 0 <= i < |s| ==> r[i] == f(s[i])
  {
    seq(|s|, i requires 0 <= i < |s| => f(s[i]))
  }

  /** `Take(n)`: a non-positive count takes nothing. */
  function Take<T>(s: seq<T>, n: int): (r: seq<T>)
    ensures |r| <= |s| && (n <= 0 ==> |r| == 0) && (n >= 0 ==> |r| <= n)
    ensures r == s[..|r|]
    ensures |r| < |s| ==> |r| == (if n < 0 then 0 else n)
  {
    if n <= 0 then [] else if n >= |s| then s else s[..n]
  }

  /** `Skip(n)`: a non-positive count skips nothing. */
  function Skip<T>(s: seq<T>, n: int): (r: seq<T>)
    ensures |r| <= |s|
    ensures r == s[|s| - |r|..]
    ensures n <= 0 ==> r == s
    ensures 0 <= n <= |s| ==> |r| == |s| - n
    ensures n >= |s| ==> r == []
  {
    if n <= 0 then s else if n >= |s| then [] else s[n..]
  }

  /** `Skip(offset).Take(size)`. */
  function Page<T>(s: seq<T>, offset: int, size: int): seq<T> {
    Take(Skip(s, offset), size)
  }

  /** A page is the contiguous window of `s` that starts at the (clamped)
      offset and holds at most `size` elements. */
  lemma PageWindow<T>(s: seq<T>, offset: int, size: int)
    ensures var lo := if offset <= 0 then 0 else if offset >= |s| then |s| else offset;
            var hi := if size <= 0 then lo else if lo + size >= |s| then |s| else lo + size;
            Page(s, offset, size) == s[lo..hi]
  {
  }

  /** `w` is the contiguous run of `s` that starts at position `a`. */
  predicate WindowAt<T(==)>(w: seq<T>, s: seq<T>, a: int) {
    0 <= a <= |s| - |w| && w == s[a..a + |w|]
  }

  /** An element lies on the page whose window covers its index. */
  lemma InPage<T>(s: seq<T>, offset: int, size: int, k: int)
    requires 0 <= offset <= k < offset + size && k < |s|
    ensures s[k] in Page(s, offset, size)
  {
    PageWindow(s, offset, size);
    var hi := if offset + size >= |s| then |s| else offset + size;
    assert s[offset..hi][k - offset] == s[k];
  }

  /** `FirstOrDefault(predicate)`: the first element satisfying `p`, if any. */
  function FirstWhere<T>(s: seq<T>, p: T -> bool): (r: Option<T>)
    ensures r.None? <==> forall i :: 0 <= i < |s| ==> !p(s[i])
    ensures r.Some? ==> exists i :: 0 <= i < |s| && s[i] == r.value && p(s[i])
                                     && forall j :: 0 <= j < i ==> !p(s[j])
    decreases |s|
  {
    if |s| == 0 then None
    else if p(s[0]) then Some(s[0])
    else
      var r := FirstWhere(s[1..], p);
      assert forall i :: 1 <= i < |s| ==> s[i] == s[1..][i - 1];
      if r.Some? then
        assert exists i :: 0 <= i < |s| && s[i] == r.value && p(s[i]) && forall j :: 0 <= j < i ==> !p(s[j]) by {
          var i :| 0 <= i < |s[1..]| && s[1..][i] == r.value && p(s[1..][i]) && forall j :: 0 <= j < i ==> !p(s[1..][j]);
          assert s[i + 1] == r.value;
          assert forall j :: 0 <= j < i + 1 ==> !p(s[j]) by {
            forall j | 0 <= j < i + 1 ensures !p(s[j]) {
              if j > 0 { assert s[j] == s[1..][j - 1]; }
            }
          }
        }
        r
      else r
  }

  /** A comparison that is total and transitive: `OrderBy` with a key
      orders by such a relation. */
  ghost predicate TotalPreorder<T(!new)>(le: (T, T) -> bool) {
    && (forall a, b :: le(a, b) || le(b, a))
    && (forall a, b, c :: le(a, b) && le(b, c) ==> le(a, c))
  }

  /** Ascending order with respect to `le`. */
  predicate SortedBy<T>(s: seq<T>, le: (T, T) -> bool) {
    forall i, j :: 0 <= i < j < |s| ==> le(s[i], s[j])
  }

  /** Inserts `x` before the first element it is `le` to. */
  function InsertBy<T>(x: T, s: seq<T>, le: (T, T) -> bool): (r: seq<T>)
    ensures multiset(r) == multiset(s) + multiset{x}
    ensures |r| == |s| + 1
    decreases |s|
  {
    if |s| == 0 then [x]
    else if le(x, s[0]) then [x] + s
    else
      assert s == [s[0]] + s[1..];
      [s[0]] + InsertBy(x, s[1..], le)
  }

  /** `OrderBy`: a stable insertion sort; earlier elements stay ahead of
      later ones they compare equal to. */
  function SortBy<T>(s: seq<T>, le: (T, T) -> bool): (r: seq<T>)
    ensures multiset(r) == multiset(s)
    ensures |r| == |s|
    decreases |s|
  {
    if |s| == 0 then []
    else
      assert s == [s[0]] + s[1..];
      InsertBy(s[0], SortBy(s[1..], le), le)
  }

  lemma {:induction false} InsertBySorted<T(!new)>(x: T, s: seq<T>, le: (T, T) -> bool)
    requires TotalPreorder(le)
    requires SortedBy(s, le)
    ensures SortedBy(InsertBy(x, s, le), le)
    decreases |s|
  {
    if |s| > 0 && !le(x, s[0]) {
      var tail := InsertBy(x, s[1..], le);
      InsertBySorted(x, s[1..], le);
      assert le(s[0], x);
      forall y | y in tail ensures le(s[0], y) {
        assert y in multiset(tail);
        if y != x {
          assert y in multiset(s[1..]);
          var k :| 0 <= k < |s[1..]| && s[1..][k] == y;
          assert s[k + 1] == y;
        }
      }
      var r := [s[0]] + tail;
      forall i, j | 0 <= i < j < |r| ensures le(r[i], r[j]) {
        if i == 0 {
          assert r[j] == tail[j - 1] && r[j] in tail;
        } else {
          assert r[i] == tail[i - 1] && r[j] == tail[j - 1];
        }
      }
    } else if |s| > 0 {
      var r := [x] + s;
      forall i, j | 0 <= i < j < |r| ensures le(r[i], r[j]) {
        if i == 0 {
          assert r[j] == s[j - 1];
          if j > 1 {
            assert le(s[0], s[j - 1]);
          }
        } else {
          assert r[i] == s[i - 1] && r[j] == s[j - 1];
        }
      }
    }
  }

  /** The result of `SortBy` is in ascending order. */
  lemma {:induction false} SortBySorted<T(!new)>(s: seq<T>, le: (T, T) -> bool)
    requires TotalPreorder(le)
    ensures SortedBy(SortBy(s, le), le)
    decreases |s|
  {
    if |s| > 0 {
      SortBySorted(s[1..], le);
      InsertBySorted(s[0], SortBy(s[1..], le), le);
    }
  }

  /** Inserting commutes with a map that preserves the comparison. */
  lemma {:induction false} InsertByMap<A, B>(x: A, s: seq<A>, f: A -> B, le: (A, A) -> bool, leB: (B, B) -> bool)
    requires forall a, b :: le(a, b) == leB(f(a), f(b))
    ensures Map(InsertBy(x, s, le), f) == InsertBy(f(x), Map(s, f), leB)
    decreases |s|
  {
    if |s| > 0 {
      assert Map(s, f)[0] == f(s[0]);
      if !le(x, s[0]) {
        InsertByMap(x, s[1..], f, le, leB);
        assert Map(s, f)[1..] == Map(s[1..], f);
        assert Map([s[0]] + InsertBy(x, s[1..], le), f) == [f(s[0])] + Map(InsertBy(x, s[1..], le), f);
      } else {
        assert Map([x] + s, f) == [f(x)] + Map(s, f);
      }
    }
  }

  /** Insertion sort unfolded once. */
  lemma SortByCons<T>(s: seq<T>, le: (T, T) -> bool)
    requires |s| > 0
    ensures SortBy(s, le) == InsertBy(s[0], SortBy(s[1..], le), le)
  {
  }

  /** Sorting commutes with a map that preserves the comparison: sorting the
      images is mapping the sorted sequence. */
  lemma {:induction false} SortByMap<A, B>(s: seq<A>, f: A -> B, le: (A, A) -> bool, leB: (B, B) -> bool)
    requires forall a, b :: le(a, b) == leB(f(a), f(b))
    ensures Map(SortBy(s, le), f) == SortBy(Map(s, f), leB)
    decreases |s|
  {
    if |s| > 0 {
      var m, rest := Map(s, f), SortBy(s[1..], le);
      SortByMap(s[1..], f, le, leB);
      InsertByMap(s[0], rest, f, le, leB);
      assert m[1..] == Map(s[1..], f);
      SortByCons(m, leB);
    }
  }

  /** Concatenation is associative. */
  lemma ConcatAssoc<T>(a: seq<T>, b: seq<T>, c: seq<T>)
    ensures a + (b + c) == (a + b) + c
  {
  }

  /** `Select` distributes over concatenation. */
  lemma MapConcat<A, B>(a: seq<A>, b: seq<A>, f: A -> B)
    ensures Map(a + b, f) == Map(a, f) + Map(b, f)
  {
  }

  /** In two permutations of each other, the first element of one sits at
      some position `k` of the other, and what remains is again a pair of
      permutations. */
  lemma MatchFirst<T>(a: seq<T>, b: seq<T>) returns (k: int)
    requires multiset(a) == multiset(b) && |a| > 0
    ensures 0 <= k < |b| && b[k] == a[0]
    ensures b == b[..k] + [b[k]] + b[k + 1..]
    ensures multiset(a[1..]) == multiset(b[..k] + b[k + 1..])
  {
    assert a[0] in multiset(b);
    k :| 0 <= k < |b| && b[k] == a[0];
    assert b == b[..k] + [b[k]] + b[k + 1..];
    assert a == [a[0]] + a[1..];
    assert multiset(a[1..]) == multiset(a) - multiset{a[0]};
    assert multiset(b[..k] + b[k + 1..]) == multiset(b) - multiset{b[k]};
  }

  /** Mapping two permutations of each other gives permutations of each other. */
  lemma {:induction false} MapPermutation<A, B>(a: seq<A>, b: seq<A>, f: A -> B)
    requires multiset(a) == multiset(b)
    ensures multiset(Map(a, f)) == multiset(Map(b, f))
    decreases |a|
  {
    if |a| == 0 {
      assert |b| == |multiset(b)| == 0;
      assert Map(b, f) == [];
    } else {
      var k := MatchFirst(a, b);
      var left, right := b[..k], b[k + 1..];
      MapPermutation(a[1..], left + right, f);
      assert Map(a, f) == [f(a[0])] + Map(a[1..], f);
      MapSplit(b, k, f);
      MapConcat(left, right, f);
    }
  }

  /** The image of a sequence, split around position `k`. */
  lemma MapSplit<A, B>(b: seq<A>, k: int, f: A -> B)
    requires 0 <= k < |b|
    ensures multiset(Map(b, f)) == multiset(Map(b[..k], f)) + multiset{f(b[k])} + multiset(Map(b[k + 1..], f))
  {
    var m := Map(b, f);
    assert m == m[..k] + [m[k]] + m[k + 1..];
    assert m[..k] == Map(b[..k], f);
    assert m[k + 1..] == Map(b[k + 1..], f);
  }

  /** Every contiguous window of a sorted sequence is sorted. */
  lemma SortedWindow<T>(s: seq<T>, le: (T, T) -> bool, lo: int, hi: int)
    requires SortedBy(s, le)
    requires 0 <= lo <= hi <= |s|
    ensures SortedBy(s[lo..hi], le)
  {
    forall i, j | 0 <= i < j < hi - lo ensures le(s[lo..hi][i], s[lo..hi][j]) {
      assert s[lo..hi][i] == s[lo + i] && s[lo..hi][j] == s[lo + j];
    }
  }

  /** A page of a sorted sequence is sorted, and its elements come from it. */
  lemma PageOfSorted<T>(s: seq<T>, le: (T, T) -> bool, offset: int, size: int)
    requires SortedBy(s, le)
    ensures SortedBy(Page(s, offset, size), le)
    ensures forall x :: x in Page(s, offset, size) ==> x in s
  {
    PageWindow(s, offset, size);
    var lo := if offset <= 0 then 0 else if offset >= |s| then |s| else offset;
    var hi := if size <= 0 then lo else if lo + size >= |s| then |s| else lo + size;
    SortedWindow(s, le, lo, hi);
    WindowMembers(s, lo, hi);
  }

  /** The elements of a window come from the whole. */
  lemma WindowMembers<T>(s: seq<T>, lo: int, hi: int)
    requires 0 <= lo <= hi <= |s|
    ensures forall x :: x in s[lo..hi] ==> x in s
  {
    forall x | x in s[lo..hi] ensures x in s {
      var k :| 0 <= k < hi - lo && s[lo..hi][k] == x;
      assert s[lo + k] == x;
    }
  }
}
