/** Sequence helpers for the Python list idioms the evaluator uses:
    `sorted(..., reverse=True)`, `max`, filtering comprehensions and `Counter`. */
module Seqs {

  /** Number of occurrences of `x` in `s` (what `Counter(s)[x]` holds). */
  function Count<T(==)>(s: seq<T>, x: T): nat
  {
    multiset(s)[x]
  }

  /** `s` is in non-increasing order. */
  predicate Descending(s: seq<int>)
  {
    forall i, j :: 0 <= i < j < |s| ==> s[i] >= s[j]
  }

  /** `s` is in strictly increasing order (so it has no repeated element). */
  predicate StrictlyAscending(s: seq<int>)
  {
    forall i, j :: 0 <= i < j < |s| ==> s[i] < s[j]
  }

  /** No element of `s` occurs twice. */
  predicate AllDistinct<T(==)>(s: seq<T>)
  {
    forall i, j :: 0 <= i < j < |s| ==> s[i] != s[j]
  }

  function Sum(s: seq<int>): int
  {
    if s == [] then 0 else s[0] + Sum(s[1..])
  }

  /** `s` is in strictly decreasing order (so it has no repeated element). */
  predicate StrictlyDescending(s: seq<int>)
  {
    forall i, j :: 0 <= i < j < |s| ==> s[i] > s[j]
  }

  /** `[r for r in s if r != x]`: the other elements, in their order. */
  function Without(s: seq<int>, x: int): (r: seq<int>)
    ensures multiset(r) == multiset(s)[x := 0]
    ensures |r| == |s| - Count(s, x)
    ensures IsSubseq(r, s)
  {
    if s == [] then []
    else
      assert s == [s[0]] + s[1..];
      var rest := Without(s[1..], x);
      if s[0] == x then
        SubseqOfTail(rest, s);
        rest
      else
        assert multiset([s[0]] + rest) == multiset{s[0]} + multiset(rest);
        assert ([s[0]] + rest)[1..] == rest;
        [s[0]] + rest
  }

  /** Filtering keeps a list non-increasing. */
  lemma WithoutDescending(s: seq<int>, x: int)
    requires Descending(s)
    ensures Descending(Without(s, x))
  {
    var r := Without(s, x);
    forall i, j | 0 <= i < j < |r|
      ensures r[i] >= r[j]
    {
      SubseqOrder(r, s, i, j);
    }
  }

  /** `max(s)` on a non-empty list. */
  function SeqMax(s: seq<int>): (m: int)
    requires |s| > 0
    ensures m in s
    ensures forall y :: y in s ==> y <= m
  {
    if |s| == 1 then s[0]
    else
      var rest := SeqMax(s[1..]);
      assert forall y :: y in s ==> y == s[0] || y in s[1..];
      if s[0] >= rest then s[0] else rest
  }

  /** Inserts `x` into the non-increasing `s`, before the first element smaller than `x`. */
  function InsertDesc(x: int, s: seq<int>): (r: seq<int>)
    requires Descending(s)
    ensures Descending(r)
    ensures multiset(r) == multiset(s) + multiset{x}
    ensures r[0] == x || r[0] == s[0]
  {
    if s == [] || x >= s[0] then
      PrependDescending(x, s);
      [x] + s
    else
      var tail := InsertDesc(x, s[1..]);
      assert s == [s[0]] + s[1..];
      PrependDescending(s[0], tail);
      [s[0]] + tail
  }

  /** A head no smaller than the old head keeps a list non-increasing. */
  lemma PrependDescending(x: int, s: seq<int>)
    requires Descending(s) && (s == [] || x >= s[0])
    ensures Descending([x] + s)
  {
    var w := [x] + s;
    forall i, j | 0 <= i < j < |w|
      ensures w[i] >= w[j]
    {
      assert w[j] == s[j - 1];
      if i > 0 {
        assert w[i] == s[i - 1];
      }
    }
  }

  /** `sorted(s, reverse=True)`: the same elements, in non-increasing order. */
  function SortDesc(s: seq<int>): (r: seq<int>)
    ensures Descending(r)
    ensures multiset(r) == multiset(s)
    ensures |r| == |s|
  {
    if s == [] then []
    else
      assert s == [s[0]] + s[1..];
      InsertDesc(s[0], SortDesc(s[1..]))
  }

  /** Inserting `x` adds `x` to the total. */
  lemma {:induction false} InsertDescSum(x: int, s: seq<int>)
    requires Descending(s)
    ensures Sum(InsertDesc(x, s)) == x + Sum(s)
  {
    if s != [] && x < s[0] {
      InsertDescSum(x, s[1..]);
    }
  }

  /** Sorting keeps the total. */
  lemma {:induction false} SortDescSum(s: seq<int>)
    ensures Sum(SortDesc(s)) == Sum(s)
  {
    if s != [] {
      SortDescSum(s[1..]);
      InsertDescSum(s[0], SortDesc(s[1..]));
    }
  }

  /** The first element of a non-increasing list is its maximum. */
  lemma DescendingHeadIsMax(s: seq<int>, y: int)
    requires Descending(s) && y in s
    ensures s[0] >= y
  {
  }

  /** Dropping the first element keeps a list non-increasing. */
  lemma DescendingTail(s: seq<int>)
    requires Descending(s) && s != []
    ensures Descending(s[1..])
  {
    forall i, j | 0 <= i < j < |s| - 1
      ensures s[1..][i] >= s[1..][j]
    {
      assert s[1..][i] == s[i + 1] && s[1..][j] == s[j + 1];
    }
  }

  /** The elements of a list but its first. */
  lemma MultisetTail(s: seq<int>)
    requires s != []
    ensures multiset(s[1..]) == multiset(s) - multiset{s[0]}
  {
    assert s == [s[0]] + s[1..];
  }

  /** The elements of a list but the one at `k`. */
  lemma MultisetRemoveAt<T>(s: seq<T>, k: nat)
    requires k < |s|
    ensures multiset(s[..k] + s[k + 1..]) == multiset(s) - multiset{s[k]}
  {
    assert s == s[..k] + [s[k]] + s[k + 1..];
    calc {
      multiset(s);
      multiset(s[..k]) + multiset{s[k]} + multiset(s[k + 1..]);
      multiset(s[..k] + s[k + 1..]) + multiset{s[k]};
    }
  }

  /** Two non-increasing lists with the same elements start alike. */
  lemma DescendingSameHead(a: seq<int>, b: seq<int>)
    requires Descending(a) && Descending(b) && a != []
    requires multiset(a) == multiset(b)
    ensures b != [] && a[0] == b[0]
  {
    assert a[0] in multiset(b);
    assert b[0] in multiset(a);
    DescendingHeadIsMax(a, b[0]);
    DescendingHeadIsMax(b, a[0]);
  }

  /** Two non-increasing lists with the same elements are equal: so `sorted`
      of a list depends only on the multiset of its elements. */
  lemma {:induction false} DescendingUnique(a: seq<int>, b: seq<int>)
    requires Descending(a) && Descending(b)
    requires multiset(a) == multiset(b)
    ensures a == b
  {
    if a == [] {
      assert |b| == |multiset(b)| == 0;
    } else {
      DescendingSameHead(a, b);
      MultisetTail(a);
      MultisetTail(b);
      DescendingTail(a);
      DescendingTail(b);
      DescendingUnique(a[1..], b[1..]);
      assert a == [a[0]] + a[1..] && b == [b[0]] + b[1..];
    }
  }

  /** `sub` is obtained from `s` by deleting elements, keeping the order. */
  predicate IsSubseq<T(==)>(sub: seq<T>, s: seq<T>)
    decreases |s|
  {
    if sub == [] then true
    else if s == [] then false
    else if sub[0] == s[0] then IsSubseq(sub[1..], s[1..])
    else IsSubseq(sub, s[1..])
  }

  /** A subsequence uses no element more often than the sequence holds it. */
  lemma {:induction false} SubseqMultiset<T>(sub: seq<T>, s: seq<T>)
    requires IsSubseq(sub, s)
    ensures multiset(sub) <= multiset(s)
    decreases |s|
  {
    if sub != [] {
      assert s == [s[0]] + s[1..];
      if sub[0] == s[0] {
        SubseqMultiset(sub[1..], s[1..]);
        assert sub == [sub[0]] + sub[1..];
      } else {
        SubseqMultiset(sub, s[1..]);
      }
    }
  }

  /** A subsequence of the tail is a subsequence of the whole. */
  lemma {:induction false} SubseqOfTail<T>(c: seq<T>, s: seq<T>)
    requires s != [] && IsSubseq(c, s[1..])
    ensures IsSubseq(c, s)
    decreases |s|, |c|
  {
    if c != [] && c[0] == s[0] {
      DropHead(c, s[1..]);
    }
  }

  /** Dropping the first element of a subsequence keeps it a subsequence. */
  lemma {:induction false} DropHead<T>(c: seq<T>, s: seq<T>)
    requires c != [] && IsSubseq(c, s)
    ensures IsSubseq(c[1..], s)
    decreases |s|, |c|
  {
    if c[0] == s[0] {
      SubseqOfTail(c[1..], s);
    } else {
      DropHead(c, s[1..]);
      SubseqOfTail(c[1..], s);
    }
  }

  /** Two elements of a subsequence sit in the same order in the sequence. */
  lemma {:induction false} SubseqOrder(c: seq<int>, s: seq<int>, i: nat, j: nat)
    requires IsSubseq(c, s) && i < j < |c|
    ensures exists i', j' :: 0 <= i' < j' < |s| && s[i'] == c[i] && s[j'] == c[j]
    decreases |s|
  {
    if c[0] == s[0] {
      if i == 0 {
        SubseqMember(c[1..], s[1..], j - 1);
        var j' :| 0 <= j' < |s| - 1 && s[1..][j'] == c[j];
        assert s[j' + 1] == c[j];
      } else {
        SubseqOrder(c[1..], s[1..], i - 1, j - 1);
        var i', j' :| 0 <= i' < j' < |s| - 1 && s[1..][i'] == c[i] && s[1..][j'] == c[j];
        assert s[i' + 1] == c[i] && s[j' + 1] == c[j];
      }
    } else {
      SubseqOrder(c, s[1..], i, j);
      var i', j' :| 0 <= i' < j' < |s| - 1 && s[1..][i'] == c[i] && s[1..][j'] == c[j];
      assert s[i' + 1] == c[i] && s[j' + 1] == c[j];
    }
  }

  /** Every element of a subsequence is in the sequence. */
  lemma {:induction false} SubseqMember(c: seq<int>, s: seq<int>, j: nat)
    requires IsSubseq(c, s) && j < |c|
    ensures exists j' :: 0 <= j' < |s| && s[j'] == c[j]
    decreases |s|
  {
    if c[0] == s[0] {
      if j > 0 {
        SubseqMember(c[1..], s[1..], j - 1);
        var j' :| 0 <= j' < |s| - 1 && s[1..][j'] == c[j];
        assert s[j' + 1] == c[j];
      }
    } else {
      SubseqMember(c, s[1..], j);
      var j' :| 0 <= j' < |s| - 1 && s[1..][j'] == c[j];
      assert s[j' + 1] == c[j];
    }
  }

  /** In a sequence without repetitions, an element occurs once. */
  lemma {:induction false} OnlyOccurrence<T>(s: seq<T>, k: nat)
    requires AllDistinct(s) && k < |s|
    ensures Count(s, s[k]) == 1
  {
    if k == 0 {
      assert s == [s[0]] + s[1..];
      assert s[0] !in s[1..];
    } else {
      assert s == [s[0]] + s[1..];
      OnlyOccurrence(s[1..], k - 1);
    }
  }

  /** No element occurs more often than the sequence is long. */
  lemma {:induction false} CountAtMostLength<T>(s: seq<T>, x: T)
    ensures Count(s, x) <= |s|
  {
    if s != [] {
      assert s == [s[0]] + s[1..];
      CountAtMostLength(s[1..], x);
    }
  }

  /** An element found at two positions occurs at least twice. */
  lemma RepeatCounted<T>(s: seq<T>, i: nat, j: nat)
    requires i < j < |s| && s[i] == s[j]
    ensures Count(s, s[i]) >= 2
  {
    assert s == s[..j] + s[j..];
    assert s[i] in s[..j] && s[j] in s[j..];
  }

  /** A sequence has no repetitions exactly when nothing occurs twice in it. */
  lemma DistinctIffCountsOne<T>(s: seq<T>)
    ensures AllDistinct(s) <==> forall x :: Count(s, x) <= 1
  {
    if AllDistinct(s) {
      forall x
        ensures Count(s, x) <= 1
      {
        if x in s {
          var k :| 0 <= k < |s| && s[k] == x;
          OnlyOccurrence(s, k);
        }
      }
    }
    if !AllDistinct(s) {
      var i, j :| 0 <= i < j < |s| && s[i] == s[j];
      RepeatCounted(s, i, j);
    }
  }

  /** A sequence holding two different values holds neither at every position. */
  lemma CountBelowLength(s: seq<int>, i: nat, j: nat, x: int)
    requires i < |s| && j < |s| && s[i] != s[j]
    ensures Count(s, x) < |s|
  {
    var other := if s[i] != x then s[i] else s[j];
    assert other in multiset(s);
    var rest := Without(s, other);
    assert Count(rest, x) == Count(s, x);
    CountAtMostLength(rest, x);
  }

  /** A value of a one-element list occurs once in it. */
  lemma CountInSingleton(s: seq<int>, x: int)
    requires |s| == 1 && x in s
    ensures Count(s, x) == 1
  {
    assert s == [x];
  }

  /** Two sequences without repetitions holding the same values are permutations
      of each other, so they have the same length. */
  lemma DistinctSameLength<T>(a: seq<T>, b: seq<T>)
    requires AllDistinct(a) && AllDistinct(b)
    requires forall x :: x in a <==> x in b
    ensures multiset(a) == multiset(b)
    ensures |a| == |b|
  {
    DistinctIffCountsOne(a);
    DistinctIffCountsOne(b);
    forall x
      ensures multiset(a)[x] == multiset(b)[x]
    {
      assert Count(a, x) <= 1 && Count(b, x) <= 1;
      if x in a {
        assert x in multiset(a) && x in multiset(b);
      } else {
        assert x !in multiset(a) && x !in multiset(b);
      }
    }
    assert multiset(a) == multiset(b);
    assert |a| == |multiset(a)| == |multiset(b)| == |b|;
  }
}
