/** The rank arithmetic inside `score_five_cards` and `is_straight`
    (poker/poker.py:51-60, 77-85): the rank counter, the sorted count
    shape, the sorted distinct ranks and the straight test. */
module Ranks {
  import opened Seqs

  /** Every entry is a rank value, 0 ('2') to 12 ('A'). */
  predicate InRange(s: seq<int>)
  {
    forall i :: 0 <= i < |s| ==> 0 <= s[i] < 13
  }

  /** `[r for r in range(lo, 13) if r in s]`. */
  function Present(s: seq<int>, lo: nat): (u: seq<int>)
    requires lo <= 13
    ensures StrictlyAscending(u)
    ensures forall x :: x in u <==> x in s && lo <= x < 13
    decreases 13 - lo
  {
    if lo == 13 then []
    else if lo in s then
      var rest := Present(s, lo + 1);
      assert forall i :: 0 <= i < |rest| ==> rest[i] in rest;
      [lo] + rest
    else Present(s, lo + 1)
  }

  /** `sorted(set(s))`: the distinct values of `s`, ascending. */
  function UniqueAsc(s: seq<int>): (u: seq<int>)
    requires InRange(s)
    ensures StrictlyAscending(u)
    ensures forall x :: x in u <==> x in s
  {
    Present(s, 0)
  }

  /** The counter of `s` read at each key of `u`, in the order of `u`. */
  function CountsOf(s: seq<int>, u: seq<int>): (cs: seq<int>)
    ensures |cs| == |u|
    ensures forall i :: 0 <= i < |u| ==> cs[i] == Count(s, u[i])
  {
    if u == [] then [] else [Count(s, u[0])] + CountsOf(s, u[1..])
  }

  /** `[r for r, c in Counter(s).items() if c == k]`, with the keys taken in the order of `u`. */
  function WithCount(s: seq<int>, u: seq<int>, k: int): (w: seq<int>)
    ensures forall x :: x in w <==> x in u && Count(s, x) == k
    ensures |w| == Count(CountsOf(s, u), k)
  {
    if u == [] then []
    else
      var rest := WithCount(s, u[1..], k);
      assert u == [u[0]] + u[1..];
      assert CountsOf(s, u) == [Count(s, u[0])] + CountsOf(s, u[1..]);
      if Count(s, u[0]) == k then [u[0]] + rest else rest
  }

  /** The keys of `Counter(s)` in the order a dict keeps them: each value where
      it first occurs in `s`. */
  function CounterKeys(s: seq<int>): (keys: seq<int>)
    ensures AllDistinct(keys)
    ensures forall x :: x in keys <==> x in s
    decreases |s|
  {
    if s == [] then []
    else
      var rest := CounterKeys(Without(s[1..], s[0]));
      WithoutMembers(s[1..], s[0]);
      HeadTailMembers(s);
      PrependDistinct(s[0], rest);
      [s[0]] + rest
  }

  /** The values of a non-empty list are its head and those of its tail. */
  lemma HeadTailMembers(s: seq<int>)
    requires s != []
    ensures forall x :: x in s <==> x == s[0] || x in s[1..]
  {
    assert s == [s[0]] + s[1..];
  }

  /** The values left by `Without(s, x)` are those of `s` but `x`. */
  lemma WithoutMembers(s: seq<int>, x: int)
    ensures forall y :: y in Without(s, x) <==> y in s && y != x
  {
    forall y
      ensures y in Without(s, x) <==> y in s && y != x
    {
      assert y in Without(s, x) <==> y in multiset(Without(s, x));
      assert y in s <==> y in multiset(s);
    }
  }

  /** A new head keeps a list without repetitions. */
  lemma PrependDistinct(x: int, s: seq<int>)
    requires AllDistinct(s) && x !in s
    ensures AllDistinct([x] + s)
  {
    var w := [x] + s;
    forall i, j | 0 <= i < j < |w|
      ensures w[i] != w[j]
    {
      assert w[j] == s[j - 1];
      if i > 0 {
        assert w[i] == s[i - 1];
      }
    }
  }

  /** The counter of a non-increasing list has its keys in strictly decreasing order. */
  lemma {:induction false} CounterKeysDescending(s: seq<int>)
    requires Descending(s)
    ensures StrictlyDescending(CounterKeys(s))
    decreases |s|
  {
    if s != [] {
      var tail := Without(s[1..], s[0]);
      DescendingTail(s);
      WithoutDescending(s[1..], s[0]);
      CounterKeysDescending(tail);
      var rest := CounterKeys(tail);
      WithoutMembers(s[1..], s[0]);
      forall j | 0 <= j < |rest|
        ensures s[0] > rest[j]
      {
        assert rest[j] in rest;
        var m :| 0 <= m < |s| - 1 && s[1..][m] == rest[j];
        assert s[m + 1] == rest[j];
      }
      PrependStrictlyDescending(s[0], rest);
    }
  }

  /** A head above every entry keeps a list strictly decreasing. */
  lemma PrependStrictlyDescending(x: int, s: seq<int>)
    requires StrictlyDescending(s)
    requires forall j :: 0 <= j < |s| ==> x > s[j]
    ensures StrictlyDescending([x] + s)
  {
    var w := [x] + s;
    forall i, j | 0 <= i < j < |w|
      ensures w[i] > w[j]
    {
      assert w[j] == s[j - 1];
      if i > 0 {
        assert w[i] == s[i - 1];
      }
    }
  }

  /** Filtering keeps the order, so the ranks found among strictly decreasing keys
      are strictly decreasing. */
  lemma {:induction false} WithCountDescending(s: seq<int>, u: seq<int>, k: int)
    requires StrictlyDescending(u)
    ensures StrictlyDescending(WithCount(s, u, k))
  {
    if u != [] {
      WithCountDescending(s, u[1..], k);
      if Count(s, u[0]) == k {
        WithCountBelow(s, u, k);
        PrependStrictlyDescending(u[0], WithCount(s, u[1..], k));
      }
    }
  }

  /** What is found in the tail of strictly decreasing `u` lies below its head. */
  lemma WithCountBelow(s: seq<int>, u: seq<int>, k: int)
    requires StrictlyDescending(u) && u != []
    ensures forall j :: 0 <= j < |WithCount(s, u[1..], k)| ==> u[0] > WithCount(s, u[1..], k)[j]
  {
    var rest := WithCount(s, u[1..], k);
    forall j | 0 <= j < |rest|
      ensures u[0] > rest[j]
    {
      assert rest[j] in rest;
      var m :| 0 <= m < |u[1..]| && u[1..][m] == rest[j];
      assert u[m + 1] == rest[j];
    }
  }

  /** Filtering keys without repetitions finds each rank once. */
  lemma {:induction false} WithCountDistinct(s: seq<int>, u: seq<int>, k: int)
    requires AllDistinct(u)
    ensures AllDistinct(WithCount(s, u, k))
  {
    if u != [] {
      DistinctSplit(u);
      WithCountDistinct(s, u[1..], k);
      if Count(s, u[0]) == k {
        PrependDistinct(u[0], WithCount(s, u[1..], k));
      }
    }
  }

  /** The head of a list without repetitions is not in its tail, which has none either. */
  lemma DistinctSplit(u: seq<int>)
    requires AllDistinct(u) && u != []
    ensures AllDistinct(u[1..]) && u[0] !in u[1..]
  {
    forall i, j | 0 <= i < j < |u| - 1
      ensures u[1..][i] != u[1..][j]
    {
      assert u[1..][i] == u[i + 1] && u[1..][j] == u[j + 1];
    }
    forall m | 0 <= m < |u| - 1
      ensures u[1..][m] != u[0]
    {
      assert u[1..][m] == u[m + 1];
    }
  }

  /** The first `x` of `t` whose count in `s` is `k`: what both `next(r for r, c in
      rank_counter.items() if c == k)` and `rank_counter.most_common(1)[0][0]` pick
      when the counter was filled from `t == s`. */
  function FirstWithCount(s: seq<int>, t: seq<int>, k: int): (x: int)
    requires exists y :: y in t && Count(s, y) == k
    ensures x in t && Count(s, x) == k
    ensures exists i :: 0 <= i < |t| && t[i] == x && forall j :: 0 <= j < i ==> Count(s, t[j]) != k
  {
    if Count(s, t[0]) == k then
      assert t[0] == t[0];
      t[0]
    else
      assert forall y :: y in t && y != t[0] ==> y in t[1..];
      var x := FirstWithCount(s, t[1..], k);
      FirstAfterHead(s, t, k, x);
      x
  }

  /** A first match in the tail is a first match in the whole when the head does not match. */
  lemma FirstAfterHead(s: seq<int>, t: seq<int>, k: int, x: int)
    requires t != [] && Count(s, t[0]) != k
    requires exists i :: 0 <= i < |t| - 1 && t[1..][i] == x && forall j :: 0 <= j < i ==> Count(s, t[1..][j]) != k
    ensures exists i :: 0 <= i < |t| && t[i] == x && forall j :: 0 <= j < i ==> Count(s, t[j]) != k
  {
    var i :| 0 <= i < |t| - 1 && t[1..][i] == x && forall j :: 0 <= j < i ==> Count(s, t[1..][j]) != k;
    forall j | 0 <= j < i + 1
      ensures Count(s, t[j]) != k
    {
      if j > 0 {
        assert t[j] == t[1..][j - 1];
      }
    }
    assert t[i + 1] == x;
  }

  /** `next(r for r, c in Counter(t).items() if c == k)` takes the first key with
      count `k` in the counter's order, which is the first such value of `t`. */
  lemma {:induction false} FirstKeyWithCount(s: seq<int>, t: seq<int>, k: int)
    requires exists y :: y in t && Count(s, y) == k
    ensures exists y :: y in CounterKeys(t) && Count(s, y) == k
    ensures FirstWithCount(s, CounterKeys(t), k) == FirstWithCount(s, t, k)
    decreases |t|
  {
    var keys := CounterKeys(t);
    var y :| y in t && Count(s, y) == k;
    assert y in keys;
    if Count(s, t[0]) != k {
      var tail := Without(t[1..], t[0]);
      assert y != t[0] && y in t[1..] by {
        assert t == [t[0]] + t[1..];
      }
      WithoutMembers(t[1..], t[0]);
      FirstKeyWithCount(s, tail, k);
      FirstSkips(s, t[1..], k, t[0]);
    }
  }

  /** Removing a value whose count is not `k` does not change the first match. */
  lemma {:induction false} FirstSkips(s: seq<int>, t: seq<int>, k: int, x: int)
    requires Count(s, x) != k
    requires exists y :: y in t && Count(s, y) == k
    ensures exists y :: y in Without(t, x) && Count(s, y) == k
    ensures FirstWithCount(s, Without(t, x), k) == FirstWithCount(s, t, k)
    decreases |t|
  {
    var y :| y in t && Count(s, y) == k;
    WithoutMembers(t, x);
    if Count(s, t[0]) != k {
      assert y in t[1..] by {
        assert t == [t[0]] + t[1..];
      }
      FirstSkips(s, t[1..], k, x);
      if t[0] != x {
        assert Without(t, x)[1..] == Without(t[1..], x);
      }
    }
  }

  /** `counts = sorted(Counter(ranks).values(), reverse=True)`. */
  function Shape(ranks: seq<int>): seq<int>
    requires InRange(ranks)
  {
    SortDesc(CountsOf(ranks, UniqueAsc(ranks)))
  }

  /** `rank_counter.values()` lists the counts in the counter's key order; read in
      ascending key order they are the same counts rearranged, so `counts`, which
      sorts them, is the same either way. */
  lemma ShapeOfCounterValues(ranks: seq<int>)
    requires InRange(ranks)
    ensures Shape(ranks) == SortDesc(CountsOf(ranks, CounterKeys(ranks)))
  {
    var u, keys := UniqueAsc(ranks), CounterKeys(ranks);
    DistinctSameLength(u, keys);
    CountsOfPermutation(ranks, u, keys);
    DescendingUnique(Shape(ranks), SortDesc(CountsOf(ranks, keys)));
  }

  /** Reading the counter at a rearrangement of the keys rearranges the counts. */
  lemma {:induction false} CountsOfPermutation(s: seq<int>, u: seq<int>, v: seq<int>)
    requires multiset(u) == multiset(v)
    ensures multiset(CountsOf(s, u)) == multiset(CountsOf(s, v))
    decreases |u|
  {
    if u == [] {
      assert |v| == |multiset(v)| == 0;
    } else {
      assert u[0] in multiset(v);
      var m :| 0 <= m < |v| && v[m] == u[0];
      var rest := v[..m] + v[m + 1..];
      MultisetRemoveAt(v, m);
      MultisetTail(u);
      CountsOfPermutation(s, u[1..], rest);
      CountsOfRemoveAt(s, v, m);
      CountsOfTail(s, u);
      hide CountsOf;
      SwapOutOne(CountsOf(s, u), CountsOf(s, u[1..]), CountsOf(s, v), CountsOf(s, rest), m);
    }
  }

  /** The counts at the keys of a non-empty list: the head's count, then the tail's. */
  lemma CountsOfTail(s: seq<int>, u: seq<int>)
    requires u != []
    ensures CountsOf(s, u)[0] == Count(s, u[0])
    ensures CountsOf(s, u)[1..] == CountsOf(s, u[1..])
  {
  }

  /** Taking the head off one list and the entry at `m` off another, when the two
      are equal and what remains has the same elements, the lists had the same elements. */
  lemma SwapOutOne(a: seq<int>, a': seq<int>, b: seq<int>, b': seq<int>, m: nat)
    requires a != [] && a' == a[1..]
    requires m < |b| && b' == b[..m] + b[m + 1..] && a[0] == b[m]
    requires multiset(a') == multiset(b')
    ensures multiset(a) == multiset(b)
  {
    assert a == [a[0]] + a';
    assert b == b[..m] + [b[m]] + b[m + 1..];
    assert multiset(b) == multiset(b[..m]) + multiset{b[m]} + multiset(b[m + 1..]);
  }

  /** Leaving out the key at `m` leaves out its count. */
  lemma CountsOfRemoveAt(s: seq<int>, v: seq<int>, m: nat)
    requires m < |v|
    ensures CountsOf(s, v[..m] + v[m + 1..]) == CountsOf(s, v)[..m] + CountsOf(s, v)[m + 1..]
    ensures CountsOf(s, v)[m] == Count(s, v[m])
  {
    var a, b := CountsOf(s, v[..m] + v[m + 1..]), CountsOf(s, v)[..m] + CountsOf(s, v)[m + 1..];
    forall i | 0 <= i < |a|
      ensures a[i] == b[i]
    {
      if i < m {
        assert (v[..m] + v[m + 1..])[i] == v[i];
      } else {
        assert (v[..m] + v[m + 1..])[i] == v[i + 1];
      }
    }
  }

  /** The counts of all distinct keys add up to the length of the list. */
  lemma {:induction false} CountsSum(s: seq<int>, u: seq<int>)
    requires StrictlyAscending(u)
    requires forall x :: x in s ==> x in u
    ensures Sum(CountsOf(s, u)) == |s|
  {
    if s == [] {
      CountsOfNothing(u);
    } else {
      assert s == [s[0]] + s[1..];
      CountsOfCons(s[0], s[1..], u);
      var y := s[0];
      assert y in s;
      var k :| 0 <= k < |u| && u[k] == y;
      OnlyOccurrence(u, k);
      CountsSum(s[1..], u);
    }
  }

  /** The empty list counts zero at every key. */
  lemma {:induction false} CountsOfNothing(u: seq<int>)
    ensures Sum(CountsOf([], u)) == 0
  {
    if u != [] {
      CountsOfNothing(u[1..]);
    }
  }

  /** One more `a` in the list adds one for each time `a` is a key. */
  lemma {:induction false} CountsOfCons(a: int, s: seq<int>, u: seq<int>)
    ensures Sum(CountsOf([a] + s, u)) == Sum(CountsOf(s, u)) + Count(u, a)
  {
    if u != [] {
      assert u == [u[0]] + u[1..];
      assert multiset([a] + s) == multiset{a} + multiset(s);
      CountsOfCons(a, s, u[1..]);
    }
  }

  /** `k` is one of the counts exactly when some key of `u` has count `k`. */
  lemma {:induction false} CountsOfHas(s: seq<int>, u: seq<int>, k: int)
    ensures k in CountsOf(s, u) <==> exists x :: x in u && Count(s, x) == k
  {
    var cs := CountsOf(s, u);
    if k in cs {
      var i :| 0 <= i < |cs| && cs[i] == k;
      assert u[i] in u && Count(s, u[i]) == k;
    }
    if exists x :: x in u && Count(s, x) == k {
      var x :| x in u && Count(s, x) == k;
      var i :| 0 <= i < |u| && u[i] == x;
      assert cs[i] == k;
    }
  }

  /** A list of counts of at least one each has at least as much total as entries. */
  lemma {:induction false} SumOfPositives(c: seq<int>)
    requires forall i :: 0 <= i < |c| ==> c[i] >= 1
    ensures Sum(c) >= |c|
  {
    if c != [] {
      SumOfPositives(c[1..]);
    }
  }

  /** The seven ways to split five cards into groups of equal rank. */
  predicate IsFiveCardShape(c: seq<int>)
  {
    c == [5] || c == [4, 1] || c == [3, 2] || c == [3, 1, 1] ||
    c == [2, 2, 1] || c == [2, 1, 1, 1] || c == [1, 1, 1, 1, 1]
  }

  /** A non-increasing list of positive counts adding up to five is one of the seven shapes. */
  lemma ShapeCases(c: seq<int>)
    requires Descending(c)
    requires forall i :: 0 <= i < |c| ==> c[i] >= 1
    requires Sum(c) == 5
    ensures IsFiveCardShape(c)
  {
    SumOfPositives(c);
    if |c| == 1 {
      assert Sum(c) == c[0] + Sum(c[1..]);
      assert c == [5];
    } else {
      SumPrefix(c, |c|);
      if |c| == 2 {
        assert c[0] >= c[1];
        SplitTwo(c);
      } else if |c| == 3 {
        assert c[0] >= c[1] >= c[2];
        SplitThree(c);
      } else if |c| == 4 {
        assert c[0] >= c[1] >= c[2] >= c[3];
        SplitFour(c);
      } else {
        SplitFive(c);
      }
    }
  }

  lemma SplitTwo(c: seq<int>)
    requires |c| == 2 && c[0] >= c[1] >= 1 && c[0] + c[1] == 5
    ensures IsFiveCardShape(c)
  {
    if c[0] == 4 { assert c == [4, 1]; } else { assert c == [3, 2]; }
  }

  lemma SplitThree(c: seq<int>)
    requires |c| == 3 && c[0] >= c[1] >= c[2] >= 1 && c[0] + c[1] + c[2] == 5
    ensures IsFiveCardShape(c)
  {
    if c[0] == 3 { assert c == [3, 1, 1]; } else { assert c == [2, 2, 1]; }
  }

  lemma SplitFour(c: seq<int>)
    requires |c| == 4 && c[0] >= c[1] >= c[2] >= c[3] >= 1 && c[0] + c[1] + c[2] + c[3] == 5
    ensures IsFiveCardShape(c)
  {
    assert c == [2, 1, 1, 1];
  }

  lemma SplitFive(c: seq<int>)
    requires |c| == 5 && (forall i :: 0 <= i < 5 ==> c[i] >= 1)
    requires c[0] + c[1] + c[2] + c[3] + c[4] == 5
    ensures IsFiveCardShape(c)
  {
    assert c[0] >= 1 && c[1] >= 1 && c[2] >= 1 && c[3] >= 1 && c[4] >= 1;
    assert c == [1, 1, 1, 1, 1];
  }

  /** The sum of a list of two to five entries, written out. */
  lemma SumPrefix(c: seq<int>, n: nat)
    requires 2 <= n <= 5 && |c| == n
    ensures n == 2 ==> Sum(c) == c[0] + c[1]
    ensures n == 3 ==> Sum(c) == c[0] + c[1] + c[2]
    ensures n == 4 ==> Sum(c) == c[0] + c[1] + c[2] + c[3]
    ensures n == 5 ==> Sum(c) == c[0] + c[1] + c[2] + c[3] + c[4]
  {
    assert Sum(c) == c[0] + Sum(c[1..]);
    assert Sum(c[1..]) == c[1] + Sum(c[2..]);
    if n >= 3 {
      assert Sum(c[2..]) == c[2] + Sum(c[3..]);
      if n >= 4 {
        assert Sum(c[3..]) == c[3] + Sum(c[4..]);
        if n == 5 {
          assert Sum(c[4..]) == c[4] + Sum(c[5..]);
        }
      }
    }
  }

  /** Every count in the shape is at least one. */
  lemma ShapePositive(ranks: seq<int>)
    requires InRange(ranks)
    ensures forall i :: 0 <= i < |Shape(ranks)| ==> Shape(ranks)[i] >= 1
  {
    var u := UniqueAsc(ranks);
    var cs := CountsOf(ranks, u);
    forall i | 0 <= i < |Shape(ranks)|
      ensures Shape(ranks)[i] >= 1
    {
      assert Shape(ranks)[i] in multiset(cs);
      var j :| 0 <= j < |cs| && cs[j] == Shape(ranks)[i];
      assert u[j] in ranks;
    }
  }

  /** What the count shape of five rank values tells: it is one of the seven
      shapes, it has one entry per distinct value, a count `k` is in it exactly
      when some value occurs `k` times, and it holds `k` as often as there are
      values occurring `k` times. */
  lemma ShapeFacts(ranks: seq<int>, k: int)
    requires |ranks| == 5 && InRange(ranks)
    ensures IsFiveCardShape(Shape(ranks))
    ensures |Shape(ranks)| == |UniqueAsc(ranks)|
    ensures k in Shape(ranks) <==> exists x :: x in ranks && Count(ranks, x) == k
    ensures Count(Shape(ranks), k) == |WithCount(ranks, UniqueAsc(ranks), k)|
  {
    var u := UniqueAsc(ranks);
    var cs := CountsOf(ranks, u);
    CountsSum(ranks, u);
    SortDescSum(cs);
    ShapePositive(ranks);
    ShapeCases(Shape(ranks));
    assert k in Shape(ranks) <==> k in multiset(cs);
    CountsOfHas(ranks, u, k);
  }

  /** What the chain's tests `counts[0] == 4`, `counts[0] == 3 and counts[1] == 2`,
      `counts[0] == 3`, `counts[0] == 2 and counts[1] == 2` and `counts[0] == 2`
      see of each of the seven shapes. */
  lemma ShapeHeads(c: seq<int>)
    requires IsFiveCardShape(c)
    ensures |c| >= 1 && (c[0] == 2 || c[0] == 3 ==> |c| >= 2)
    ensures c[0] == 4 <==> c == [4, 1]
    ensures c[0] == 3 && c[1] == 2 <==> c == [3, 2]
    ensures c[0] == 3 && c[1] != 2 <==> c == [3, 1, 1]
    ensures c[0] == 2 && c[1] == 2 <==> c == [2, 2, 1]
    ensures c[0] == 2 && c[1] != 2 <==> c == [2, 1, 1, 1]
    ensures c[0] == 1 <==> c == [1, 1, 1, 1, 1]
    ensures c[0] == 5 <==> c == [5]
  {
  }

  /** Of the seven shapes, only 2-2-1 holds the count 2 twice. */
  lemma TwosInShape(c: seq<int>)
    requires IsFiveCardShape(c)
    ensures Count(c, 2) >= 2 <==> c == [2, 2, 1]
    ensures c == [2, 2, 1] ==> Count(c, 2) == 2
  {
    if c == [5] || c == [4, 1] || c == [3, 1, 1] || c == [1, 1, 1, 1, 1] {
      assert Count(c, 2) == 0;
    } else if c == [3, 2] || c == [2, 1, 1, 1] {
      assert Count(c, 2) == 1;
    } else {
      assert Count(c, 2) == 2;
    }
  }

  /** Counts starting 2 then 2 mean the scorer finds exactly two pairs. */
  lemma TwoPairsCounted(ranks: seq<int>)
    requires |ranks| == 5 && InRange(ranks)
    requires |Shape(ranks)| >= 2 && Shape(ranks)[0] == 2 && Shape(ranks)[1] == 2
    ensures |WithCount(ranks, CounterKeys(ranks), 2)| == 2
  {
    ShapeFacts(ranks, 2);
    ShapeHeads(Shape(ranks));
    TwosInShape(Shape(ranks));
    var u, keys := UniqueAsc(ranks), CounterKeys(ranks);
    WithCountDistinct(ranks, u, 2);
    WithCountDistinct(ranks, keys, 2);
    DistinctSameLength(WithCount(ranks, u, 2), WithCount(ranks, keys, 2));
  }

  /** Two pair: `pairs = [r for r, c in rank_counter.items() if c == 2]` holds two
      ranks occurring twice each; the counter of the descending `ranks` lists them
      higher first, so `sorted(pairs, reverse=True)` leaves them as they are. */
  lemma TwoPairsFound(ranks: seq<int>)
    requires Descending(ranks)
    requires |WithCount(ranks, CounterKeys(ranks), 2)| == 2
    ensures var found := WithCount(ranks, CounterKeys(ranks), 2);
      found[0] > found[1] && Count(ranks, found[0]) == 2 && Count(ranks, found[1]) == 2 &&
      SortDesc(found) == found
  {
    var found := WithCount(ranks, CounterKeys(ranks), 2);
    CounterKeysDescending(ranks);
    WithCountDescending(ranks, CounterKeys(ranks), 2);
    assert found[0] in found && found[1] in found;
    assert Descending(found);
    DescendingUnique(found, SortDesc(found));
  }

  /** `list(range(lo, hi))` */
  function Range(lo: int, hi: int): (r: seq<int>)
    requires lo <= hi
  {
    seq(hi - lo, k requires 0 <= k < hi - lo => lo + k)
  }

  /** `ranks[i..i+5]` counts up by one from its first entry. */
  predicate RunAt(ranks: seq<int>, i: nat)
    requires i + 5 <= |ranks|
  {
    ranks[i..i + 5] == Range(ranks[i], ranks[i] + 5)
  }

  /** The window loop of `is_straight`, from window `i` on: it reports the top
      of the first window of five entries counting up by one, or `-1` when
      no window from `i` on does. */
  function FindWindow(ranks: seq<int>, i: nat): (r: (bool, int))
    ensures r.0 <==> exists j: nat :: i <= j && j + 5 <= |ranks| && RunAt(ranks, j)
    ensures r.0 ==> exists j: nat ::
      i <= j && j + 5 <= |ranks| && RunAt(ranks, j) && r.1 == ranks[j + 4] &&
      forall m: nat :: i <= m < j ==> !RunAt(ranks, m)
    ensures !r.0 ==> r.1 == -1
    decreases |ranks| - i
  {
    if i + 4 >= |ranks| then (false, -1)
    else
      var window := ranks[i..i + 5];
      if window == Range(window[0], window[0] + 5) then
        assert RunAt(ranks, i);
        (true, window[4])
      else
        assert !RunAt(ranks, i);
        FindWindow(ranks, i + 1)
  }

  /** The ace-low test `ranks[-4:] + [ranks[0]] == [0, 1, 2, 3, 12]`: the last
      four entries are 2, 3, 4, 5 and the first is an ace. */
  predicate AceLowAt(ranks: seq<int>)
  {
    |ranks| >= 4 && ranks[|ranks| - 4..] == [0, 1, 2, 3] && ranks[0] == 12
  }

  /** `is_straight`: first the ace-low test, then the windows. It reports a
      straight exactly when the ace-low test or some window matches; the top
      is 3 (a '5') after the ace-low test, the top of a matching window
      otherwise, and `-1` when there is no straight. */
  function IsStraight(ranks: seq<int>): (r: (bool, int))
    requires |ranks| > 0
    ensures r.0 <==> AceLowAt(ranks) || exists j: nat :: j + 5 <= |ranks| && RunAt(ranks, j)
    ensures AceLowAt(ranks) ==> r == (true, 3)
    ensures !AceLowAt(ranks) && r.0 ==> exists j: nat :: j + 5 <= |ranks| && RunAt(ranks, j) && r.1 == ranks[j + 4]
    ensures !r.0 ==> r.1 == -1
  {
    var lastFour := if |ranks| >= 4 then ranks[|ranks| - 4..] else ranks;
    var probe := lastFour + [ranks[0]];
    assert probe == [0, 1, 2, 3, 12] <==> AceLowAt(ranks) by {
      if |ranks| >= 4 && probe == [0, 1, 2, 3, 12] {
        assert probe[..4] == lastFour;
      }
    }
    if probe == [0, 1, 2, 3, 12] then (true, 3)
    else FindWindow(ranks, 0)
  }

  /** On an ascending list of at most five distinct ranks (what `sorted(set(ranks))`
      gives for five cards), `is_straight` reports a straight exactly when there are
      five ranks spanning four, and then names the top one. The ace-low test
      never matches such a list: `ranks[0]` would have to be 12 while lying below
      the last four. */
  lemma {:induction false} StraightOnAscending(u: seq<int>)
    requires StrictlyAscending(u) && 1 <= |u| <= 5
    ensures IsStraight(u) == if |u| == 5 && u[4] - u[0] == 4 then (true, u[4]) else (false, -1)
  {
    var lastFour := if |u| >= 4 then u[|u| - 4..] else u;
    var probe := lastFour + [u[0]];
    if |u| >= 4 {
      assert probe[0] == u[|u| - 4] && probe[4] == u[0];
      assert u[0] <= u[|u| - 4];
    } else {
      assert |probe| < 5;
    }
    assert probe != [0, 1, 2, 3, 12];
    if |u| == 5 {
      assert u[0..5] == u;
      if u[4] - u[0] == 4 {
        forall k | 0 <= k < 5
          ensures u[k] == u[0] + k
        {
          ChainBounds(u, k);
        }
        assert u == Range(u[0], u[0] + 5);
      } else {
        assert u[4] != u[0] + 4;
        assert Range(u[0], u[0] + 5)[4] == u[0] + 4;
        assert u != Range(u[0], u[0] + 5);
      }
      assert FindWindow(u, 1) == (false, -1);
    }
  }

  /** In a strictly ascending list of integers each step is at least one. */
  lemma {:induction false} ChainBounds(u: seq<int>, k: nat)
    requires StrictlyAscending(u) && k < |u|
    ensures u[k] >= u[0] + k
    ensures u[|u| - 1] >= u[k] + (|u| - 1 - k)
  {
    if k > 0 {
      ChainBounds(u, k - 1);
    }
    if k < |u| - 1 {
      ChainUp(u, k, |u| - 1);
    }
  }

  /** Between positions `k` and `m` a strictly ascending list climbs at least `m - k`. */
  lemma {:induction false} ChainUp(u: seq<int>, k: nat, m: nat)
    requires StrictlyAscending(u) && k <= m < |u|
    ensures u[m] >= u[k] + (m - k)
    decreases m - k
  {
    if k < m {
      ChainUp(u, k + 1, m);
    }
  }
}
