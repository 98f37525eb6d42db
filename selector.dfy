/** The seven-card selector `evaluate_7cards` (poker/poker.py:38-44, 63-72):
    every five-card combination, in `itertools.combinations` order, is scored,
    and the first one with the highest score is kept. */
module Selector {
  import opened Wrappers
  import opened Seqs
  import opened Cards
  import opened Scoring
  import Classification

  /** `EvaluatedHand(score, best_five)`. */
  datatype EvaluatedHand = EvaluatedHand(score: Score, bestFive: seq<Card>)
  {
    /** The `category` property: the name of the score's category, which no
        other category shares. */
    function Category(): (name: string)
      requires score.category in HandRanks
      ensures name == HandRanks[score.category]
      ensures forall c :: c in HandRanks && HandRanks[c] == name ==> c == score.category
    {
      HandRanksNames();
      HandRanks[score.category]
    }
  }

  /** Binomial coefficient, the number of `k`-element combinations of `n` items. */
  function Choose(n: nat, k: nat): nat
  {
    if k == 0 then 1 else if n == 0 then 0 else Choose(n - 1, k - 1) + Choose(n - 1, k)
  }

  /** `x` put in front of each of `cs`. */
  function PrependAll<T>(x: T, cs: seq<seq<T>>): (r: seq<seq<T>>)
    ensures |r| == |cs|
    ensures forall i :: 0 <= i < |cs| ==> r[i] == [x] + cs[i]
  {
    seq(|cs|, i requires 0 <= i < |cs| => [x] + cs[i])
  }

  /** `itertools.combinations(s, k)`: the `k`-element subsequences of `s`, those
      holding `s[0]` first, each group in the same order recursively. */
  function Combinations<T>(s: seq<T>, k: nat): (cs: seq<seq<T>>)
    ensures |cs| == Choose(|s|, k)
    decreases |s|
  {
    if k == 0 then [[]]
    else if s == [] then []
    else PrependAll(s[0], Combinations(s[1..], k - 1)) + Combinations(s[1..], k)
  }

  /** Every combination has `k` elements taken from `s` in order. */
  lemma {:induction false} CombinationsSound<T>(s: seq<T>, k: nat)
    ensures forall i :: 0 <= i < |Combinations(s, k)| ==>
      |Combinations(s, k)[i]| == k && IsSubseq(Combinations(s, k)[i], s)
    decreases |s|
  {
    if k > 0 && s != [] {
      var tailCombos := Combinations(s[1..], k - 1);
      var withHead := PrependAll(s[0], tailCombos);
      var withoutHead := Combinations(s[1..], k);
      var cs := Combinations(s, k);
      assert cs == withHead + withoutHead;
      CombinationsSound(s[1..], k - 1);
      CombinationsSound(s[1..], k);
      forall i | 0 <= i < |cs|
        ensures |cs[i]| == k && IsSubseq(cs[i], s)
      {
        if i < |withHead| {
          var c := withHead[i];
          assert c[0] == s[0] && c[1..] == tailCombos[i];
        } else {
          var c := withoutHead[i - |withHead|];
          SubseqOfTail(c, s);
        }
      }
    }
  }

  /** Membership carries over to the prefixed combinations. */
  lemma InPrependAll<T>(x: T, cs: seq<seq<T>>, d: seq<T>)
    requires d in cs
    ensures [x] + d in PrependAll(x, cs)
  {
    var i :| 0 <= i < |cs| && cs[i] == d;
    assert PrependAll(x, cs)[i] == [x] + d;
  }

  /** Every choice of elements of `s`, kept in order, is one of the combinations. */
  lemma {:induction false} CombinationsComplete<T>(s: seq<T>, c: seq<T>)
    requires IsSubseq(c, s)
    ensures c in Combinations(s, |c|)
    decreases |s|
  {
    if c != [] {
      var k := |c|;
      var withHead := PrependAll(s[0], Combinations(s[1..], k - 1));
      var withoutHead := Combinations(s[1..], k);
      assert Combinations(s, k) == withHead + withoutHead;
      if c[0] == s[0] {
        CombinationsComplete(s[1..], c[1..]);
        InPrependAll(s[0], Combinations(s[1..], k - 1), c[1..]);
        assert c == [s[0]] + c[1..];
      } else {
        CombinationsComplete(s[1..], c);
      }
    }
  }

  /** A `k`-combination exists whenever `k` does not exceed the number of items. */
  lemma {:induction false} ChoosePositive(n: nat, k: nat)
    requires k <= n
    ensures Choose(n, k) > 0
  {
    if k > 0 {
      ChoosePositive(n - 1, k - 1);
    }
  }

  /** Inserts `x` into `cs`, sorted by rank from high to low, in front of the
      first card whose rank is not higher than that of `x`; on the ranks this
      is `InsertDesc`. */
  function InsertCard(x: Card, cs: seq<Card>): (r: seq<Card>)
    requires Descending(Values(cs))
    ensures Values(r) == InsertDesc(CardValue(x), Values(cs))
    ensures multiset(r) == multiset(cs) + multiset{x}
  {
    ValuesCons(x, cs);
    if cs == [] || CardValue(x) >= CardValue(cs[0]) then
      [x] + cs
    else
      ValuesTail(cs);
      DescendingTail(Values(cs));
      var tail := InsertCard(x, cs[1..]);
      ValuesCons(cs[0], tail);
      assert InsertDesc(CardValue(x), Values(cs))
          == [CardValue(cs[0]) as int] + InsertDesc(CardValue(x), Values(cs[1..]));
      assert cs == [cs[0]] + cs[1..];
      [cs[0]] + tail
  }

  /** `sorted(cards, reverse=True)` with `Card.__lt__`: the same cards, ranked
      from high to low; their ranks are those `score_five_cards` sorts. */
  function SortCards(cs: seq<Card>): (r: seq<Card>)
    ensures Values(r) == SortDesc(Values(cs))
    ensures multiset(r) == multiset(cs)
  {
    if cs == [] then []
    else
      ValuesTail(cs);
      assert cs == [cs[0]] + cs[1..];
      InsertCard(cs[0], SortCards(cs[1..]))
  }

  /** Every entry of `cs` has `k` elements. */
  predicate AllOfSize<T>(cs: seq<seq<T>>, k: nat)
  {
    forall i :: 0 <= i < |cs| ==> |cs[i]| == k
  }

  /** The score of each hand, in order. */
  function ScoresOf(hands: seq<seq<Card>>): (scores: seq<Score>)
    requires AllOfSize(hands, 5)
    ensures |scores| == |hands|
    ensures forall j :: 0 <= j < |hands| ==> scores[j] == ScoreFive(hands[j])
  {
    seq(|hands|, j requires 0 <= j < |hands| => ScoreFive(hands[j]))
  }

  /** Among the first `n` scores, the one at `k` is highest and every score
      before it is strictly lower: where a scan that replaces its choice only
      on a strictly higher score ends. */
  predicate FirstBest(scores: seq<Score>, n: nat, k: nat)
    requires n <= |scores|
  {
    k < n
    && (forall j :: 0 <= j < n ==> !ScoreLess(scores[k], scores[j]))
    && (forall j :: 0 <= j < k ==> ScoreLess(scores[j], scores[k]))
  }

  /** A score that beats the first best of a prefix is the first best of the
      longer prefix. */
  lemma NewFirstBest(scores: seq<Score>, i: nat, b: nat)
    requires i < |scores| && FirstBest(scores, i, b)
    requires ScoreLess(scores[b], scores[i])
    ensures FirstBest(scores, i + 1, i)
  {
    forall j | 0 <= j < i
      ensures ScoreLess(scores[j], scores[i]) && !ScoreLess(scores[i], scores[j])
    {
      ScoreLessIsStrictTotal(scores[j], scores[b], scores[i]);
      ScoreLessIsStrictTotal(scores[j], scores[i], scores[i]);
    }
    ScoreLessIsStrictTotal(scores[i], scores[i], scores[i]);
  }

  /** A score that does not beat the first best of a prefix leaves it the first
      best of the longer prefix. */
  lemma KeepFirstBest(scores: seq<Score>, i: nat, b: nat)
    requires i < |scores| && FirstBest(scores, i, b)
    requires !ScoreLess(scores[b], scores[i])
    ensures FirstBest(scores, i + 1, b)
  {
  }

  /** The position of the first highest score among the first `n` hands:
      a later hand replaces the choice only when it scores strictly higher. */
  function BestFrom(hands: seq<seq<Card>>, n: nat): (k: nat)
    requires AllOfSize(hands, 5) && 0 < n <= |hands|
    ensures k < n
  {
    if n == 1 then 0
    else
      var b := BestFrom(hands, n - 1);
      if ScoreLess(ScoreFive(hands[b]), ScoreFive(hands[n - 1])) then n - 1 else b
  }

  /** `BestFrom` picks the first highest score: no hand among the first `n`
      scores higher, and every hand before it scores strictly lower. */
  lemma {:induction false} BestFromIsFirstBest(hands: seq<seq<Card>>, n: nat)
    requires AllOfSize(hands, 5) && 0 < n <= |hands|
    ensures FirstBest(ScoresOf(hands), n, BestFrom(hands, n))
  {
    // Only the comparisons matter here, not how a hand is scored.
    hide ScoreFive;
    var scores := ScoresOf(hands);
    if n == 1 {
      ScoreLessIsStrictTotal(scores[0], scores[0], scores[0]);
    } else {
      var b := BestFrom(hands, n - 1);
      BestFromIsFirstBest(hands, n - 1);
      if ScoreLess(scores[b], scores[n - 1]) {
        NewFirstBest(scores, n - 1, b);
      } else {
        KeepFirstBest(scores, n - 1, b);
      }
    }
  }

  /** What `evaluate_7cards(cards)` returns: the score and the cards, ranked
      from high to low, of the first highest-scoring five-card combination. */
  function Evaluation(cards: seq<Card>): EvaluatedHand
    requires |cards| >= 5
  {
    CombinationsSound(cards, 5);
    ChoosePositive(|cards|, 5);
    var combos := Combinations(cards, 5);
    var k := BestFrom(combos, |combos|);
    EvaluatedHand(ScoreFive(combos[k]), SortCards(combos[k]))
  }

  /** The loop of `evaluate_7cards` over the five-card hands, in order: a hand
      replaces the one kept only when none is kept yet or it scores strictly
      higher. It ends with the first highest-scoring hand and its score. */
  method ScanHands(hands: seq<seq<Card>>) returns (best: Option<Score>, bestHand: seq<Card>)
    requires AllOfSize(hands, 5) && |hands| > 0
    ensures best == Some(ScoreFive(hands[BestFrom(hands, |hands|)]))
    ensures bestHand == hands[BestFrom(hands, |hands|)]
  {
    best := None;
    bestHand := [];
    ghost var b: nat := 0;
    var i := 0;
    while i < |hands|
      invariant 0 <= i <= |hands|
      invariant best.None? <==> i == 0
      invariant i > 0 ==> b == BestFrom(hands, i) && best == Some(ScoreFive(hands[b])) && bestHand == hands[b]
    {
      var score := ScoreFive(hands[i]);
      if best.None? || ScoreLess(best.value, score) {
        best := Some(score);
        bestHand := hands[i];
        b := i;
      }
      i := i + 1;
    }
  }

  /** `evaluate_7cards`: scans the five-card combinations of `cards` in
      `itertools.combinations` order and returns the score of the hand kept
      with that hand ranked from high to low. */
  method EvaluateSeven(cards: seq<Card>) returns (e: EvaluatedHand)
    requires |cards| >= 5
    ensures e == Evaluation(cards)
  {
    var combos := Combinations(cards, 5);
    assert AllOfSize(combos, 5) && |combos| > 0 by {
      CombinationsSound(cards, 5);
      ChoosePositive(|cards|, 5);
    }
    var best, bestHand := ScanHands(combos);
    e := EvaluatedHand(best.value, SortCards(bestHand));
  }

  /** The hand `evaluate_7cards` keeps scores at least as high as every choice
      of five of the cards, and no combination before it scores as high. */
  lemma EvaluationIsBest(cards: seq<Card>, c: seq<Card>)
    requires |cards| >= 5 && |c| == 5 && IsSubseq(c, cards)
    ensures !ScoreLess(Evaluation(cards).score, ScoreFive(c))
  {
    CombinationsSound(cards, 5);
    ChoosePositive(|cards|, 5);
    var combos := Combinations(cards, 5);
    BestFromIsFirstBest(combos, |combos|);
    FirstBestBeats(cards, BestFrom(combos, |combos|), c);
  }

  /** The first best of all the combinations scores at least as high as any
      choice of five of the cards, since every such choice is a combination. */
  lemma FirstBestBeats(cards: seq<Card>, k: nat, c: seq<Card>)
    requires AllOfSize(Combinations(cards, 5), 5)
    requires FirstBest(ScoresOf(Combinations(cards, 5)), |Combinations(cards, 5)|, k)
    requires |c| == 5 && IsSubseq(c, cards)
    ensures !ScoreLess(ScoreFive(Combinations(cards, 5)[k]), ScoreFive(c))
  {
    var combos := Combinations(cards, 5);
    var scores := ScoresOf(combos);
    CombinationsComplete(cards, c);
    var j :| 0 <= j < |combos| && combos[j] == c;
    assert scores[j] == ScoreFive(c);
  }

  /** The hand `evaluate_7cards` keeps is five of the given cards, ranked from
      high to low, and its score is theirs. */
  lemma EvaluationFromCards(cards: seq<Card>)
    requires |cards| >= 5
    ensures |Evaluation(cards).bestFive| == 5
    ensures multiset(Evaluation(cards).bestFive) <= multiset(cards)
    ensures Descending(Values(Evaluation(cards).bestFive))
    ensures Evaluation(cards).score == ScoreFive(Evaluation(cards).bestFive)
  {
    CombinationsSound(cards, 5);
    ChoosePositive(|cards|, 5);
    var combos := Combinations(cards, 5);
    var k := BestFrom(combos, |combos|);
    SubseqMultiset(combos[k], cards);
    SortedPermutation(combos[k], SortCards(combos[k]));
  }

  /** Sorting the cards keeps their score. */
  lemma SortedPermutation(hand: seq<Card>, sorted: seq<Card>)
    requires |hand| == 5 && sorted == SortCards(hand)
    ensures |sorted| == 5 && Descending(Values(sorted))
    ensures ScoreFive(sorted) == ScoreFive(hand)
  {
    assert |sorted| == |multiset(sorted)| == |multiset(hand)| == 5;
    Classification.ScoreFivePermutation(hand, sorted);
  }
}
