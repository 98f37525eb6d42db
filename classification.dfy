/** What `score_five_cards` computes, stated without its machinery
    (poker/poker.py:75-114): which category each kind of five-card hand
    gets, in the precedence order of the chain, and what its tie-break
    list holds. First on the descending rank list, then on the cards. */
module Classification {
  import opened Seqs
  import opened Cards
  import opened Ranks
  import opened Scoring

  /** Five different rank values spanning exactly four: the shape of a straight
      on the descending `ranks`. Ace is always rank 12, so A-2-3-4-5 is not one. */
  predicate StraightRanks(ranks: seq<int>)
    requires |ranks| == 5 && InRange(ranks)
  {
    Shape(ranks) == [1, 1, 1, 1, 1] && ranks[0] - ranks[4] == 4
  }

  /** The smallest distinct rank is the last of the descending list and the
      largest is the first. */
  lemma UniqueEnds(ranks: seq<int>)
    requires |ranks| == 5 && Descending(ranks) && InRange(ranks)
    ensures |UniqueAsc(ranks)| >= 1
    ensures UniqueAsc(ranks)[0] == ranks[4]
    ensures UniqueAsc(ranks)[|UniqueAsc(ranks)| - 1] == ranks[0]
  {
    var u := UniqueAsc(ranks);
    assert ranks[0] in u && ranks[4] in u;
    assert u[0] in ranks && u[|u| - 1] in ranks;
    var i :| 0 <= i < 5 && ranks[i] == u[0];
    var j :| 0 <= j < 5 && ranks[j] == u[|u| - 1];
    var a :| 0 <= a < |u| && u[a] == ranks[4];
    var b :| 0 <= b < |u| && u[b] == ranks[0];
    assert ranks[i] >= ranks[4] && u[a] >= u[0];
    assert ranks[0] >= ranks[j] && u[|u| - 1] >= u[b];
  }

  /** The straight test, as the scorer runs it on `sorted(set(ranks))`, finds a
      straight exactly on five distinct ranks spanning four, and reports the top one. */
  lemma StraightOfRanks(ranks: seq<int>)
    requires |ranks| == 5 && Descending(ranks) && InRange(ranks)
    ensures |UniqueAsc(ranks)| > 0
    ensures IsStraight(UniqueAsc(ranks)) ==
      if StraightRanks(ranks) then (true, ranks[0]) else (false, -1)
  {
    ShapeFacts(ranks, 1);
    UniqueEnds(ranks);
    var u := UniqueAsc(ranks);
    StraightOnAscending(u);
    assert |u| == 5 <==> Shape(ranks) == [1, 1, 1, 1, 1];
  }

  /** Straight flush: the top rank of the straight. */
  lemma StraightFlushCase(ranks: seq<int>, flush: bool)
    requires |ranks| == 5 && Descending(ranks) && InRange(ranks)
    requires StraightRanks(ranks) && flush
    ensures ScoreRanks(ranks, flush) == Score(9, [ranks[0]])
  {
    StraightOfRanks(ranks);
  }

  /** Four of a kind, whatever the suits. */
  lemma FourOfAKindCase(ranks: seq<int>, flush: bool)
    requires |ranks| == 5 && Descending(ranks) && InRange(ranks)
    requires Shape(ranks) == [4, 1]
    ensures var sc := ScoreRanks(ranks, flush);
      sc.category == 8 && |sc.tiebreakers| == 2 &&
      Count(ranks, sc.tiebreakers[0]) == 4 && Count(ranks, sc.tiebreakers[1]) == 1
  {
    StraightOfRanks(ranks);
  }

  /** The chain without a straight, on counts starting 3 then 2. */
  lemma FullHouseBranch(ranks: seq<int>, flush: bool)
    requires |ranks| == 5 && Descending(ranks) && InRange(ranks) && |UniqueAsc(ranks)| > 0
    requires !IsStraight(UniqueAsc(ranks)).0
    requires |Shape(ranks)| >= 2 && Shape(ranks)[0] == 3 && Shape(ranks)[1] == 2
    requires exists x :: x in ranks && Count(ranks, x) == 3
    requires exists x :: x in ranks && Count(ranks, x) == 2
    ensures ScoreRanks(ranks, flush) ==
      Score(7, [FirstWithCount(ranks, ranks, 3), FirstWithCount(ranks, ranks, 2)])
  {
  }

  /** Full house, whatever the suits: the triple's rank, then the pair's. */
  lemma FullHouseCase(ranks: seq<int>, flush: bool)
    requires |ranks| == 5 && Descending(ranks) && InRange(ranks)
    requires Shape(ranks) == [3, 2]
    ensures var sc := ScoreRanks(ranks, flush);
      sc.category == 7 && |sc.tiebreakers| == 2 &&
      Count(ranks, sc.tiebreakers[0]) == 3 && Count(ranks, sc.tiebreakers[1]) == 2
  {
    StraightOfRanks(ranks);
    ShapeFacts(ranks, 2);
    ShapeFacts(ranks, 3);
    FullHouseBranch(ranks, flush);
  }

  /** The chain on a flush that is not a straight and whose counts start with
      neither 4 nor 3 then 2. */
  lemma FlushBranch(ranks: seq<int>, flush: bool)
    requires |ranks| == 5 && Descending(ranks) && InRange(ranks) && |UniqueAsc(ranks)| > 0
    requires flush && !IsStraight(UniqueAsc(ranks)).0
    requires |Shape(ranks)| >= 1 && Shape(ranks)[0] != 4
    requires Shape(ranks)[0] == 3 ==> |Shape(ranks)| >= 2 && Shape(ranks)[1] != 2
    ensures ScoreRanks(ranks, flush) == Score(6, ranks)
  {
  }

  /** Flush without a straight or a stronger group: all ranks, high to low. */
  lemma FlushCase(ranks: seq<int>, flush: bool)
    requires |ranks| == 5 && Descending(ranks) && InRange(ranks)
    requires flush && !StraightRanks(ranks) && Shape(ranks) != [4, 1] && Shape(ranks) != [3, 2]
    ensures ScoreRanks(ranks, flush) == Score(6, ranks)
  {
    StraightOfRanks(ranks);
    ShapeFacts(ranks, 2);
    ShapeHeads(Shape(ranks));
    FlushBranch(ranks, flush);
  }

  /** Straight without a flush: the top rank of the straight. */
  lemma StraightCase(ranks: seq<int>, flush: bool)
    requires |ranks| == 5 && Descending(ranks) && InRange(ranks)
    requires !flush && StraightRanks(ranks)
    ensures ScoreRanks(ranks, flush) == Score(5, [ranks[0]])
  {
    StraightOfRanks(ranks);
  }

  /** The chain without a flush or a straight, on counts starting 3 then not 2. */
  lemma ThreeBranch(ranks: seq<int>, flush: bool)
    requires |ranks| == 5 && Descending(ranks) && InRange(ranks) && |UniqueAsc(ranks)| > 0
    requires !flush && !IsStraight(UniqueAsc(ranks)).0
    requires |Shape(ranks)| >= 2 && Shape(ranks)[0] == 3 && Shape(ranks)[1] != 2
    requires exists x :: x in ranks && Count(ranks, x) == 3
    ensures ScoreRanks(ranks, flush) == Score(4, GroupTiebreak(ranks, 3))
  {
  }

  /** Three of a kind without a flush: the triple's rank, then the two others
      from high to low. */
  lemma ThreeOfAKindCase(ranks: seq<int>, flush: bool)
    requires |ranks| == 5 && Descending(ranks) && InRange(ranks)
    requires !flush && Shape(ranks) == [3, 1, 1]
    ensures var sc := ScoreRanks(ranks, flush); var tb := sc.tiebreakers;
      sc.category == 4 && |tb| == 3 && Count(ranks, tb[0]) == 3 &&
      Descending(tb[1..]) && multiset(tb[1..]) == multiset(ranks)[tb[0] := 0]
  {
    StraightOfRanks(ranks);
    ShapeFacts(ranks, 3);
    ShapeHeads(Shape(ranks));
    ThreeBranch(ranks, flush);
  }

  /** The chain without a flush or a straight, on counts starting 2 then 2. */
  lemma TwoPairBranch(ranks: seq<int>, flush: bool)
    requires |ranks| == 5 && Descending(ranks) && InRange(ranks) && |UniqueAsc(ranks)| > 0
    requires !flush && !IsStraight(UniqueAsc(ranks)).0
    requires |Shape(ranks)| >= 2 && Shape(ranks)[0] == 2 && Shape(ranks)[1] == 2
    requires |WithCount(ranks, CounterKeys(ranks), 2)| == 2
    ensures ScoreRanks(ranks, flush) == Score(3, TwoPairTiebreak(ranks))
  {
  }

  /** Two pair without a flush: the higher pair, the lower pair, the kicker. */
  lemma TwoPairScoreCase(ranks: seq<int>, flush: bool)
    requires |ranks| == 5 && Descending(ranks) && InRange(ranks)
    requires !flush && Shape(ranks) == [2, 2, 1]
    ensures var sc := ScoreRanks(ranks, flush); var tb := sc.tiebreakers;
      sc.category == 3 && |tb| == 3 && tb[0] > tb[1] &&
      Count(ranks, tb[0]) == 2 && Count(ranks, tb[1]) == 2 && Count(ranks, tb[2]) == 1
  {
    StraightOfRanks(ranks);
    ShapeHeads(Shape(ranks));
    TwoPairsCounted(ranks);
    TwoPairBranch(ranks, flush);
  }

  /** The chain without a flush or a straight, on counts starting 2 then not 2. */
  lemma PairBranch(ranks: seq<int>, flush: bool)
    requires |ranks| == 5 && Descending(ranks) && InRange(ranks) && |UniqueAsc(ranks)| > 0
    requires !flush && !IsStraight(UniqueAsc(ranks)).0
    requires |Shape(ranks)| >= 2 && Shape(ranks)[0] == 2 && Shape(ranks)[1] != 2
    requires exists x :: x in ranks && Count(ranks, x) == 2
    ensures ScoreRanks(ranks, flush) == Score(2, GroupTiebreak(ranks, 2))
  {
  }

  /** One pair without a flush: the pair's rank, then the three others from
      high to low. */
  lemma OnePairCase(ranks: seq<int>, flush: bool)
    requires |ranks| == 5 && Descending(ranks) && InRange(ranks)
    requires !flush && Shape(ranks) == [2, 1, 1, 1]
    ensures var sc := ScoreRanks(ranks, flush); var tb := sc.tiebreakers;
      sc.category == 2 && |tb| == 4 && Count(ranks, tb[0]) == 2 &&
      Descending(tb[1..]) && multiset(tb[1..]) == multiset(ranks)[tb[0] := 0]
  {
    StraightOfRanks(ranks);
    ShapeFacts(ranks, 2);
    ShapeHeads(Shape(ranks));
    PairBranch(ranks, flush);
  }

  /** The chain without a flush or a straight, on counts starting with 1 or 5. */
  lemma HighCardBranch(ranks: seq<int>, flush: bool)
    requires |ranks| == 5 && Descending(ranks) && InRange(ranks) && |UniqueAsc(ranks)| > 0
    requires !flush && !IsStraight(UniqueAsc(ranks)).0
    requires |Shape(ranks)| >= 1 && (Shape(ranks)[0] == 1 || Shape(ranks)[0] == 5)
    ensures ScoreRanks(ranks, flush) == Score(1, ranks)
  {
  }

  /** Nothing else: all ranks, high to low. */
  lemma HighCardCase(ranks: seq<int>, flush: bool)
    requires |ranks| == 5 && Descending(ranks) && InRange(ranks)
    requires !flush && !StraightRanks(ranks)
    requires Shape(ranks) == [1, 1, 1, 1, 1] || Shape(ranks) == [5]
    ensures ScoreRanks(ranks, flush) == Score(1, ranks)
  {
    StraightOfRanks(ranks);
    ShapeFacts(ranks, 1);
    ShapeHeads(Shape(ranks));
    HighCardBranch(ranks, flush);
  }

  /** The classification chain as a table, case by case in its order of
      precedence: which category each rank shape and flush test get, and what
      the tie-break list then holds. */
  predicate Classified(ranks: seq<int>, flush: bool, sc: Score)
    requires |ranks| == 5 && InRange(ranks)
  {
    var tb := sc.tiebreakers;
    && (StraightRanks(ranks) && flush ==> sc == Score(9, [ranks[0]]))
    && (Shape(ranks) == [4, 1] ==>
          sc.category == 8 && |tb| == 2 && Count(ranks, tb[0]) == 4 && Count(ranks, tb[1]) == 1)
    && (Shape(ranks) == [3, 2] ==>
          sc.category == 7 && |tb| == 2 && Count(ranks, tb[0]) == 3 && Count(ranks, tb[1]) == 2)
    && (flush && !StraightRanks(ranks) && Shape(ranks) != [4, 1] && Shape(ranks) != [3, 2] ==>
          sc == Score(6, ranks))
    && (!flush && StraightRanks(ranks) ==> sc == Score(5, [ranks[0]]))
    && (!flush && Shape(ranks) == [3, 1, 1] ==>
          sc.category == 4 && |tb| == 3 && Count(ranks, tb[0]) == 3 &&
          Descending(tb[1..]) && multiset(tb[1..]) == multiset(ranks)[tb[0] := 0])
    && (!flush && Shape(ranks) == [2, 2, 1] ==>
          sc.category == 3 && |tb| == 3 && tb[0] > tb[1] &&
          Count(ranks, tb[0]) == 2 && Count(ranks, tb[1]) == 2 && Count(ranks, tb[2]) == 1)
    && (!flush && Shape(ranks) == [2, 1, 1, 1] ==>
          sc.category == 2 && |tb| == 4 && Count(ranks, tb[0]) == 2 &&
          Descending(tb[1..]) && multiset(tb[1..]) == multiset(ranks)[tb[0] := 0])
    && (!flush && !StraightRanks(ranks) && (Shape(ranks) == [1, 1, 1, 1, 1] || Shape(ranks) == [5]) ==>
          sc == Score(1, ranks))
  }

  /** `score_five_cards`'s chain follows the table. */
  lemma ScoreRanksCases(ranks: seq<int>, flush: bool)
    requires |ranks| == 5 && Descending(ranks) && InRange(ranks)
    ensures Classified(ranks, flush, ScoreRanks(ranks, flush))
  {
    var counts := Shape(ranks);
    if StraightRanks(ranks) && flush {
      StraightFlushCase(ranks, flush);
    }
    if counts == [4, 1] {
      FourOfAKindCase(ranks, flush);
    }
    if counts == [3, 2] {
      FullHouseCase(ranks, flush);
    }
    if flush && !StraightRanks(ranks) && counts != [4, 1] && counts != [3, 2] {
      FlushCase(ranks, flush);
    }
    if !flush && StraightRanks(ranks) {
      StraightCase(ranks, flush);
    }
    if !flush && counts == [3, 1, 1] {
      ThreeOfAKindCase(ranks, flush);
    }
    if !flush && counts == [2, 2, 1] {
      TwoPairScoreCase(ranks, flush);
    }
    if !flush && counts == [2, 1, 1, 1] {
      OnePairCase(ranks, flush);
    }
    if !flush && !StraightRanks(ranks) && (counts == [1, 1, 1, 1, 1] || counts == [5]) {
      HighCardCase(ranks, flush);
    }
  }

  // ---- The hand categories of poker, stated on the cards themselves ----

  /** How many of the cards have rank value `v`. */
  function RankCount(cards: seq<Card>, v: int): (n: nat)
    ensures n <= |cards|
  {
    CountAtMostLength(Values(cards), v);
    Count(Values(cards), v)
  }

  /** All cards have the suit of the first. */
  predicate Flush(cards: seq<Card>)
  {
    forall i :: 0 <= i < |cards| ==> cards[i].suit == cards[0].suit
  }

  /** No two cards share a rank, and no two ranks are more than four apart. */
  predicate Straight(cards: seq<Card>)
  {
    && AllDistinct(Values(cards))
    && forall v, w :: v in Values(cards) && w in Values(cards) ==> v - w <= 4
  }

  /** Some rank occurs exactly `k` times. */
  predicate OfAKind(cards: seq<Card>, k: nat)
  {
    exists v :: 0 <= v < 13 && RankCount(cards, v) == k
  }

  /** Two different ranks each occur exactly twice. */
  predicate TwoPairs(cards: seq<Card>)
  {
    exists v, w :: 0 <= v < w < 13 && RankCount(cards, v) == 2 && RankCount(cards, w) == 2
  }

  /** The sorted ranks count each value as the cards do. */
  lemma RanksCount(cards: seq<Card>, v: int)
    ensures Count(SortedRanks(cards), v) == RankCount(cards, v)
  {
  }

  /** `len(set(suits)) == 1` is the flush of the rules. */
  lemma FlushIsSuitsAgree(cards: seq<Card>)
    requires |cards| > 0
    ensures Flush(cards) <==> SuitsAgree(cards)
  {
    var suits := set c | c in cards :: c.suit;
    assert cards[0] in cards;
    if Flush(cards) {
      assert suits == {cards[0].suit};
    } else {
      var i :| 0 <= i < |cards| && cards[i].suit != cards[0].suit;
      assert cards[i] in cards;
      assert {cards[0].suit, cards[i].suit} <= suits;
      assert |suits - {cards[0].suit}| >= 1 by {
        assert cards[i].suit in suits - {cards[0].suit};
      }
    }
  }

  /** `k` is among the rank counts exactly when some rank of the hand occurs `k` times. */
  lemma OfAKindIsInShape(cards: seq<Card>, k: nat)
    requires |cards| == 5 && k >= 1
    ensures OfAKind(cards, k) <==> k in Shape(SortedRanks(cards))
  {
    var ranks := SortedRanks(cards);
    ShapeFacts(ranks, k);
    if OfAKind(cards, k) {
      var v :| 0 <= v < 13 && RankCount(cards, v) == k;
      RanksCount(cards, v);
      assert v in multiset(ranks);
    }
    if k in Shape(ranks) {
      var x :| x in ranks && Count(ranks, x) == k;
      RanksCount(cards, x);
    }
  }

  /** Shape 1-1-1-1-1 means no rank value repeats. */
  lemma AllOnesMeansNoRepeat(ranks: seq<int>)
    requires |ranks| == 5 && InRange(ranks) && Shape(ranks) == [1, 1, 1, 1, 1]
    ensures forall x :: Count(ranks, x) <= 1
  {
    forall x
      ensures Count(ranks, x) <= 1
    {
      if x in ranks {
        ShapeFacts(ranks, Count(ranks, x));
      }
    }
  }

  /** With no rank value repeated, the shape is 1-1-1-1-1. */
  lemma NoRepeatMeansAllOnes(ranks: seq<int>)
    requires |ranks| == 5 && InRange(ranks)
    requires forall x :: Count(ranks, x) <= 1
    ensures Shape(ranks) == [1, 1, 1, 1, 1]
  {
    ShapeFacts(ranks, 2);
    ShapeFacts(ranks, 3);
    ShapeFacts(ranks, 4);
    ShapeFacts(ranks, 5);
  }

  /** Two ranks occurring twice give the shape 2-2-1. */
  lemma TwoPairsGiveShape(ranks: seq<int>, v: int, w: int)
    requires |ranks| == 5 && InRange(ranks)
    requires v != w && Count(ranks, v) == 2 && Count(ranks, w) == 2
    ensures Shape(ranks) == [2, 2, 1]
  {
    ShapeFacts(ranks, 2);
    var found := WithCount(ranks, UniqueAsc(ranks), 2);
    CountedIsIn(ranks, v);
    CountedIsIn(ranks, w);
    assert v in found && w in found;
    TwoMembers(found, v, w);
    TwosInShape(Shape(ranks));
  }

  /** A list holding two different values has at least two entries. */
  lemma TwoMembers(s: seq<int>, v: int, w: int)
    requires v != w && v in s && w in s
    ensures |s| >= 2
  {
    var i :| 0 <= i < |s| && s[i] == v;
    var j :| 0 <= j < |s| && s[j] == w;
    assert i != j;
  }

  /** Two pairs are exactly the rank shape 2-2-1. */
  lemma TwoPairsIsShape(cards: seq<Card>)
    requires |cards| == 5
    ensures TwoPairs(cards) <==> Shape(SortedRanks(cards)) == [2, 2, 1]
  {
    var ranks := SortedRanks(cards);
    if TwoPairs(cards) {
      var v, w :| 0 <= v < w < 13 && RankCount(cards, v) == 2 && RankCount(cards, w) == 2;
      RanksCount(cards, v);
      RanksCount(cards, w);
      TwoPairsGiveShape(ranks, v, w);
    }
    if Shape(ranks) == [2, 2, 1] {
      ShapeHeads(Shape(ranks));
      TwoPairsCounted(ranks);
      TwoPairsFound(ranks);
      var found := WithCount(ranks, CounterKeys(ranks), 2);
      assert found[0] in found && found[1] in found;
      assert found[0] in ranks && found[1] in ranks;
      RanksCount(cards, found[0]);
      RanksCount(cards, found[1]);
      assert 0 <= found[1] < found[0] < 13;
    }
  }

  /** Five different ranks are exactly the rank shape 1-1-1-1-1. */
  lemma DistinctValuesIsShape(cards: seq<Card>)
    requires |cards| == 5
    ensures AllDistinct(Values(cards)) <==> Shape(SortedRanks(cards)) == [1, 1, 1, 1, 1]
  {
    var ranks := SortedRanks(cards);
    DistinctIffCountsOne(Values(cards));
    assert forall x :: Count(ranks, x) == Count(Values(cards), x);
    if Shape(ranks) == [1, 1, 1, 1, 1] {
      AllOnesMeansNoRepeat(ranks);
    }
    if AllDistinct(Values(cards)) {
      NoRepeatMeansAllOnes(ranks);
    }
  }

  /** The first of the descending arrangement is the largest value and the last
      the smallest. */
  lemma RanksBound(vals: seq<int>, ranks: seq<int>)
    requires |ranks| == 5 && Descending(ranks) && multiset(ranks) == multiset(vals)
    ensures ranks[0] in vals && ranks[4] in vals
    ensures forall v :: v in vals ==> ranks[4] <= v <= ranks[0]
  {
    assert ranks[0] in multiset(vals) && ranks[4] in multiset(vals);
    forall v | v in vals
      ensures ranks[4] <= v <= ranks[0]
    {
      assert v in multiset(ranks);
    }
  }

  /** The widest gap between two values is between the first and the last
      of their descending arrangement. */
  lemma SpreadOfValues(vals: seq<int>, ranks: seq<int>)
    requires |ranks| == 5 && Descending(ranks) && multiset(ranks) == multiset(vals)
    ensures (forall v, w :: v in vals && w in vals ==> v - w <= 4) <==> ranks[0] - ranks[4] <= 4
  {
    RanksBound(vals, ranks);
  }

  /** Five different values in descending order span at least four. */
  lemma DistinctRanksSpan(vals: seq<int>, ranks: seq<int>)
    requires |ranks| == 5 && Descending(ranks) && multiset(ranks) == multiset(vals)
    requires AllDistinct(vals)
    ensures ranks[0] - ranks[4] >= 4
  {
    DistinctIffCountsOne(vals);
    assert forall x :: Count(ranks, x) == Count(vals, x);
    DistinctIffCountsOne(ranks);
    assert ranks[0] > ranks[1] > ranks[2] > ranks[3] > ranks[4];
  }

  /** The rules' straight is the scorer's: five different ranks spanning four. */
  lemma StraightIsStraightRanks(cards: seq<Card>)
    requires |cards| == 5
    ensures Straight(cards) <==> StraightRanks(SortedRanks(cards))
  {
    DistinctValuesIsShape(cards);
    SpreadOfValues(Values(cards), SortedRanks(cards));
    if AllDistinct(Values(cards)) {
      DistinctRanksSpan(Values(cards), SortedRanks(cards));
    }
  }

  /** Different cards of one suit have different ranks. */
  lemma FlushHasDistinctValues(cards: seq<Card>)
    requires AllDistinct(cards) && Flush(cards)
    ensures AllDistinct(Values(cards))
  {
    forall i, j | 0 <= i < j < |cards|
      ensures Values(cards)[i] != Values(cards)[j]
    {
      assert cards[i].rank != cards[j].rank;
      CardValueInjective(cards[i], cards[j]);
    }
  }

  /** Five different cards cannot all have one rank: there are only four suits. */
  lemma DistinctCardsNotOneRank(cards: seq<Card>)
    requires |cards| == 5 && AllDistinct(cards)
    ensures Shape(SortedRanks(cards)) != [5]
  {
    var c := cards;
    assert c[0].suit == c[1].suit || c[0].suit == c[2].suit || c[0].suit == c[3].suit ||
           c[0].suit == c[4].suit || c[1].suit == c[2].suit || c[1].suit == c[3].suit ||
           c[1].suit == c[4].suit || c[2].suit == c[3].suit || c[2].suit == c[4].suit ||
           c[3].suit == c[4].suit;
    var i, j :| 0 <= i < j < 5 && c[i].suit == c[j].suit;
    assert c[i].rank != c[j].rank;
    CardValueInjective(c[i], c[j]);
    OfAKindIsInShape(cards, 5);
    forall v
      ensures RankCount(cards, v) != 5
    {
      CountBelowLength(Values(cards), i, j, v);
    }
  }

  /** Which counts occur tells the shapes apart once five of a kind is ruled out. */
  lemma ShapeMembership(c: seq<int>)
    requires IsFiveCardShape(c) && c != [5]
    ensures 4 in c <==> c == [4, 1]
    ensures 3 in c && 2 in c <==> c == [3, 2]
    ensures 3 in c && 2 !in c <==> c == [3, 1, 1]
    ensures 2 in c && 3 !in c && c != [2, 2, 1] <==> c == [2, 1, 1, 1]
    ensures 2 !in c && 3 !in c && 4 !in c <==> c == [1, 1, 1, 1, 1]
  {
  }

  /** The classification chain as a table from rank shape, straight and flush to
      category, for hands where a flush has five different ranks and five of a
      kind cannot occur (as with five different cards). */
  lemma CategoryByShape(ranks: seq<int>, flush: bool, sc: Score)
    requires |ranks| == 5 && Descending(ranks) && InRange(ranks) && Classified(ranks, flush, sc)
    requires Shape(ranks) != [5]
    requires flush ==> Shape(ranks) == [1, 1, 1, 1, 1]
    ensures var c := sc.category; var shape := Shape(ranks);
      && (c == 9 <==> flush && StraightRanks(ranks))
      && (c == 8 <==> shape == [4, 1])
      && (c == 7 <==> shape == [3, 2])
      && (c == 6 <==> flush && !StraightRanks(ranks))
      && (c == 5 <==> !flush && StraightRanks(ranks))
      && (c == 4 <==> shape == [3, 1, 1])
      && (c == 3 <==> shape == [2, 2, 1])
      && (c == 2 <==> shape == [2, 1, 1, 1])
      && (c == 1 <==> shape == [1, 1, 1, 1, 1] && !flush && !StraightRanks(ranks))
  {
    ShapeFacts(ranks, 1);
  }

  /** The category `score_five_cards` gives five different cards is the one the
      rules of poker name, with the higher category winning where two apply. */
  lemma ScoreFiveCategory(cards: seq<Card>)
    requires |cards| == 5 && AllDistinct(cards)
    ensures var c := ScoreFive(cards).category;
      && (c == 9 <==> Flush(cards) && Straight(cards))
      && (c == 8 <==> OfAKind(cards, 4))
      && (c == 7 <==> OfAKind(cards, 3) && OfAKind(cards, 2))
      && (c == 6 <==> Flush(cards) && !Straight(cards))
      && (c == 5 <==> Straight(cards) && !Flush(cards))
      && (c == 4 <==> OfAKind(cards, 3) && !OfAKind(cards, 2))
      && (c == 3 <==> TwoPairs(cards))
      && (c == 2 <==> OfAKind(cards, 2) && !OfAKind(cards, 3) && !TwoPairs(cards))
      && (c == 1 <==> AllDistinct(Values(cards)) && !Flush(cards) && !Straight(cards))
  {
    var ranks := SortedRanks(cards);
    var flush := SuitsAgree(cards);
    FlushIsSuitsAgree(cards);
    StraightIsStraightRanks(cards);
    OfAKindIsInShape(cards, 2);
    OfAKindIsInShape(cards, 3);
    OfAKindIsInShape(cards, 4);
    TwoPairsIsShape(cards);
    DistinctValuesIsShape(cards);
    DistinctCardsNotOneRank(cards);
    if Flush(cards) {
      FlushHasDistinctValues(cards);
    }
    ShapeFacts(ranks, 1);
    ShapeMembership(Shape(ranks));
    assert ScoreFive(cards) == ScoreRanks(ranks, flush);
    ScoreRanksCases(ranks, flush);
    CategoryByShape(ranks, flush, ScoreFive(cards));
  }

  /** What the tie-break list of `score_five_cards` holds in each category: the
      top rank of a straight; every rank, highest first, for a flush or high
      card; otherwise the grouped ranks by group size, then the single ranks
      highest first. */
  lemma ScoreFiveTiebreakers(cards: seq<Card>)
    requires |cards| == 5
    ensures var sc := ScoreFive(cards); var tb := sc.tiebreakers; var vals := Values(cards);
      && (sc.category == 9 || sc.category == 5 ==>
            |tb| == 1 && tb[0] in vals && forall v :: v in vals ==> v <= tb[0])
      && (sc.category == 6 || sc.category == 1 ==>
            Descending(tb) && multiset(tb) == multiset(vals))
      && (sc.category == 8 ==>
            |tb| == 2 && RankCount(cards, tb[0]) == 4 && RankCount(cards, tb[1]) == 1)
      && (sc.category == 7 ==>
            |tb| == 2 && RankCount(cards, tb[0]) == 3 && RankCount(cards, tb[1]) == 2)
      && (sc.category == 4 ==>
            |tb| == 3 && RankCount(cards, tb[0]) == 3 &&
            Descending(tb[1..]) && multiset(tb[1..]) == multiset(vals)[tb[0] := 0])
      && (sc.category == 3 ==>
            |tb| == 3 && tb[0] > tb[1] && RankCount(cards, tb[0]) == 2 &&
            RankCount(cards, tb[1]) == 2 && RankCount(cards, tb[2]) == 1)
      && (sc.category == 2 ==>
            |tb| == 4 && RankCount(cards, tb[0]) == 2 &&
            Descending(tb[1..]) && multiset(tb[1..]) == multiset(vals)[tb[0] := 0])
  {
    var ranks := SortedRanks(cards);
    var flush := SuitsAgree(cards);
    var sc := ScoreFive(cards);
    assert sc == ScoreRanks(ranks, flush);
    ScoreRanksCases(ranks, flush);
    ClassifiedTiebreakers(Values(cards), ranks, flush, sc);
  }

  /** A full house breaks ties by the rank of its triple, then of its pair. */
  lemma ScoreFiveFullHouse(cards: seq<Card>)
    requires |cards| == 5 && ScoreFive(cards).category == 7
    ensures var tb := ScoreFive(cards).tiebreakers;
      |tb| == 2 && RankCount(cards, tb[0]) == 3 && RankCount(cards, tb[1]) == 2
  {
    ScoreFiveTiebreakers(cards);
  }

  /** The tie-breakers the table gives, read against the values the ranks
      were sorted from. */
  lemma ClassifiedTiebreakers(vals: seq<int>, ranks: seq<int>, flush: bool, sc: Score)
    requires |ranks| == 5 && Descending(ranks) && InRange(ranks) && multiset(ranks) == multiset(vals)
    requires Classified(ranks, flush, sc)
    ensures var tb := sc.tiebreakers;
      && (sc.category == 9 || sc.category == 5 ==>
            |tb| == 1 && tb[0] in vals && forall v :: v in vals ==> v <= tb[0])
      && (sc.category == 6 || sc.category == 1 ==>
            Descending(tb) && multiset(tb) == multiset(vals))
      && (sc.category == 8 ==>
            |tb| == 2 && Count(vals, tb[0]) == 4 && Count(vals, tb[1]) == 1)
      && (sc.category == 7 ==>
            |tb| == 2 && Count(vals, tb[0]) == 3 && Count(vals, tb[1]) == 2)
      && (sc.category == 4 ==>
            |tb| == 3 && Count(vals, tb[0]) == 3 &&
            Descending(tb[1..]) && multiset(tb[1..]) == multiset(vals)[tb[0] := 0])
      && (sc.category == 3 ==>
            |tb| == 3 && tb[0] > tb[1] && Count(vals, tb[0]) == 2 &&
            Count(vals, tb[1]) == 2 && Count(vals, tb[2]) == 1)
      && (sc.category == 2 ==>
            |tb| == 4 && Count(vals, tb[0]) == 2 &&
            Descending(tb[1..]) && multiset(tb[1..]) == multiset(vals)[tb[0] := 0])
  {
    ShapeFacts(ranks, 1);
    RanksBound(vals, ranks);
  }

  /** A value counted in a list is in it. */
  lemma CountedIsIn(s: seq<int>, x: int)
    requires Count(s, x) > 0
    ensures x in s
  {
    assert x in multiset(s);
  }

  /** Two or three entries each counted among the ranks are ranks. */
  lemma CountedAreRanks(ranks: seq<int>, tb: seq<int>)
    requires 2 <= |tb| <= 3 && Count(ranks, tb[0]) > 0 && Count(ranks, tb[1]) > 0
    requires |tb| == 3 ==> Count(ranks, tb[2]) > 0
    ensures forall t :: t in tb ==> t in ranks
  {
    forall t | t in tb
      ensures t in ranks
    {
      var k :| 0 <= k < |tb| && tb[k] == t;
      CountedIsIn(ranks, tb[k]);
    }
  }

  /** A grouped rank followed by the other ranks is made of ranks. */
  lemma GroupedAreRanks(ranks: seq<int>, tb: seq<int>)
    requires |tb| >= 1 && Count(ranks, tb[0]) > 0
    requires multiset(tb[1..]) == multiset(ranks)[tb[0] := 0]
    ensures forall t :: t in tb ==> t in ranks
  {
    CountedIsIn(ranks, tb[0]);
    forall t | t in tb
      ensures t in ranks
    {
      if t != tb[0] {
        var k :| 0 <= k < |tb| && tb[k] == t;
        assert tb[1..][k - 1] == t;
        assert t in multiset(tb[1..]);
      }
    }
  }

  /** Members of a list of rank values are rank values. */
  lemma RanksInRange(ranks: seq<int>, tb: seq<int>)
    requires InRange(ranks) && forall t :: t in tb ==> t in ranks
    ensures InRange(tb)
  {
    forall i | 0 <= i < |tb|
      ensures 0 <= tb[i] < 13
    {
      assert tb[i] in tb;
    }
  }

  /** Every tie-breaker is one of the ranks, so a rank value. */
  lemma TiebreakersAreRanks(ranks: seq<int>, flush: bool, sc: Score)
    requires |ranks| == 5 && Descending(ranks) && InRange(ranks) && Classified(ranks, flush, sc)
    ensures forall t :: t in sc.tiebreakers ==> t in ranks
    ensures InRange(sc.tiebreakers)
  {
    var tb := sc.tiebreakers;
    var shape := Shape(ranks);
    ShapeFacts(ranks, 1);
    if StraightRanks(ranks) {
      assert tb == [ranks[0]];
      CountedIsIn(ranks, ranks[0]);
    } else if shape == [4, 1] || shape == [3, 2] {
      assert |tb| == 2 && Count(ranks, tb[0]) > 0 && Count(ranks, tb[1]) > 0;
      CountedAreRanks(ranks, tb);
    } else if flush || shape == [1, 1, 1, 1, 1] || shape == [5] {
      assert tb == ranks;
    } else if shape == [2, 2, 1] {
      assert |tb| == 3 && Count(ranks, tb[0]) > 0 && Count(ranks, tb[1]) > 0 && Count(ranks, tb[2]) > 0;
      CountedAreRanks(ranks, tb);
    } else {
      assert |tb| >= 1 && Count(ranks, tb[0]) > 0 && multiset(tb[1..]) == multiset(ranks)[tb[0] := 0];
      GroupedAreRanks(ranks, tb);
    }
    RanksInRange(ranks, tb);
  }

  /** How many tie-breakers each category of the chain produces. */
  lemma TiebreakLengths(ranks: seq<int>, flush: bool, sc: Score)
    requires |ranks| == 5 && Descending(ranks) && InRange(ranks) && Classified(ranks, flush, sc)
    ensures var n := |sc.tiebreakers|;
      && (sc.category == 9 || sc.category == 5 ==> n == 1)
      && (sc.category == 8 || sc.category == 7 ==> n == 2)
      && (sc.category == 4 || sc.category == 3 ==> n == 3)
      && (sc.category == 2 ==> n == 4)
      && (sc.category == 6 || sc.category == 1 ==> n == 5)
  {
    ShapeFacts(ranks, 1);
  }

  /** Every score is one of the nine named categories with rank values as
      tie-breakers, as many as its category calls for. */
  lemma ScoreFiveBounds(cards: seq<Card>)
    requires |cards| == 5
    ensures var sc := ScoreFive(cards); var n := |sc.tiebreakers|;
      && 1 <= sc.category <= 9 && sc.category in HandRanks
      && InRange(sc.tiebreakers)
      && (sc.category == 9 || sc.category == 5 ==> n == 1)
      && (sc.category == 8 || sc.category == 7 ==> n == 2)
      && (sc.category == 4 || sc.category == 3 ==> n == 3)
      && (sc.category == 2 ==> n == 4)
      && (sc.category == 6 || sc.category == 1 ==> n == 5)
  {
    var ranks := SortedRanks(cards);
    var flush := SuitsAgree(cards);
    var sc := ScoreFive(cards);
    assert sc == ScoreRanks(ranks, flush);
    ScoreRanksCases(ranks, flush);
    TiebreakLengths(ranks, flush, sc);
    TiebreakersAreRanks(ranks, flush, sc);
  }

  /** Taking the values distributes over concatenation. */
  lemma ValuesAppend(p: seq<Card>, q: seq<Card>)
    ensures Values(p + q) == Values(p) + Values(q)
  {
  }

  /** Taking out the card at `k` takes out its value. */
  lemma ValuesRemoveAt(b: seq<Card>, k: nat)
    requires k < |b|
    ensures multiset(Values(b)) == multiset(Values(b[..k] + b[k + 1..])) + multiset{CardValue(b[k]) as int}
  {
    var pre, post := b[..k], b[k + 1..];
    var v := CardValue(b[k]) as int;
    assert b == pre + [b[k]] + post;
    ValuesAppend(pre + [b[k]], post);
    ValuesAppend(pre, [b[k]]);
    ValuesAppend(pre, post);
    assert Values([b[k]]) == [v];
    calc {
      multiset(Values(b));
      multiset(Values(pre) + [v] + Values(post));
      multiset(Values(pre)) + multiset{v} + multiset(Values(post));
      multiset(Values(pre + post)) + multiset{v};
    }
  }

  /** Cards taken from `b` have values taken from the values of `b`. */
  lemma {:induction false} ValuesSubmultiset(a: seq<Card>, b: seq<Card>)
    requires multiset(a) <= multiset(b)
    ensures multiset(Values(a)) <= multiset(Values(b))
    decreases |a|
  {
    if a != [] {
      assert a[0] in b by {
        assert a[0] in multiset(a);
      }
      var k :| 0 <= k < |b| && b[k] == a[0];
      var rest := b[..k] + b[k + 1..];
      var v := CardValue(a[0]) as int;
      assert multiset(a[1..]) <= multiset(rest) by {
        MultisetRemoveAt(b, k);
        assert a == [a[0]] + a[1..];
      }
      ValuesSubmultiset(a[1..], rest);
      assert multiset(Values(b)) == multiset(Values(rest)) + multiset{v} by {
        ValuesRemoveAt(b, k);
      }
      assert multiset(Values(a)) == multiset{v} + multiset(Values(a[1..])) by {
        assert a == [a[0]] + a[1..];
        ValuesCons(a[0], a[1..]);
      }
    }
  }

  /** Reordering the cards reorders their values. */
  lemma ValuesPermute(a: seq<Card>, b: seq<Card>)
    requires multiset(a) == multiset(b)
    ensures multiset(Values(a)) == multiset(Values(b))
  {
    ValuesSubmultiset(a, b);
    ValuesSubmultiset(b, a);
  }

  /** `score_five_cards` sees only the ranks, as a multiset, and whether the
      suits agree: hands of different cards with the same ranks and the same
      flush test tie. */
  lemma ScoreFiveOfRanksAndFlush(a: seq<Card>, b: seq<Card>)
    requires |a| == 5 && |b| == 5
    requires multiset(Values(a)) == multiset(Values(b)) && (Flush(a) <==> Flush(b))
    ensures ScoreFive(a) == ScoreFive(b)
  {
    DescendingUnique(SortedRanks(a), SortedRanks(b));
    FlushIsSuitsAgree(a);
    FlushIsSuitsAgree(b);
  }

  /** `score_five_cards` looks at the hand, not at the order of its cards. */
  lemma ScoreFivePermutation(a: seq<Card>, b: seq<Card>)
    requires |a| == 5 && multiset(a) == multiset(b)
    ensures |b| == 5 && ScoreFive(a) == ScoreFive(b)
  {
    assert |a| == |multiset(a)| == |multiset(b)| == |b|;
    ValuesPermute(a, b);
    assert forall c :: c in a <==> c in b by {
      forall c
        ensures c in a <==> c in b
      {
        assert c in a <==> c in multiset(a);
      }
    }
    assert (set c | c in a :: c.suit) == (set c | c in b :: c.suit);
    FlushIsSuitsAgree(a);
    FlushIsSuitsAgree(b);
    ScoreFiveOfRanksAndFlush(a, b);
  }
}
