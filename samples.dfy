/** Concrete hands (poker-project/pokergame/test_hand_eval.py), scored through
    the characterisation of `score_five_cards`, in whatever order the five
    cards come. Suits are numbered in the order of `SUITS`: spades 0, hearts 1,
    diamonds 2, clubs 3. */
module SampleHands {
  import opened Seqs
  import opened Cards
  import opened Scoring
  import opened Classification
  import opened Selector

  /** A♠ A♥ A♦ A♣ K♠ */
  const Quads: seq<Card> := [Card('A', 0), Card('A', 1), Card('A', 2), Card('A', 3), Card('K', 0)]

  /** K♠ K♥ K♦ Q♠ Q♥ */
  const FullHouse: seq<Card> := [Card('K', 0), Card('K', 1), Card('K', 2), Card('Q', 0), Card('Q', 1)]

  /** 9♥ T♥ J♥ Q♥ K♥ */
  const NineToKingHearts: seq<Card> := [Card('9', 1), Card('T', 1), Card('J', 1), Card('Q', 1), Card('K', 1)]

  /** A♠ 2♥ 3♦ 4♣ 5♠: the wheel, in mixed suits. */
  const Wheel: seq<Card> := [Card('A', 0), Card('2', 1), Card('3', 2), Card('4', 3), Card('5', 0)]

  /** A♠ A♥ A♦ K♣ K♠ 2♣ 3♦: hole cards and board of the best-of-seven example. */
  const AcesOverKings: seq<Card> :=
    [Card('A', 0), Card('A', 1), Card('A', 2), Card('K', 3), Card('K', 0), Card('2', 3), Card('3', 2)]

  /** `hand` is some ordering of the cards of `sample`, which are all different. */
  lemma SameHand(hand: seq<Card>, sample: seq<Card>)
    requires AllDistinct(sample) && multiset(hand) == multiset(sample)
    ensures |hand| == |sample| && AllDistinct(hand)
    ensures forall c :: c in hand <==> c in sample
    ensures multiset(Values(hand)) == multiset(Values(sample))
  {
    assert |hand| == |multiset(hand)| == |multiset(sample)| == |sample|;
    DistinctIffCountsOne(sample);
    assert forall c :: Count(hand, c) == Count(sample, c);
    DistinctIffCountsOne(hand);
    forall c
      ensures c in hand <==> c in sample
    {
      assert c in hand <==> c in multiset(hand);
      assert c in sample <==> c in multiset(sample);
    }
    ValuesPermute(hand, sample);
  }

  /** The values of five cards, one by one. */
  lemma ValuesOfFive(a: Card, b: Card, c: Card, d: Card, e: Card)
    ensures Values([a, b, c, d, e])
         == [CardValue(a) as int, CardValue(b) as int, CardValue(c) as int, CardValue(d) as int, CardValue(e) as int]
  {
  }

  /** Five cards, pairwise different, make a hand without repetitions. */
  lemma FiveDistinct(a: Card, b: Card, c: Card, d: Card, e: Card)
    requires a != b && a != c && a != d && a != e && b != c && b != d && b != e
    requires c != d && c != e && d != e
    ensures AllDistinct([a, b, c, d, e])
  {
  }

  lemma QuadsValues()
    ensures multiset(Values(Quads)) == multiset{12, 12, 12, 12, 11}
  {
    ValuesOfFive(Card('A', 0), Card('A', 1), Card('A', 2), Card('A', 3), Card('K', 0));
    ValueOfRank(Card('A', 0), 12);
    ValueOfRank(Card('A', 1), 12);
    ValueOfRank(Card('A', 2), 12);
    ValueOfRank(Card('A', 3), 12);
    ValueOfRank(Card('K', 0), 11);
    assert Values(Quads) == [12, 12, 12, 12, 11];
  }

  lemma FullHouseValues()
    ensures multiset(Values(FullHouse)) == multiset{11, 11, 11, 10, 10}
  {
    ValuesOfFive(Card('K', 0), Card('K', 1), Card('K', 2), Card('Q', 0), Card('Q', 1));
    ValueOfRank(Card('K', 0), 11);
    ValueOfRank(Card('K', 1), 11);
    ValueOfRank(Card('K', 2), 11);
    ValueOfRank(Card('Q', 0), 10);
    ValueOfRank(Card('Q', 1), 10);
    assert Values(FullHouse) == [11, 11, 11, 10, 10];
  }

  lemma NineToKingValues()
    ensures multiset(Values(NineToKingHearts)) == multiset{7, 8, 9, 10, 11}
  {
    ValuesOfFive(Card('9', 1), Card('T', 1), Card('J', 1), Card('Q', 1), Card('K', 1));
    ValueOfRank(Card('9', 1), 7);
    ValueOfRank(Card('T', 1), 8);
    ValueOfRank(Card('J', 1), 9);
    ValueOfRank(Card('Q', 1), 10);
    ValueOfRank(Card('K', 1), 11);
    assert Values(NineToKingHearts) == [7, 8, 9, 10, 11];
  }

  lemma WheelValues()
    ensures multiset(Values(Wheel)) == multiset{12, 0, 1, 2, 3}
  {
    ValuesOfFive(Card('A', 0), Card('2', 1), Card('3', 2), Card('4', 3), Card('5', 0));
    ValueOfRank(Card('A', 0), 12);
    ValueOfRank(Card('2', 1), 0);
    ValueOfRank(Card('3', 2), 1);
    ValueOfRank(Card('4', 3), 2);
    ValueOfRank(Card('5', 0), 3);
    assert Values(Wheel) == [12, 0, 1, 2, 3];
  }

  // Each sample is scored in three small steps: what the hand is made of, its
  // category by `ScoreFiveCategory`, its tie-breakers by `ScoreFiveTiebreakers`.

  lemma QuadsCategory(hand: seq<Card>)
    requires |hand| == 5 && AllDistinct(hand)
    requires multiset(Values(hand)) == multiset{12, 12, 12, 12, 11}
    ensures ScoreFive(hand).category == 8
  {
    assert RankCount(hand, 12) == 4;
    ScoreFiveCategory(hand);
  }

  lemma QuadsTiebreakers(hand: seq<Card>)
    requires |hand| == 5 && ScoreFive(hand).category == 8
    requires multiset(Values(hand)) == multiset{12, 12, 12, 12, 11}
    ensures ScoreFive(hand).tiebreakers == [12, 11]
  {
    hide ScoreFive;
    ScoreFiveTiebreakers(hand);
    PinByCounts(ScoreFive(hand).tiebreakers, multiset(Values(hand)), 12, 4, 11, 1);
  }

  /** A♠ A♥ A♦ A♣ K♠, in any order, scores four aces with a king kicker. */
  lemma QuadsScore(hand: seq<Card>)
    requires multiset(hand) == multiset(Quads)
    ensures |hand| == 5 && ScoreFive(hand) == Score(8, [12, 11])
  {
    QuadsValues();
    FiveDistinct(Card('A', 0), Card('A', 1), Card('A', 2), Card('A', 3), Card('K', 0));
    SameHand(hand, Quads);
    QuadsCategory(hand);
    QuadsTiebreakers(hand);
  }

  lemma FullHouseCategory(hand: seq<Card>)
    requires |hand| == 5 && AllDistinct(hand)
    requires multiset(Values(hand)) == multiset{11, 11, 11, 10, 10}
    ensures ScoreFive(hand).category == 7
  {
    assert RankCount(hand, 11) == 3 && RankCount(hand, 10) == 2;
    ScoreFiveCategory(hand);
  }

  lemma FullHouseTiebreakers(hand: seq<Card>)
    requires |hand| == 5 && ScoreFive(hand).category == 7
    requires multiset(Values(hand)) == multiset{11, 11, 11, 10, 10}
    ensures ScoreFive(hand).tiebreakers == [11, 10]
  {
    hide ScoreFive;
    ScoreFiveTiebreakers(hand);
    PinByCounts(ScoreFive(hand).tiebreakers, multiset(Values(hand)), 11, 3, 10, 2);
  }

  /** K♠ K♥ K♦ Q♠ Q♥, in any order, scores kings full of queens. */
  lemma FullHouseScore(hand: seq<Card>)
    requires multiset(hand) == multiset(FullHouse)
    ensures |hand| == 5 && ScoreFive(hand) == Score(7, [11, 10])
  {
    FullHouseValues();
    FiveDistinct(Card('K', 0), Card('K', 1), Card('K', 2), Card('Q', 0), Card('Q', 1));
    SameHand(hand, FullHouse);
    FullHouseCategory(hand);
    FullHouseTiebreakers(hand);
  }

  /** Two tie-breakers fixed by how often each occurs among the values. */
  lemma PinByCounts(tb: seq<int>, m: multiset<int>, a: int, na: nat, b: int, nb: nat)
    requires na != nb && a != b && na >= 1 && nb >= 1 && |tb| == 2
    requires forall x :: x != a && x != b ==> m[x] == 0
    requires m[a] == na && m[b] == nb && m[tb[0]] == na && m[tb[1]] == nb
    ensures tb == [a, b]
  {
    assert tb[0] == a && tb[1] == b;
  }

  /** Four of a kind beats a full house. */
  lemma QuadsBeatFullHouse(quads: seq<Card>, full: seq<Card>)
    requires multiset(quads) == multiset(Quads) && multiset(full) == multiset(FullHouse)
    ensures |quads| == 5 && |full| == 5
    ensures ScoreLess(ScoreFive(full), ScoreFive(quads))
  {
    QuadsScore(quads);
    FullHouseScore(full);
  }

  lemma NineToKingIsFlush(hand: seq<Card>)
    requires |hand| == 5 && forall c :: c in hand ==> c in NineToKingHearts
    ensures Flush(hand)
  {
    assert forall i :: 0 <= i < 5 ==> hand[i] in hand;
  }

  lemma NineToKingIsStraight(hand: seq<Card>)
    requires multiset(Values(hand)) == multiset{7, 8, 9, 10, 11}
    ensures Straight(hand)
  {
    DistinctIffCountsOne(Values(hand));
    forall v | v in Values(hand)
      ensures 7 <= v <= 11
    {
      assert v in multiset(Values(hand));
    }
  }

  lemma NineToKingCategory(hand: seq<Card>)
    requires |hand| == 5 && AllDistinct(hand)
    requires forall c :: c in hand ==> c in NineToKingHearts
    requires multiset(Values(hand)) == multiset{7, 8, 9, 10, 11}
    ensures ScoreFive(hand).category == 9
  {
    NineToKingIsFlush(hand);
    NineToKingIsStraight(hand);
    ScoreFiveCategory(hand);
  }

  lemma NineToKingTop(hand: seq<Card>)
    requires multiset(Values(hand)) == multiset{7, 8, 9, 10, 11}
    ensures 11 in Values(hand) && forall v :: v in Values(hand) ==> v <= 11
  {
    assert 11 in multiset(Values(hand));
    forall v | v in Values(hand)
      ensures v <= 11
    {
      assert v in multiset(Values(hand));
    }
  }

  lemma NineToKingTiebreakers(hand: seq<Card>)
    requires |hand| == 5 && ScoreFive(hand).category == 9
    requires multiset(Values(hand)) == multiset{7, 8, 9, 10, 11}
    ensures ScoreFive(hand).tiebreakers == [11]
  {
    hide ScoreFive;
    NineToKingTop(hand);
    ScoreFiveTiebreakers(hand);
  }

  /** Five hearts from nine to king, in any order, are a straight flush topped
      by the king. */
  lemma StraightFlushScore(hand: seq<Card>)
    requires multiset(hand) == multiset(NineToKingHearts)
    ensures |hand| == 5 && ScoreFive(hand) == Score(9, [11])
  {
    NineToKingValues();
    FiveDistinct(Card('9', 1), Card('T', 1), Card('J', 1), Card('Q', 1), Card('K', 1));
    SameHand(hand, NineToKingHearts);
    NineToKingCategory(hand);
    NineToKingTiebreakers(hand);
  }

  lemma WheelNotFlush(hand: seq<Card>)
    requires Card('A', 0) in hand && Card('2', 1) in hand
    ensures !Flush(hand)
  {
  }

  lemma WheelDistinctValues(hand: seq<Card>)
    requires multiset(Values(hand)) == multiset{12, 0, 1, 2, 3}
    ensures AllDistinct(Values(hand))
  {
    DistinctIffCountsOne(Values(hand));
    forall x
      ensures Count(Values(hand), x) <= 1
    {
    }
  }

  lemma WheelNotStraight(hand: seq<Card>)
    requires multiset(Values(hand)) == multiset{12, 0, 1, 2, 3}
    ensures !Straight(hand)
  {
    assert 12 in multiset(Values(hand)) && 0 in multiset(Values(hand));
    assert 12 in Values(hand) && 0 in Values(hand);
  }

  lemma WheelCategory(hand: seq<Card>)
    requires |hand| == 5 && AllDistinct(hand)
    requires Card('A', 0) in hand && Card('2', 1) in hand
    requires multiset(Values(hand)) == multiset{12, 0, 1, 2, 3}
    ensures ScoreFive(hand).category == 1
  {
    WheelNotFlush(hand);
    WheelNotStraight(hand);
    WheelDistinctValues(hand);
    ScoreFiveCategory(hand);
  }

  lemma WheelTiebreakers(hand: seq<Card>)
    requires |hand| == 5 && ScoreFive(hand).category == 1
    requires multiset(Values(hand)) == multiset{12, 0, 1, 2, 3}
    ensures ScoreFive(hand).tiebreakers == [12, 3, 2, 1, 0]
  {
    ScoreFiveTiebreakers(hand);
    WheelOrder(ScoreFive(hand).tiebreakers);
  }

  lemma WheelRanksDescending()
    ensures Descending([12, 3, 2, 1, 0])
  {
  }

  /** The wheel's ranks, highest first. */
  lemma WheelOrder(tb: seq<int>)
    requires Descending(tb) && multiset(tb) == multiset{12, 0, 1, 2, 3}
    ensures tb == [12, 3, 2, 1, 0]
  {
    var expected := [12, 3, 2, 1, 0];
    WheelRanksDescending();
    assert multiset(expected) == multiset{12, 0, 1, 2, 3};
    DescendingUnique(tb, expected);
  }

  /** The scorer never counts the ace low: A-2-3-4-5 in mixed suits, in any
      order, is only a high card hand, led by the ace. */
  lemma WheelIsHighCard(hand: seq<Card>)
    requires multiset(hand) == multiset(Wheel)
    ensures |hand| == 5 && ScoreFive(hand) == Score(1, [12, 3, 2, 1, 0])
  {
    WheelValues();
    FiveDistinct(Card('A', 0), Card('2', 1), Card('3', 2), Card('4', 3), Card('5', 0));
    SameHand(hand, Wheel);
    assert Card('A', 0) in Wheel && Card('2', 1) in Wheel;
    WheelCategory(hand);
    WheelTiebreakers(hand);
  }

  // The best of seven: every five of A♠ A♥ A♦ K♣ K♠ 2♣ 3♦ score at most a
  // full house, and the first five are one, so the selector keeps aces full
  // of kings.

  /** The values of the seven cards. */
  lemma AcesOverKingsValues()
    ensures Values(AcesOverKings) == [12, 12, 12, 11, 11, 0, 1]
  {
    var cs := AcesOverKings;
    ValueOfRank(cs[0], 12);
    ValueOfRank(cs[1], 12);
    ValueOfRank(cs[2], 12);
    ValueOfRank(cs[3], 11);
    ValueOfRank(cs[4], 11);
    ValueOfRank(cs[5], 0);
    ValueOfRank(cs[6], 1);
  }

  /** Three aces, two kings, a two and a three. */
  lemma SevenValueCounts(v: int)
    ensures Count([12, 12, 12, 11, 11, 0, 1], v) ==
      if v == 12 then 3 else if v == 11 then 2 else if v == 0 || v == 1 then 1 else 0
  {
    assert multiset([12, 12, 12, 11, 11, 0, 1]) == multiset{12, 12, 12, 11, 11, 0, 1};
  }

  /** The seven cards are seven different cards. */
  lemma AcesOverKingsDistinct()
    ensures AllDistinct(AcesOverKings)
  {
  }

  /** No two of the seven cards share a suit with a third. */
  lemma AcesOverKingsSuits(x: Card, y: Card, z: Card)
    requires x in AcesOverKings && y in AcesOverKings && z in AcesOverKings
    requires x != y && y != z && x != z
    ensures x.suit != y.suit || y.suit != z.suit
  {
  }

  /** Cards taken from a hand without repetitions have none either. */
  lemma ChosenDistinct(hand: seq<Card>, from: seq<Card>)
    requires AllDistinct(from) && multiset(hand) <= multiset(from)
    ensures AllDistinct(hand)
  {
    DistinctIffCountsOne(from);
    assert forall c :: Count(hand, c) <= Count(from, c);
    DistinctIffCountsOne(hand);
  }

  /** Five cards taken from the seven: all different, not of one suit, and no
      rank more often than among the seven. */
  lemma ChosenFromAcesOverKings(hand: seq<Card>)
    requires |hand| == 5 && multiset(hand) <= multiset(AcesOverKings)
    ensures AllDistinct(hand) && !Flush(hand)
    ensures forall v :: RankCount(hand, v) <= Count([12, 12, 12, 11, 11, 0, 1], v)
  {
    AcesOverKingsDistinct();
    ChosenDistinct(hand, AcesOverKings);
    if Flush(hand) {
      assert hand[0] in multiset(AcesOverKings);
      assert hand[1] in multiset(AcesOverKings);
      assert hand[2] in multiset(AcesOverKings);
      AcesOverKingsSuits(hand[0], hand[1], hand[2]);
      assert false;
    }
    ValuesSubmultiset(hand, AcesOverKings);
    AcesOverKingsValues();
  }

  /** With at most three aces, two kings and one each of two other ranks, only
      aces can make three of a kind, only aces or kings a pair. */
  lemma ChosenRanks(hand: seq<Card>)
    requires |hand| == 5 && multiset(hand) <= multiset(AcesOverKings)
    ensures !OfAKind(hand, 4)
    ensures forall v :: RankCount(hand, v) >= 3 ==> v == 12
    ensures forall v :: RankCount(hand, v) >= 2 ==> v == 12 || v == 11
  {
    ChosenFromAcesOverKings(hand);
    forall v
      ensures RankCount(hand, v) <= 3
      ensures RankCount(hand, v) >= 3 ==> v == 12
      ensures RankCount(hand, v) >= 2 ==> v == 12 || v == 11
    {
      SevenValueCounts(v);
    }
  }

  /** Five different cards with three of one rank and two of another are a
      full house. */
  lemma TripleAndPair(hand: seq<Card>, a: int, b: int)
    requires |hand| == 5 && AllDistinct(hand)
    requires 0 <= a < 13 && 0 <= b < 13 && RankCount(hand, a) == 3 && RankCount(hand, b) == 2
    ensures ScoreFive(hand).category == 7
  {
    hide ScoreFive;
    ScoreFiveCategory(hand);
  }

  /** The first five of the seven are a full house. */
  lemma FirstFiveFullHouse()
    ensures IsSubseq(AcesOverKings[..5], AcesOverKings)
    ensures ScoreFive(AcesOverKings[..5]).category == 7
  {
    hide ScoreFive;
    var first := AcesOverKings[..5];
    AcesOverKingsValues();
    assert Values(first) == [12, 12, 12, 11, 11];
    assert multiset(Values(first)) == multiset{12, 12, 12, 11, 11};
    AcesOverKingsDistinct();
    assert AllDistinct(first);
    TripleAndPair(first, 12, 11);
    PrefixIsSubseq(AcesOverKings, 5);
  }

  /** Five of the seven cards score at most a full house. */
  lemma ChosenCategory(hand: seq<Card>)
    requires |hand| == 5 && multiset(hand) <= multiset(AcesOverKings)
    ensures ScoreFive(hand).category <= 7
  {
    hide ScoreFive;
    ChosenFromAcesOverKings(hand);
    ChosenRanks(hand);
    ScoreFiveCategory(hand);
  }

  /** A full house among the seven cards is aces full of kings. */
  lemma ChosenFullHouse(hand: seq<Card>)
    requires |hand| == 5 && multiset(hand) <= multiset(AcesOverKings)
    requires ScoreFive(hand).category == 7
    ensures ScoreFive(hand).tiebreakers == [12, 11]
  {
    hide ScoreFive;
    var tb := ScoreFive(hand).tiebreakers;
    ScoreFiveFullHouse(hand);
    var triple, pair := tb[0], tb[1];
    assert RankCount(hand, triple) == 3 && RankCount(hand, pair) == 2;
    ChosenRanks(hand);
    assert triple == 12;
    assert pair == 11;
    assert tb == [triple, pair];
  }

  /** A prefix is a subsequence. */
  lemma {:induction false} PrefixIsSubseq<T>(s: seq<T>, n: nat)
    requires n <= |s|
    ensures IsSubseq(s[..n], s)
  {
    if n > 0 {
      PrefixIsSubseq(s[1..], n - 1);
      assert s[..n][1..] == s[1..][..n - 1];
    }
  }

  /** Category 7 is named "Full House". */
  lemma FullHouseName()
    ensures 7 in HandRanks && HandRanks[7] == "Full House"
  {
  }

  /** A♠ A♥ A♦ K♣ K♠ 2♣ 3♦: `evaluate_7cards` finds aces full of kings. */
  lemma BestOfSevenIsFullHouse()
    ensures Evaluation(AcesOverKings).score == Score(7, [12, 11])
    ensures Evaluation(AcesOverKings).Category() == "Full House"
  {
    // Only what the selector's lemmas state is used, not its definition.
    hide Evaluation, ScoreFive;
    var e := Evaluation(AcesOverKings);
    EvaluationFromCards(AcesOverKings);
    FirstFiveFullHouse();
    EvaluationIsBest(AcesOverKings, AcesOverKings[..5]);
    assert e.score.category >= 7;
    ChosenCategory(e.bestFive);
    ChosenFullHouse(e.bestFive);
    assert e.score == Score(7, [12, 11]);
    FullHouseName();
  }
}
