/** The five-card scorer (poker/poker.py:25-44, 75-114): a hand's score is a
    category 1..9 followed by tie-break rank values, and scores are compared
    the way Python compares `(int, list)` tuples. */
module Scoring {
  import opened Seqs
  import opened Cards
  import opened Ranks

  /** `(category, tiebreakers)` as returned by `score_five_cards`. */
  datatype Score = Score(category: int, tiebreakers: seq<int>)

  /** `HAND_RANKS`: the name of each category. */
  const HandRanks: map<int, string> := map[
    9 := "Straight Flush",
    8 := "Four of a Kind",
    7 := "Full House",
    6 := "Flush",
    5 := "Straight",
    4 := "Three of a Kind",
    3 := "Two Pair",
    2 := "One Pair",
    1 := "High Card"
  ]

  /** `HAND_RANKS` names exactly the categories 1 to 9, each by a different name. */
  lemma HandRanksNames()
    ensures forall c :: c in HandRanks <==> 1 <= c <= 9
    ensures forall a, b :: a in HandRanks && b in HandRanks && HandRanks[a] == HandRanks[b] ==> a == b
  {
  }

  /** Python's `<` on lists of ints: the first differing entry decides, and a
      proper prefix is smaller. */
  predicate ListLess(a: seq<int>, b: seq<int>)
  {
    if a == [] then b != []
    else if b == [] then false
    else if a[0] != b[0] then a[0] < b[0]
    else ListLess(a[1..], b[1..])
  }

  /** Python's `<` on `(category, tiebreakers)` tuples. */
  predicate ScoreLess(a: Score, b: Score)
  {
    a.category < b.category || (a.category == b.category && ListLess(a.tiebreakers, b.tiebreakers))
  }

  /** List comparison is a strict total order: never `a < a`, transitive, and
      of two different lists one is smaller. */
  lemma {:induction false} ListLessIsStrictTotal(a: seq<int>, b: seq<int>, c: seq<int>)
    ensures !ListLess(a, a)
    ensures ListLess(a, b) && ListLess(b, c) ==> ListLess(a, c)
    ensures a != b ==> ListLess(a, b) || ListLess(b, a)
    ensures ListLess(a, b) ==> !ListLess(b, a)
  {
    if a != [] && b != [] && c != [] {
      ListLessIsStrictTotal(a[1..], b[1..], c[1..]);
      if a[0] == b[0] && a[1..] == b[1..] {
        assert a == [a[0]] + a[1..] && b == [b[0]] + b[1..];
      }
    } else if a != [] && b != [] {
      ListLessIsStrictTotal(a[1..], b[1..], a[1..]);
      if a[0] == b[0] && a[1..] == b[1..] {
        assert a == [a[0]] + a[1..] && b == [b[0]] + b[1..];
      }
    } else if a != [] {
      ListLessIsStrictTotal(a[1..], a[1..], a[1..]);
    }
  }

  /** Score comparison is a strict total order as well, so a maximum exists
      and equal scores are the only ties. */
  lemma ScoreLessIsStrictTotal(a: Score, b: Score, c: Score)
    ensures !ScoreLess(a, a)
    ensures ScoreLess(a, b) && ScoreLess(b, c) ==> ScoreLess(a, c)
    ensures a != b ==> ScoreLess(a, b) || ScoreLess(b, a)
    ensures ScoreLess(a, b) ==> !ScoreLess(b, a)
  {
    ListLessIsStrictTotal(a.tiebreakers, b.tiebreakers, c.tiebreakers);
  }

  /** A score no lower than `b` is no lower than anything `b` is no lower than. */
  lemma NotLessThrough(a: Score, b: Score)
    requires !ScoreLess(a, b)
    ensures forall c :: !ScoreLess(b, c) ==> !ScoreLess(a, c)
  {
    forall c | !ScoreLess(b, c)
      ensures !ScoreLess(a, c)
    {
      ScoreLessIsStrictTotal(a, c, b);
      ScoreLessIsStrictTotal(b, c, a);
    }
  }

  /** `[card_value(c) for c in cards]` */
  function Values(cards: seq<Card>): seq<int>
  {
    seq(|cards|, i requires 0 <= i < |cards| => CardValue(cards[i]) as int)
  }

  /** Values of a card put in front. */
  lemma ValuesCons(c: Card, cs: seq<Card>)
    ensures Values([c] + cs) == [CardValue(c) as int] + Values(cs)
  {
  }

  /** Values of all cards but the first. */
  lemma ValuesTail(cs: seq<Card>)
    requires cs != []
    ensures Values(cs[1..]) == Values(cs)[1..]
    ensures Values(cs)[0] == CardValue(cs[0]) as int
  {
  }

  /** `ranks = sorted((card_value(c) for c in cards), reverse=True)` */
  function SortedRanks(cards: seq<Card>): (ranks: seq<int>)
    ensures |ranks| == |cards| && Descending(ranks) && InRange(ranks)
    ensures multiset(ranks) == multiset(Values(cards))
  {
    var ranks := SortDesc(Values(cards));
    ValuesInRange(cards);
    SameElementsInRange(Values(cards), ranks);
    ranks
  }

  /** Card values are rank values. */
  lemma ValuesInRange(cards: seq<Card>)
    ensures InRange(Values(cards))
  {
  }

  /** A rearrangement of rank values holds rank values. */
  lemma SameElementsInRange(vals: seq<int>, r: seq<int>)
    requires InRange(vals) && multiset(r) == multiset(vals)
    ensures InRange(r)
  {
    forall i | 0 <= i < |r|
      ensures 0 <= r[i] < 13
    {
      assert r[i] in multiset(vals);
    }
  }

  /** `flush = len(set(c.suit for c in cards)) == 1`: there are cards, and
      any two of them have the same suit. */
  function SuitsAgree(cards: seq<Card>): (r: bool)
    ensures r <==> cards != [] && forall i, j :: 0 <= i < j < |cards| ==> cards[i].suit == cards[j].suit
  {
    var suits := set c | c in cards :: c.suit;
    assert |suits| == 1 <==> cards != [] && forall i, j :: 0 <= i < j < |cards| ==> cards[i].suit == cards[j].suit by {
      if cards == [] {
        assert suits == {};
      } else if forall i, j :: 0 <= i < j < |cards| ==> cards[i].suit == cards[j].suit {
        OneSuit(cards);
      } else {
        var i, j :| 0 <= i < j < |cards| && cards[i].suit != cards[j].suit;
        TwoSuits(cards, i, j);
      }
    }
    |suits| == 1
  }

  /** Cards that agree pairwise on the suit show one suit. */
  lemma OneSuit(cards: seq<Card>)
    requires cards != [] && forall i, j :: 0 <= i < j < |cards| ==> cards[i].suit == cards[j].suit
    ensures (set c | c in cards :: c.suit) == {cards[0].suit}
  {
    assert cards[0] in cards;
    forall c | c in cards
      ensures c.suit == cards[0].suit
    {
      var i :| 0 <= i < |cards| && cards[i] == c;
    }
  }

  /** Two cards of different suits show at least two suits. */
  lemma TwoSuits(cards: seq<Card>, i: nat, j: nat)
    requires i < |cards| && j < |cards| && cards[i].suit != cards[j].suit
    ensures |set c | c in cards :: c.suit| >= 2
  {
    var suits := set c | c in cards :: c.suit;
    assert cards[i] in cards && cards[j] in cards;
    assert cards[i].suit in suits;
    assert |suits - {cards[i].suit}| >= 1 by {
      assert cards[j].suit in suits - {cards[i].suit};
    }
  }

  /** `score_five_cards`: its category is always one of the nine named ones. */
  function ScoreFive(cards: seq<Card>): (sc: Score)
    requires |cards| == 5
    ensures 1 <= sc.category <= 9
  {
    ScoreRanks(SortedRanks(cards), SuitsAgree(cards))
  }

  /** The classification chain of `score_five_cards` on the descending `ranks`,
      given the flush test. `Counter(ranks)` is filled in the order of `ranks`,
      so `most_common(1)` and `next(...)` both give the first rank of `ranks`
      with the wanted count (`FirstWithCount`); the straight test sees only
      `sorted(set(ranks))`, because `is_straight(...) or ...` stops at its
      left operand, a non-empty (hence true) tuple. */
  function ScoreRanks(ranks: seq<int>, flush: bool): (sc: Score)
    requires |ranks| == 5 && Descending(ranks) && InRange(ranks)
    ensures 1 <= sc.category <= 9
  {
    ShapeFacts(ranks, 2);
    var counts := Shape(ranks);
    ShapeHeads(counts);
    ShapeFacts(ranks, counts[0]);
    var unique := UniqueAsc(ranks);
    assert ranks[0] in unique;
    var (straight, highSt) := IsStraight(unique);
    if straight && flush then
      Score(9, [highSt])
    else if counts[0] == 4 then
      Score(8, QuadsTiebreak(ranks))
    else if counts[0] == 3 && counts[1] == 2 then
      Score(7, [FirstWithCount(ranks, ranks, counts[0]), FirstWithCount(ranks, ranks, 2)])
    else if flush then
      Score(6, ranks)
    else if straight then
      Score(5, [highSt])
    else if counts[0] == 3 then
      Score(4, GroupTiebreak(ranks, counts[0]))
    else if counts[0] == 2 && counts[1] == 2 then
      TwoPairsCounted(ranks);
      Score(3, TwoPairTiebreak(ranks))
    else if counts[0] == 2 then
      Score(2, GroupTiebreak(ranks, counts[0]))
    else
      Score(1, ranks)
  }

  /** Four of a kind: `[four_rank, max(r for r in ranks if r != four_rank)]`,
      the rank occurring four times and then the one other rank. */
  function QuadsTiebreak(ranks: seq<int>): (tb: seq<int>)
    requires |ranks| == 5 && exists x :: x in ranks && Count(ranks, x) == 4
    ensures |tb| == 2 && Count(ranks, tb[0]) == 4 && Count(ranks, tb[1]) == 1
  {
    var four := FirstWithCount(ranks, ranks, 4);
    var rest := Without(ranks, four);
    var kicker := SeqMax(rest);
    assert kicker in multiset(rest);
    CountInSingleton(rest, kicker);
    assert multiset(rest)[kicker] == multiset(ranks)[kicker];
    [four, kicker]
  }

  /** Three of a kind and one pair: the rank occurring `k` times, then
      `sorted([r for r in ranks if r != rank], reverse=True)`, that is every
      other rank in descending order. */
  function GroupTiebreak(ranks: seq<int>, k: int): (tb: seq<int>)
    requires exists x :: x in ranks && Count(ranks, x) == k
    ensures |tb| == |ranks| - k + 1
    ensures Count(ranks, tb[0]) == k
    ensures Descending(tb[1..])
    ensures multiset(tb[1..]) == multiset(ranks)[tb[0] := 0]
  {
    var rank := FirstWithCount(ranks, ranks, k);
    var others := SortDesc(Without(ranks, rank));
    assert ([rank] + others)[1..] == others;
    [rank] + others
  }

  /** Two pair: the two ranks with count 2, higher first (unpacked from
      `sorted(pairs, reverse=True)`), then the kicker, which occurs once.
      Since `pairs` comes out of the counter of the descending `ranks`, it is
      already in descending order and the sort leaves it as it is. */
  function TwoPairTiebreak(ranks: seq<int>): (tb: seq<int>)
    requires |ranks| == 5 && Descending(ranks)
    requires |WithCount(ranks, CounterKeys(ranks), 2)| == 2
    ensures |tb| == 3
    ensures tb[0] == WithCount(ranks, CounterKeys(ranks), 2)[0] && tb[1] == WithCount(ranks, CounterKeys(ranks), 2)[1]
    ensures tb[0] > tb[1]
    ensures Count(ranks, tb[0]) == 2 && Count(ranks, tb[1]) == 2 && Count(ranks, tb[2]) == 1
  {
    var found := WithCount(ranks, CounterKeys(ranks), 2);
    TwoPairsFound(ranks);
    var pairs := SortDesc(found);
    assert pairs == found;
    var highPair, lowPair := pairs[0], pairs[1];
    assert highPair > lowPair;
    var tb := [highPair, lowPair, Kicker(ranks, highPair, lowPair)];
    tb
  }

  /** `next(r for r in ranks if r != high_pair and r != low_pair)`: a rank of
      the hand other than both pairs, which occurs once. */
  function Kicker(ranks: seq<int>, highPair: int, lowPair: int): (k: int)
    requires |ranks| == 5
    requires Count(ranks, highPair) == 2 && Count(ranks, lowPair) == 2
    ensures k in ranks && k != highPair && k != lowPair
    ensures highPair != lowPair ==> Count(ranks, k) == 1
  {
    var rest := Without(ranks, highPair);
    assert multiset(rest)[lowPair] <= multiset(ranks)[lowPair];
    var last := Without(rest, lowPair);
    var kicker := last[0];
    assert kicker in multiset(last);
    assert multiset(last)[kicker] == multiset(ranks)[kicker];
    assert highPair != lowPair ==> Count(ranks, kicker) == 1 by {
      if highPair != lowPair {
        CountInSingleton(last, kicker);
      }
    }
    kicker
  }
}
