/** Cards, ranks and the 52-card deck (poker/poker.py:8-23, 47-48). */
module Cards {
  import opened Seqs

  /** The ranks from lowest to highest; a rank's value is its index here. */
  const RankOrder: string := "23456789TJQKA"

  /** A rank is one of the thirteen characters of `RankOrder`. */
  type Rank = c: char | c in RankOrder witness '2'

  /** A suit is the index of its symbol in the four-symbol suit string
      (spades, hearts, diamonds, clubs). */
  type Suit = s: nat | s < 4

  /** An immutable (rank, suit) pair; two cards are equal when both fields are. */
  datatype Card = Card(rank: Rank, suit: Suit)

  /** `s.index(c)`: the position of the first occurrence of `c` in `s`,
      searched from position `from` on. */
  function IndexOf(s: string, c: char, from: nat): (i: nat)
    requires from <= |s| && c in s[from..]
    ensures from <= i < |s| && s[i] == c
    ensures forall k :: from <= k < i ==> s[k] != c
    decreases |s| - from
  {
    if s[from] == c then from
    else
      assert c in s[from + 1..] by {
        var k :| from <= k < |s| && s[k] == c;
        assert s[from + 1..][k - from - 1] == c;
      }
      IndexOf(s, c, from + 1)
  }

  /** A rank is one of the thirteen characters, written out. */
  lemma RankIsListed(r: Rank)
    ensures r == '2' || r == '3' || r == '4' || r == '5' || r == '6' || r == '7' || r == '8'
         || r == '9' || r == 'T' || r == 'J' || r == 'Q' || r == 'K' || r == 'A'
  {
    var k :| 0 <= k < 13 && RankOrder[k] == r;
  }

  /** `card_value`: the rank's position in `RankOrder`, 0 for '2' up to 12 for 'A'. */
  function CardValue(c: Card): (v: nat)
    ensures v < 13 && RankOrder[v] == c.rank
  {
    RankIsListed(c.rank);
    var r := c.rank;
    if r == '2' then 0 else if r == '3' then 1 else if r == '4' then 2 else if r == '5' then 3
    else if r == '6' then 4 else if r == '7' then 5 else if r == '8' then 6 else if r == '9' then 7
    else if r == 'T' then 8 else if r == 'J' then 9 else if r == 'Q' then 10 else if r == 'K' then 11
    else 12
  }

  /** The value is what `RANK_ORDER.index(card.rank)` returns. */
  lemma CardValueIsIndex(c: Card)
    ensures CardValue(c) == IndexOf(RankOrder, c.rank, 0)
  {
    RankOrderDistinct();
  }

  lemma RankOrderDistinct()
    ensures |RankOrder| == 13 && AllDistinct(RankOrder)
  {
  }

  /** The value determines the rank: cards compare equal in value exactly
      when they have the same rank, whatever their suits. */
  lemma CardValueInjective(a: Card, b: Card)
    ensures CardValue(a) == CardValue(b) <==> a.rank == b.rank
  {
    RankOrderDistinct();
  }

  /** `Card.__lt__`: cards are ordered by the position of their ranks in
      `RankOrder` only; suits are ignored, and cards of one rank are never ordered. */
  function Less(a: Card, b: Card): (r: bool)
    ensures r <==> IndexOf(RankOrder, a.rank, 0) < IndexOf(RankOrder, b.rank, 0)
    ensures r ==> a.rank != b.rank
  {
    CardValueIsIndex(a);
    CardValueIsIndex(b);
    CardValue(a) < CardValue(b)
  }

  /** A card's value is the position of its rank in `RankOrder`. */
  lemma ValueOfRank(c: Card, k: nat)
    requires k < 13 && RankOrder[k] == c.rank
    ensures CardValue(c) == k
  {
    RankOrderDistinct();
  }

  /** `Less` is a strict order that looks only at the ranks: irreflexive,
      transitive, and two cards of the same rank are never ordered. */
  lemma LessIsRankOrder(a: Card, b: Card, c: Card)
    ensures !Less(a, a)
    ensures Less(a, b) && Less(b, c) ==> Less(a, c)
    ensures a.rank == b.rank ==> !Less(a, b) && !Less(b, a)
    ensures a.rank != b.rank ==> Less(a, b) || Less(b, a)
  {
    CardValueInjective(a, b);
  }

  /** Two of spades is below the ace of spades. */
  lemma TwoBelowAce()
    ensures Less(Card('2', 0), Card('A', 0))
    ensures !Less(Card('A', 0), Card('2', 0))
  {
    assert CardValue(Card('2', 0)) == 0;
    assert RankOrder[12] == 'A';
    RankOrderDistinct();
    assert CardValue(Card('A', 0)) == 12;
  }

  /** `create_deck`: `[Card(r, s) for r in RANK_ORDER for s in SUITS]`, rank-major. */
  function CreateDeck(): (deck: seq<Card>)
    ensures |deck| == 52
    ensures forall i :: 0 <= i < 52 ==> CardValue(deck[i]) == i / 4 && deck[i].suit == i % 4
  {
    seq(52, i requires 0 <= i < 52 => Card(RankOrder[i / 4], i % 4))
  }

  /** The deck holds 52 pairwise distinct cards, each rank-suit pair exactly once,
      and it is in non-decreasing rank order. */
  lemma {:induction false} DeckIsComplete()
    ensures AllDistinct(CreateDeck())
    ensures forall c: Card :: c in CreateDeck()
    ensures forall c: Card :: Count(CreateDeck(), c) == 1
    ensures forall i, j :: 0 <= i < j < 52 ==> !Less(CreateDeck()[j], CreateDeck()[i])
  {
    var deck := CreateDeck();
    forall i, j | 0 <= i < j < 52
      ensures deck[i] != deck[j]
    {
      assert i / 4 != j / 4 || i % 4 != j % 4;
    }
    forall c: Card
      ensures c in deck && Count(deck, c) == 1
    {
      var k := 4 * CardValue(c) + c.suit;
      assert k / 4 == CardValue(c) && k % 4 == c.suit;
      CardValueInjective(deck[k], c);
      assert deck[k] == c;
      OnlyOccurrence(deck, k);
    }
  }
}
