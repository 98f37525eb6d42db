# Texas Hold 'Em engine: a Dafny model

This project models the engine of `poker/poker.py`, a small Texas Hold 'Em
program. It covers four parts.

- **Cards.** The card type, its rank order (`Card.__lt__`) and `create_deck`.
- **Five-card scorer.** `card_value`, `is_straight` and `score_five_cards`,
  together with the `HAND_RANKS` names. A score is a `(category, tiebreakers)`
  tuple and scores are compared as Python compares tuples.
- **Best of seven.** `evaluate_7cards` scans the 21 five-card combinations in
  `itertools.combinations` order. It keeps the first hand with the highest score.
- **The table.** `Player` and `TexasHoldEmGame`: construction, the
  `ValueError` for a bad player count, `shuffle_and_deal`, `_deal_n`,
  `evaluate_players` and `winners`.

Pure code (the scorer, the straight test, the deck, the tuple order) is
written as functions, with lemmas about them. Code that changes state step by
step is written as imperative Dafny:
- `evaluate_7cards` is a method with a loop (`Selector.ScanHands`,
  `Selector.EvaluateSeven`), proved against the function `Selector.Evaluation`;
- the table is the classes `Game.Player` and `Game.TexasHoldEmGame`, whose
  methods pop cards off the `deck` field and append them to the players'
  `hole` fields and to `board`.

`random.shuffle` is not modelled. `ShuffleAndDeal` takes the shuffled deck as
a parameter, and its precondition says only that the deck is a permutation of
`create_deck()`.

Modules, in dependency order:

| module | file | contents |
|---|---|---|
| `Wrappers` | wrappers.dfy | `Option` and `Result` |
| `Seqs` | seqs.dfy | sequence helpers: `sorted(..., reverse=True)`, `max`, filters, counts |
| `Cards` | cards.dfy | `RANK_ORDER`, `Card`, `card_value`, `__lt__`, `create_deck` |
| `Ranks` | ranks.dfy | `sorted(set(...))`, `Counter` counts, `is_straight` |
| `Scoring` | scoring.dfy | `HAND_RANKS`, tuple order, `score_five_cards` |
| `Classification` | classification.dfy | what each branch of the scorer means in poker terms |
| `SampleHands` | samples.dfy | the hands used in the project's tests, and the wheel |
| `Selector` | selector.dfy | `itertools.combinations`, `evaluate_7cards` |
| `Game` | game.dfy | `Player`, `TexasHoldEmGame` |

### How the code behaves, as opposed to how it reads

**The ace-low straight is never detected.** The code clearly means to score
A-2-3-4-5 (the "wheel") as a five-high straight: see the `wheel` list and the
early return at poker/poker.py:52-54, and `ace_low_ranks` at
poker/poker.py:84. As written, however, it cannot.
- `is_straight` returns a tuple, and a non-empty tuple is true.
- So `is_straight(unique_ranks) or is_straight(ace_low_ranks)` at
  poker/poker.py:85 always yields its left operand.
- `unique_ranks` is ascending. Its first entry would have to be 12 (the ace)
  while lying below the other four, so the wheel test at poker/poker.py:53 can
  never match it.

The model follows the code. `SampleHands.WheelIsHighCard` proves that A-2-3-4-5
in mixed suits scores `(1, [12, 3, 2, 1, 0])`, a high-card hand led by the ace.

**`Counter` keeps the order in which ranks first appear.** `Counter(ranks)`
at poker/poker.py:78 is filled from the descending `ranks`, so its keys come
highest first (`Ranks.CounterKeys`, `Ranks.CounterKeysDescending`). So the
`pairs` list at poker/poker.py:106 is already higher first before it is
sorted. `most_common(1)` and `next(...)` pick the first rank of `ranks` with
the wanted count (`Ranks.FirstWithCount`, `Ranks.FirstKeyWithCount`).

**A deal uses 16 cards for four players, not 13.** The deck-size test
(pokergame/test_game_engine.py:14) expects `52 - 13` cards to remain after
dealing to four players. The code also burns three cards (poker/poker.py:144,
147, 150), so `44 - 2n` remain: 36 for four players. The model follows the code
(`Game.TexasHoldEmGame.ShuffleAndDeal`, `Game.DealAccountsForEveryCard`).

## Model

| member | source | states |
|---|---|---|
| Cards.CardValue | poker/poker.py:47-48 | the value of a card is the position of its rank in `RANK_ORDER`, below 13 |
| Cards.IndexOf | poker/poker.py:48 | `str.index`: the first position at which the character occurs |
| Cards.CardValueIsIndex | poker/poker.py:47-48 | `card_value` is `RANK_ORDER.index(rank)` |
| Cards.CardValueInjective | poker/poker.py:47-48 | two cards have the same value exactly when they have the same rank, whatever their suits |
| Cards.RankOrderDistinct | poker/poker.py:8 | `RANK_ORDER` has 13 different characters |
| Cards.ValueOfRank | poker/poker.py:47-48 | the rank at position `k` of `RANK_ORDER` has value `k` |
| Cards.Less | poker/poker.py:18-19 | `__lt__` holds exactly when `RANK_ORDER.index` of the first card's rank is below that of the second's, and never for two cards of one rank |
| Cards.LessIsRankOrder | poker/poker.py:18-19 | `__lt__` is irreflexive and transitive, compares only ranks, and orders any two different ranks |
| Cards.TwoBelowAce | poker-project/pokergame/test_cards.py:8-10 | the two of spades is below the ace of spades, and not the other way round |
| Cards.CreateDeck | poker/poker.py:22-23 | 52 cards, rank-major: card `i` has value `i / 4` and suit `i % 4` |
| Cards.DeckIsComplete | poker-project/pokergame/test_cards.py:12-17 | the deck holds 52 different cards, every rank and suit pair exactly once, in non-decreasing rank order |
| Seqs.SortDesc | poker/poker.py:77 | `sorted(..., reverse=True)`: the same elements in non-increasing order |
| Seqs.DescendingUnique | poker/poker.py:77 | two non-increasing lists with the same elements are equal, so a sorted list depends only on the multiset of its elements |
| Seqs.Without | poker/poker.py:103 | the filter `[r for r in ranks if r != x]` removes every `x`, keeps everything else, and keeps the order (the result is a subsequence) |
| Seqs.SeqMax | poker/poker.py:91 | `max` returns an element that no element exceeds |
| Ranks.UniqueAsc | poker/poker.py:83 | `sorted(set(ranks))`: strictly ascending, with exactly the values of `ranks` |
| Ranks.CountsOf | poker/poker.py:78-79 | the `Counter` read at each distinct value gives that value's number of occurrences |
| Ranks.CounterKeys | poker/poker.py:78 | the keys of `Counter(ranks)` in the order a dict keeps them: each value of `ranks` once, and nothing else |
| Ranks.CounterKeysDescending | poker/poker.py:77-78 | the counter of the descending `ranks` has its keys in strictly decreasing order |
| Ranks.WithCount | poker/poker.py:106 | the ranks found with count `k` are exactly the distinct ranks occurring `k` times, one entry for each |
| Ranks.WithCountDescending | poker/poker.py:106 | filtering strictly decreasing keys by count leaves them strictly decreasing |
| Ranks.WithCountDistinct | poker/poker.py:106 | filtering keys without repetitions finds each rank once |
| Ranks.FirstWithCount | poker/poker.py:90-95 | the pick of `most_common(1)` and `next(...)`: an entry with the wanted count, and no entry before its first occurrence has that count |
| Ranks.FirstKeyWithCount | poker/poker.py:95 | `next(...)` over the counter's items, in dict order, picks the same rank as a scan of `ranks` itself |
| Ranks.CountsSum | poker/poker.py:78-79 | the counts of the distinct values add up to the number of cards |
| Ranks.CountsOfHas | poker/poker.py:78-79 | `k` is among the counts exactly when some value occurs `k` times |
| Ranks.ShapeCases | poker/poker.py:79 | non-increasing positive counts adding up to five form one of seven shapes (5, 4-1, 3-2, 3-1-1, 2-2-1, 2-1-1-1, 1-1-1-1-1) |
| Ranks.ShapeFacts | poker/poker.py:78-79 | the counts of five ranks: one of the seven shapes, one count for each distinct rank, `k` present exactly when some rank occurs `k` times, and `k` present once for each rank occurring `k` times |
| Ranks.ShapeOfCounterValues | poker/poker.py:78-79 | `counts = sorted(rank_counter.values(), reverse=True)`: the model's `Shape` reads the counts in ascending key order, and this is the same sorted list as reading them in the counter's own key order |
| Ranks.ShapeHeads | poker/poker.py:89-110 | each test of the chain on `counts[0]` and `counts[1]` picks out exactly one shape |
| Ranks.TwoPairsCounted | poker/poker.py:105-107 | when the counts start 2, 2, the counter holds exactly two ranks with count 2, so the unpacking at line 107 cannot fail |
| Ranks.TwoPairsFound | poker/poker.py:106-107 | the two pairs come out of the counter higher first, each occurring twice, so `sorted(pairs, reverse=True)` leaves them as they are |
| Ranks.FindWindow | poker/poker.py:56-60 | the window loop returns the top of the first window of five entries counting up by one, and `(False, -1)` when no window does |
| Ranks.IsStraight | poker/poker.py:51-60 | a straight exactly when the ace-low test or some window matches; the top is 3 after the ace-low test, the top of a matching window otherwise, and -1 without a straight |
| Ranks.StraightOnAscending | poker/poker.py:51-60 | on a strictly ascending list of one to five ranks, `is_straight` reports a straight exactly when there are five ranks spanning four, and then gives the top one; the wheel test never matches such a list |
| Scoring.ListLessIsStrictTotal | poker/poker.py:69 | Python's `<` on lists of ints is irreflexive, transitive, asymmetric and total on different lists |
| Scoring.ScoreLessIsStrictTotal | poker/poker.py:69 | `<` on score tuples is a strict total order, so a maximum exists and only equal scores tie |
| Scoring.NotLessThrough | poker/poker.py:161 | a score no lower than `b` is no lower than anything `b` is no lower than |
| Scoring.HandRanksNames | poker/poker.py:25-35 | `HAND_RANKS` names exactly the categories 1 to 9, each by a different name |
| Scoring.SuitsAgree | poker/poker.py:80-81 | the flush test holds exactly when there are cards and any two of them have the same suit |
| Scoring.SortedRanks | poker/poker.py:77 | the card values, one per card, non-increasing, each a rank value, with the same multiset as the cards' values |
| Scoring.ScoreFive | poker/poker.py:75-114 | `score_five_cards` always gives one of the nine categories named in `HAND_RANKS` |
| Scoring.ScoreRanks | poker/poker.py:83-114 | the classification chain on the sorted ranks and the flush test gives a category from 1 to 9 |
| Scoring.QuadsTiebreak | poker/poker.py:89-92 | four of a kind: the rank occurring four times, then the rank occurring once |
| Scoring.GroupTiebreak | poker/poker.py:101-104 | three of a kind (and one pair, lines 110-113): the rank occurring `k` times, then every other rank in descending order, one entry per card |
| Scoring.TwoPairTiebreak | poker/poker.py:105-109 | two pair: the pairs in the counter's order, which is higher first, each occurring twice, then the rank occurring once |
| Scoring.Kicker | poker/poker.py:108 | a rank of the hand other than both pairs; with two different pairs it is the rank occurring once |
| Classification.StraightOfRanks | poker/poker.py:83-85 | the straight test, as the scorer runs it, finds a straight exactly on five different ranks spanning four, and reports the top rank |
| Classification.UniqueEnds | poker/poker.py:77-83 | the smallest distinct rank is the last of the descending ranks and the largest is the first |
| Classification.StraightFlushCase | poker/poker.py:87-88 | a straight that is also a flush scores `(9, [top rank])` |
| Classification.FourOfAKindCase | poker/poker.py:89-92 | counts 4-1 give category 8 with the quad rank and the kicker, whatever the suits |
| Classification.FullHouseCase | poker/poker.py:93-96 | counts 3-2 give category 7 with the triple's rank, then the pair's, whatever the suits |
| Classification.FlushCase | poker/poker.py:97-98 | a flush that is not a straight, four of a kind or a full house scores its ranks from high to low |
| Classification.StraightCase | poker/poker.py:99-100 | a straight that is not a flush scores `(5, [top rank])` |
| Classification.ThreeOfAKindCase | poker/poker.py:101-104 | counts 3-1-1 without a flush: the triple's rank, then the two others from high to low |
| Classification.TwoPairScoreCase | poker/poker.py:105-109 | counts 2-2-1 without a flush: higher pair, lower pair, kicker |
| Classification.OnePairCase | poker/poker.py:110-113 | counts 2-1-1-1 without a flush: the pair's rank, then the three others from high to low |
| Classification.HighCardCase | poker/poker.py:114 | all-different ranks with no flush and no straight score `(1, ranks)`, high to low |
| Classification.ScoreRanksCases | poker/poker.py:87-114 | the chain follows the table of categories, in order of precedence, for every input |
| Classification.RankCount | poker/poker.py:78 | the number of cards of a rank is at most the number of cards |
| Classification.RanksCount | poker/poker.py:77-78 | the sorted ranks count each rank as the cards do |
| Classification.FlushIsSuitsAgree | poker/poker.py:80-81 | `len(set(suits)) == 1` holds exactly when every card has the suit of the first |
| Classification.OfAKindIsInShape | poker/poker.py:79 | some rank occurs `k` times exactly when `k` is among the counts |
| Classification.TwoPairsIsShape | poker/poker.py:105 | two different ranks each occurring twice is exactly the counts 2-2-1 |
| Classification.DistinctValuesIsShape | poker/poker.py:79 | five different ranks is exactly the counts 1-1-1-1-1 |
| Classification.StraightIsStraightRanks | poker/poker.py:83-85 | five different ranks spanning at most four is what the scorer takes for a straight |
| Classification.FlushHasDistinctValues | poker/poker.py:80-81 | different cards of one suit have different ranks |
| Classification.DistinctCardsNotOneRank | poker/poker.py:79 | five different cards never share one rank, since there are four suits |
| Classification.ShapeMembership | poker/poker.py:89-114 | once five of a kind is ruled out, which counts are present tells the shapes apart |
| Classification.CategoryByShape | poker/poker.py:87-114 | for hands without five of a kind, whose flushes have five different ranks, the category follows from the count shape, the straight and the flush |
| Classification.ScoreFiveCategory | poker/poker.py:75-114 | for five different cards, in both directions: category 9 is a straight flush, 8 four of a kind, 7 a full house, 6 a flush but no straight, 5 a straight but no flush, 4 three of a kind but no pair, 3 two pairs, 2 one pair only, 1 five ranks with no flush and no straight |
| Classification.ScoreFiveTiebreakers | poker/poker.py:87-114 | the tie-breakers in each category: the top rank of a straight; all ranks, high to low, for a flush or high card; otherwise the grouped ranks by group size, then the single ranks from high to low |
| Classification.ScoreFiveFullHouse | poker/poker.py:93-96 | a full house breaks ties by its triple's rank, then its pair's |
| Classification.ClassifiedTiebreakers | poker/poker.py:87-114 | the tie-breakers of the table, read against the unsorted card values |
| Classification.TiebreakersAreRanks | poker/poker.py:87-114 | every tie-breaker is one of the hand's ranks |
| Classification.TiebreakLengths | poker/poker.py:87-114 | the number of tie-breakers in each category: 1, 2, 3, 4 or 5 |
| Classification.ScoreFiveBounds | poker/poker.py:75-114 | every score has a category named in `HAND_RANKS`, rank values as tie-breakers, and as many of them as its category calls for |
| Classification.ValuesPermute | poker/poker.py:77 | reordering the cards reorders their values |
| Classification.ValuesSubmultiset | poker/poker.py:77 | cards taken from a hand have values taken from its values |
| Classification.ScoreFiveOfRanksAndFlush | poker/poker.py:77-81 | the score depends only on the multiset of ranks and on whether the suits agree: different hands that agree on both tie |
| Classification.ScoreFivePermutation | poker/poker.py:75-114 | the score does not depend on the order of the five cards |
| SampleHands.QuadsScore | poker-project/pokergame/test_hand_eval.py:16 | four aces and the king of spades, in any order, score `(8, [12, 11])` |
| SampleHands.FullHouseScore | poker-project/pokergame/test_hand_eval.py:17 | three kings and two queens, in any order, score `(7, [11, 10])` |
| SampleHands.QuadsBeatFullHouse | poker-project/pokergame/test_hand_eval.py:15-18 | the four of a kind scores strictly higher than the full house |
| SampleHands.StraightFlushScore | poker-project/pokergame/test_hand_eval.py:20-23 | nine to king of hearts, in any order, score `(9, [11])`, a straight flush |
| SampleHands.WheelIsHighCard | poker/poker.py:51-85 | A-2-3-4-5 in mixed suits, in any order, scores only `(1, [12, 3, 2, 1, 0])`: the ace is never low |
| SampleHands.ChosenCategory | poker-project/pokergame/test_hand_eval.py:26-31 | no five of the seven test cards score more than a full house |
| SampleHands.ChosenFullHouse | poker-project/pokergame/test_hand_eval.py:26-31 | a full house among the seven test cards is aces full of kings |
| SampleHands.FirstFiveFullHouse | poker-project/pokergame/test_hand_eval.py:26-31 | the first five of the seven test cards form a full house |
| SampleHands.FullHouseName | poker/poker.py:28 | category 7 is named "Full House" |
| SampleHands.BestOfSevenIsFullHouse | poker-project/pokergame/test_hand_eval.py:25-33 | `evaluate_7cards` on the seven test cards finds aces full of kings, and its category is "Full House" |
| Selector.Combinations | poker/poker.py:67 | `itertools.combinations(cards, k)` yields C(n, k) combinations |
| Selector.CombinationsSound | poker/poker.py:67 | each combination has `k` elements, taken from the cards in order |
| Selector.CombinationsComplete | poker/poker.py:67 | every choice of the cards, kept in order, is among the combinations |
| Selector.ChoosePositive | poker/poker.py:67 | with at least five cards there is a combination, so `best_hand` is set |
| Selector.InsertCard | poker/poker.py:72 | inserting a card into cards sorted by rank: on the ranks this is the descending insert, and no card is lost or added |
| Selector.SortCards | poker/poker.py:72 | `sorted(best_hand, reverse=True)` by `__lt__`: the same cards, with their ranks sorted from high to low |
| Selector.BestFrom | poker/poker.py:67-71 | the hand the scan keeps after `n` combinations is one of them |
| Selector.NewFirstBest | poker/poker.py:69-71 | a strictly higher score becomes the first best of the longer prefix |
| Selector.KeepFirstBest | poker/poker.py:69 | a score that is not strictly higher leaves the first best unchanged |
| Selector.BestFromIsFirstBest | poker/poker.py:67-71 | the scan keeps the first highest score: nothing scores higher, and every hand before it scores strictly lower |
| Selector.ScanHands | poker/poker.py:64-71 | the loop ends holding the score and the hand of the first best combination |
| Selector.EvaluateSeven | poker/poker.py:63-72 | `evaluate_7cards` returns what the specification function `Evaluation` describes |
| Selector.EvaluationIsBest | poker/poker.py:63-72 | the kept hand scores at least as high as any five of the cards |
| Selector.FirstBestBeats | poker/poker.py:67-71 | the first best combination scores at least as high as any choice of five of the cards |
| Selector.EvaluationFromCards | poker/poker.py:63-72 | the kept hand is five of the given cards, ranked from high to low, and the score belongs to it |
| Selector.EvaluatedHand.Category | poker/poker.py:42-44 | the name of the score's category, which no other category shares |
| Selector.SortedPermutation | poker/poker.py:72 | sorting the five cards keeps their score |
| Game.Player.constructor | poker/poker.py:116-120 | a new player has its name, no hole cards and no evaluation |
| Game.TexasHoldEmGame.constructor | poker/poker.py:124-129 | `n` different players named `P1` to `Pn`, with no cards or evaluations, and an empty deck and board |
| Game.NewGame | poker/poker.py:124-129 | raises the `ValueError` with its message exactly when `n` is not between 2 and 6; otherwise the constructor's state |
| Game.TexasHoldEmGame.Pop | poker/poker.py:144 | `deck.pop()` returns the last card and removes it |
| Game.TexasHoldEmGame.DealN | poker/poker.py:153-154 | `_deal_n(n)` returns the last `n` cards, last first, and removes them from the deck |
| Game.TexasHoldEmGame.ClearHands | poker/poker.py:135-137 | every player's hole cards and evaluation are cleared |
| Game.TexasHoldEmGame.DealRound | poker/poker.py:141-142 | one round of the hole-card deal: player `k` gets the card `k` places below the top of the deck |
| Game.TexasHoldEmGame.DealHoleCards | poker/poker.py:140-142 | two rounds: each player gets the cards at `HoleIndex`, and `2n` cards leave the deck |
| Game.TexasHoldEmGame.DealBoard | poker/poker.py:144-151 | burn, flop of three, burn, turn, burn, river: the board gets the 2nd, 3rd, 4th, 6th and 8th cards from the top, and 8 cards leave the deck |
| Game.TexasHoldEmGame.ShuffleAndDeal | poker/poker.py:131-151 | on any shuffled deck: hole cards at `HoleIndex`, board at `BoardIndex`, evaluations cleared, and the first `44 - 2n` cards left in the deck |
| Game.ShuffledIsDistinct | poker/poker.py:132-133 | a shuffled deck has 52 different cards |
| Game.DealAccountsForEveryCard | poker/poker.py:140-151 | every card taken off the deck is a hole card, a board card or a burnt card |
| Game.DealPositionsDisjoint | poker/poker.py:140-151 | the hole, board and burn positions are pairwise different: holes lie in the top `2n` positions, the board and burns in the eight below, so with `DealAccountsForEveryCard` they partition the dealt positions |
| Game.HoleCardsUnique | pokergame/test_game_engine.py:16-20 | no two hole cards are the same card, and none is on the board or left in the deck |
| Game.BoardCardsUnique | poker/poker.py:144-151 | the five board cards are pairwise different, and none is left in the deck |
| Game.SevenIndexDecreasing | poker/poker.py:158 | the seven cards a player chooses from lie at strictly decreasing positions of the deck |
| Game.SevenCardsDistinct | poker/poker.py:158 | each player chooses from seven different cards |
| Game.TexasHoldEmGame.EvaluatePlayers | poker/poker.py:156-158 | each player's evaluation becomes `evaluate_7cards` of the hole cards followed by the board |
| Game.MaxScore | poker/poker.py:161 | `max` of the scores is one of them, and no score exceeds it |
| Game.WithScore | poker/poker.py:162 | the players with the given score, in seating order, and only those |
| Game.TexasHoldEmGame.Winners | poker/poker.py:160-162 | the winners are not empty, are in seating order, and are exactly the players that no other player outscores |

## Left out

- Printing is not modelled: `main`, `print_cards`, `Card.__str__` and the suit symbols (poker/poker.py:9, 15-16, 165-222). A suit is its index 0 to 3 in `SUITS`.
- `random.shuffle` (poker/poker.py:133) is not modelled. `Game.TexasHoldEmGame.ShuffleAndDeal` takes its outcome as a parameter, and any permutation of the deck is allowed.
- The seeded-winner tests (pokergame/test_full_round.py, poker-project/pokergame/test_full_round.py) depend on CPython's random number generator. They are not modelled, and neither is the command-line test (poker-project/pokergame/test_cli_integration.py).
- Selector.SortCards: the definition keeps cards of equal rank in their original order, as Python's stable `sorted` does. The contract states only the multiset of cards and the order of their ranks, not this stability.
- Game.TexasHoldEmGame.EvaluatePlayers: the model requires at least five cards per player. With fewer, `evaluate_7cards` calls `sorted(None)` and raises `TypeError`; that error is not modelled.
- Game.TexasHoldEmGame.Winners: the model requires every player to have been evaluated. Otherwise the source raises `AttributeError` on `None`; that error is not modelled.
- Game.Player: `hole` is a sequence that the methods reassign, and so are `TexasHoldEmGame.deck` and `TexasHoldEmGame.board`. Python updates these lists in place (`list.clear`, `append`, `extend`, `pop`), and that in-place update of a list some other code might share is not modelled, because the game never shares these lists.
- Game.TexasHoldEmGame.constructor: `players` is a constant, because the source never reassigns it after construction.
