/** The table of poker/poker.py:116-162: players, dealing from a shuffled deck,
    evaluating every player's seven cards and finding the winners. */
module Game {
  import opened Wrappers
  import opened Seqs
  import opened Cards
  import opened Scoring
  import opened Selector

  /** A seat: its name, its hole cards and, once evaluated, its best hand. */
  class Player {
    const name: string
    var hole: seq<Card>
    var best: Option<EvaluatedHand>

    /** `Player(name)`: no cards and no evaluation yet. */
    constructor (name: string)
      ensures this.name == name && hole == [] && best == None
    {
      this.name := name;
      hole := [];
      best := None;
    }
  }

  /** `f"P{i + 1}"` for the seat numbers the game allows. */
  function SeatName(i: nat): string
    requires i < 9
  {
    ['P', ('1' as int + i) as char]
  }

  /** The message of the `ValueError` a game of the wrong size raises. */
  const SizeError: string := "This demo supports 2–6 players only."

  /** Position in the shuffled deck of the card player `i` of `n` gets in
      round `r` of the hole-card deal: the deck is popped from its end. */
  function HoleIndex(n: nat, i: nat, r: nat): nat
    requires 2 <= n <= 6 && i < n && r < 2
  {
    51 - r * n - i
  }

  /** The two hole cards of player `i` after a deal from `shuffled`. */
  function HoleCards(shuffled: seq<Card>, n: nat, i: nat): seq<Card>
    requires |shuffled| == 52 && 2 <= n <= 6 && i < n
  {
    [shuffled[HoleIndex(n, i, 0)], shuffled[HoleIndex(n, i, 1)]]
  }

  /** Positions of the flop, turn and river: after the `2 * n` hole cards come
      a burn, three cards, a burn, one card, a burn and one card. */
  function BoardIndex(n: nat, j: nat): nat
    requires 2 <= n <= 6 && j < 5
  {
    if j < 3 then 50 - 2 * n - j else if j == 3 then 46 - 2 * n else 44 - 2 * n
  }

  /** The five community cards after a deal from `shuffled`. */
  function BoardCards(shuffled: seq<Card>, n: nat): seq<Card>
    requires |shuffled| == 52 && 2 <= n <= 6
  {
    seq(5, j requires 0 <= j < 5 => shuffled[BoardIndex(n, j)])
  }

  /** Positions of the three burnt cards. */
  function BurnIndex(n: nat, j: nat): nat
    requires 2 <= n <= 6 && j < 3
  {
    if j == 0 then 51 - 2 * n else if j == 1 then 47 - 2 * n else 45 - 2 * n
  }

  /** A shuffled deck holds every card once. */
  lemma ShuffledIsDistinct(shuffled: seq<Card>)
    requires multiset(shuffled) == multiset(CreateDeck())
    ensures |shuffled| == 52 && AllDistinct(shuffled)
  {
    DeckIsComplete();
    assert |shuffled| == |multiset(shuffled)| == |multiset(CreateDeck())| == 52;
    assert forall c :: Count(shuffled, c) == Count(CreateDeck(), c);
    DistinctIffCountsOne(CreateDeck());
    DistinctIffCountsOne(shuffled);
  }

  /** Every card taken off the deck in a deal is somebody's hole card, a board
      card or a burnt card; the deal leaves `44 - 2 * n` cards. */
  lemma DealAccountsForEveryCard(n: nat, k: nat)
    requires 2 <= n <= 6 && 44 - 2 * n <= k < 52
    ensures || (exists i, r :: 0 <= i < n && 0 <= r < 2 && k == HoleIndex(n, i, r))
            || (exists j :: 0 <= j < 5 && k == BoardIndex(n, j))
            || (exists j :: 0 <= j < 3 && k == BurnIndex(n, j))
  {
    if k >= 52 - 2 * n {
      var r := (51 - k) / n;
      var i := (51 - k) % n;
      assert k == HoleIndex(n, i, r);
    } else if k == 51 - 2 * n {
      assert k == BurnIndex(n, 0);
    } else if k >= 48 - 2 * n {
      assert k == BoardIndex(n, 50 - 2 * n - k);
    } else if k == 47 - 2 * n {
      assert k == BurnIndex(n, 1);
    } else if k == 46 - 2 * n {
      assert k == BoardIndex(n, 3);
    } else if k == 45 - 2 * n {
      assert k == BurnIndex(n, 2);
    } else {
      assert k == BoardIndex(n, 4);
    }
  }

  /** No card is dealt twice: the hole cards of all players are pairwise
      different, and none of them is on the board or left in the deck. */
  lemma HoleCardsUnique(shuffled: seq<Card>, n: nat, i: nat, r: nat, i': nat, r': nat)
    requires multiset(shuffled) == multiset(CreateDeck()) && 2 <= n <= 6
    requires i < n && r < 2 && i' < n && r' < 2
    ensures |shuffled| == 52
    ensures (i, r) != (i', r') ==> HoleCards(shuffled, n, i)[r] != HoleCards(shuffled, n, i')[r']
    ensures HoleCards(shuffled, n, i)[r] !in BoardCards(shuffled, n)
    ensures HoleCards(shuffled, n, i)[r] !in shuffled[..44 - 2 * n]
  {
    ShuffledIsDistinct(shuffled);
    if (i, r) != (i', r') {
      assert HoleIndex(n, i, r) != HoleIndex(n, i', r') by {
        if r == r' {
        } else if r < r' {
          assert HoleIndex(n, i, r) > 51 - n >= HoleIndex(n, i', r');
        } else {
          assert HoleIndex(n, i', r') > 51 - n >= HoleIndex(n, i, r);
        }
      }
    }
    var h := HoleIndex(n, i, r);
    assert h >= 52 - 2 * n;
    forall j | 0 <= j < 5
      ensures BoardCards(shuffled, n)[j] != shuffled[h]
    {
      assert BoardIndex(n, j) < h;
    }
    assert forall k :: 0 <= k < 44 - 2 * n ==> shuffled[k] != shuffled[h];
  }

  /** The positions a deal takes off the deck are pairwise different: no two
      hole positions, board positions or burn positions coincide, and no position
      is of two kinds. With `DealAccountsForEveryCard` they partition the
      positions `44 - 2 * n` to 51. */
  lemma DealPositionsDisjoint(n: nat)
    requires 2 <= n <= 6
    ensures forall i, r, i', r' :: 0 <= i < n && 0 <= r < 2 && 0 <= i' < n && 0 <= r' < 2 && (i, r) != (i', r') ==>
      HoleIndex(n, i, r) != HoleIndex(n, i', r')
    ensures forall j, j' :: 0 <= j < j' < 5 ==> BoardIndex(n, j) != BoardIndex(n, j')
    ensures forall j, j' :: 0 <= j < j' < 3 ==> BurnIndex(n, j) != BurnIndex(n, j')
    ensures forall i, r, j :: 0 <= i < n && 0 <= r < 2 && 0 <= j < 5 ==> HoleIndex(n, i, r) != BoardIndex(n, j)
    ensures forall i, r, j :: 0 <= i < n && 0 <= r < 2 && 0 <= j < 3 ==> HoleIndex(n, i, r) != BurnIndex(n, j)
    ensures forall j, j' :: 0 <= j < 5 && 0 <= j' < 3 ==> BoardIndex(n, j) != BurnIndex(n, j')
    ensures forall i, r :: 0 <= i < n && 0 <= r < 2 ==> 52 - 2 * n <= HoleIndex(n, i, r) < 52
    ensures forall j :: 0 <= j < 5 ==> 44 - 2 * n <= BoardIndex(n, j) < 52 - 2 * n
    ensures forall j :: 0 <= j < 3 ==> 44 - 2 * n <= BurnIndex(n, j) < 52 - 2 * n
  {
    forall i, r | 0 <= i < n && 0 <= r < 2
      ensures 52 - 2 * n <= HoleIndex(n, i, r) < 52
      ensures r == 0 ==> HoleIndex(n, i, r) > 51 - n
      ensures r == 1 ==> HoleIndex(n, i, r) <= 51 - n
    {
      if r == 1 {
        assert HoleIndex(n, i, r) == 51 - n - i;
      }
    }
  }

  /** No board card is dealt twice or left in the deck. */
  lemma BoardCardsUnique(shuffled: seq<Card>, n: nat, j: nat)
    requires multiset(shuffled) == multiset(CreateDeck()) && 2 <= n <= 6 && j < 5
    ensures |shuffled| == 52
    ensures forall j' :: 0 <= j' < 5 && j' != j ==> BoardCards(shuffled, n)[j'] != BoardCards(shuffled, n)[j]
    ensures BoardCards(shuffled, n)[j] !in shuffled[..44 - 2 * n]
  {
    ShuffledIsDistinct(shuffled);
    hide CreateDeck;
    var b := BoardIndex(n, j);
    assert b >= 44 - 2 * n;
    forall j' | 0 <= j' < 5 && j' != j
      ensures BoardCards(shuffled, n)[j'] != shuffled[b]
    {
      assert BoardIndex(n, j') != b;
    }
    assert forall k :: 0 <= k < 44 - 2 * n ==> shuffled[k] != shuffled[b];
  }

  /** Position in the shuffled deck of the `a`-th of the seven cards player
      `i` chooses from: two hole cards, then the five board cards. */
  function SevenIndex(n: nat, i: nat, a: nat): nat
    requires 2 <= n <= 6 && i < n && a < 7
  {
    if a < 2 then HoleIndex(n, i, a) else BoardIndex(n, a - 2)
  }

  /** The seven positions are pairwise different: they strictly decrease. */
  lemma SevenIndexDecreasing(n: nat, i: nat, a: nat, b: nat)
    requires 2 <= n <= 6 && i < n && a < b < 7
    ensures SevenIndex(n, i, a) > SevenIndex(n, i, b)
  {
  }

  /** The seven cards a player's hand is chosen from are seven different cards. */
  lemma SevenCardsDistinct(shuffled: seq<Card>, n: nat, i: nat)
    requires multiset(shuffled) == multiset(CreateDeck()) && 2 <= n <= 6 && i < n
    ensures |shuffled| == 52
    ensures |HoleCards(shuffled, n, i) + BoardCards(shuffled, n)| == 7
    ensures AllDistinct(HoleCards(shuffled, n, i) + BoardCards(shuffled, n))
  {
    ShuffledIsDistinct(shuffled);
    hide CreateDeck;
    var seven := HoleCards(shuffled, n, i) + BoardCards(shuffled, n);
    assert |seven| == 7;
    forall a, b | 0 <= a < b < 7
      ensures seven[a] != seven[b]
    {
      assert seven[a] == shuffled[SevenIndex(n, i, a)];
      assert seven[b] == shuffled[SevenIndex(n, i, b)];
      SevenIndexDecreasing(n, i, a, b);
    }
  }

  /** The table. `players` is never replaced once the game exists, so it is a
      constant; the players' fields, the deck and the board change. */
  class TexasHoldEmGame {
    const players: seq<Player>
    var deck: seq<Card>
    var board: seq<Card>

    /** Two to six seats, each its own object. */
    predicate Valid()
      reads this
    {
      && 2 <= |players| <= 6
      && forall i, j :: 0 <= i < j < |players| ==> players[i] != players[j]
    }

    /** `TexasHoldEmGame(num_players)` for a valid number of players: seats
      named `P1`, `P2`, ..., nobody holding cards, an empty deck and board. */
    constructor (n: nat)
      requires 2 <= n <= 6
      ensures Valid() && |players| == n
      ensures forall i :: 0 <= i < n ==>
        fresh(players[i]) && players[i].name == SeatName(i) && players[i].hole == [] && players[i].best == None
      ensures deck == [] && board == []
    {
      var ps: seq<Player> := [];
      var i := 0;
      while i < n
        invariant 0 <= i <= n && |ps| == i
        invariant forall k :: 0 <= k < i ==>
          fresh(ps[k]) && ps[k].name == SeatName(k) && ps[k].hole == [] && ps[k].best == None
        invariant forall k, l :: 0 <= k < l < i ==> ps[k] != ps[l]
      {
        var p := new Player(SeatName(i));
        ps := ps + [p];
        i := i + 1;
      }
      players := ps;
      deck := [];
      board := [];
    }

    /** `self.deck.pop()`: removes and returns the last card. */
    method Pop() returns (c: Card)
      requires |deck| > 0
      modifies this
      ensures c == old(deck)[|old(deck)| - 1]
      ensures deck == old(deck)[..|old(deck)| - 1] && board == old(board)
    {
      c := deck[|deck| - 1];
      deck := deck[..|deck| - 1];
    }

    /** `_deal_n(n)`: pops `n` cards; the first one returned is the deck's last. */
    method DealN(n: nat) returns (cs: seq<Card>)
      requires n <= |deck|
      modifies this
      ensures |cs| == n
      ensures forall j :: 0 <= j < n ==> cs[j] == old(deck)[|old(deck)| - 1 - j]
      ensures deck == old(deck)[..|old(deck)| - n] && board == old(board)
    {
      cs := [];
      while |cs| < n
        invariant |cs| <= n
        invariant forall j :: 0 <= j < |cs| ==> cs[j] == old(deck)[|old(deck)| - 1 - j]
        invariant deck == old(deck)[..|old(deck)| - |cs|] && board == old(board)
      {
        var c := Pop();
        cs := cs + [c];
      }
    }

    /** The first loop of `shuffle_and_deal`: every player's hole cards are
      cleared and their evaluation forgotten. */
    method ClearHands()
      requires Valid()
      modifies players
      ensures forall k :: 0 <= k < |players| ==> players[k].hole == [] && players[k].best == None
    {
      var i := 0;
      while i < |players|
        invariant 0 <= i <= |players|
        invariant forall k :: 0 <= k < i ==> players[k].hole == [] && players[k].best == None
      {
        players[i].hole := [];
        players[i].best := None;
        i := i + 1;
      }
    }

    /** One round of the hole-card deal, `for p in self.players:
      p.hole.append(self.deck.pop())`: player `k` gets the card `k` places
      below the top of the deck, and those cards leave the deck. */
    method DealRound()
      requires Valid() && |players| <= |deck|
      modifies this, players
      ensures deck == old(deck)[..|old(deck)| - |players|] && board == old(board)
      ensures forall k :: 0 <= k < |players| ==>
        players[k].hole == old(players[k].hole) + [old(deck)[|old(deck)| - 1 - k]]
      ensures forall k :: 0 <= k < |players| ==> players[k].best == old(players[k].best)
    {
      var i := 0;
      while i < |players|
        invariant 0 <= i <= |players|
        invariant deck == old(deck)[..|old(deck)| - i] && board == old(board)
        invariant forall k :: 0 <= k < i ==>
          players[k].hole == old(players[k].hole) + [old(deck)[|old(deck)| - 1 - k]]
        invariant forall k :: i <= k < |players| ==> players[k].hole == old(players[k].hole)
        invariant forall k :: 0 <= k < |players| ==> players[k].best == old(players[k].best)
      {
        var c := Pop();
        players[i].hole := players[i].hole + [c];
        i := i + 1;
      }
    }

    /** The hole-card deal, `for _ in range(2): for p in self.players:
      p.hole.append(self.deck.pop())`, on a full deck and empty hands: each
      player gets the cards at `HoleIndex`. */
    method DealHoleCards()
      requires Valid() && |deck| == 52
      requires forall k :: 0 <= k < |players| ==> players[k].hole == []
      modifies this, players
      ensures deck == old(deck)[..52 - 2 * |players|] && board == old(board)
      ensures forall k :: 0 <= k < |players| ==>
        players[k].hole == HoleCards(old(deck), |players|, k) && players[k].best == old(players[k].best)
    {
      var n := |players|;
      ghost var full := deck;
      var r := 0;
      while r < 2
        invariant 0 <= r <= 2 && deck == full[..52 - r * n] && board == old(board)
        invariant forall k :: 0 <= k < n ==> players[k].best == old(players[k].best)
        invariant forall k :: 0 <= k < n ==>
          players[k].hole == if r == 0 then [] else if r == 1 then [full[HoleIndex(n, k, 0)]] else HoleCards(full, n, k)
      {
        DealRound();
        r := r + 1;
      }
    }

    /** The board part of `shuffle_and_deal`: burn one card and deal the flop,
      burn one and deal the turn, burn one and deal the river. Counted from
      the top of the deck, the board gets the 2nd, 3rd, 4th, 6th and 8th cards. */
    method DealBoard()
      requires |deck| >= 8
      modifies this
      ensures deck == old(deck)[..|old(deck)| - 8]
      ensures board == old(board) + [old(deck)[|old(deck)| - 2], old(deck)[|old(deck)| - 3],
        old(deck)[|old(deck)| - 4], old(deck)[|old(deck)| - 6], old(deck)[|old(deck)| - 8]]
    {
      ghost var d := deck;
      ghost var top := |deck|;
      var burn := Pop();
      var flop := DealN(3);
      assert flop == [d[top - 2], d[top - 3], d[top - 4]];
      assert deck == d[..top - 4];
      board := board + flop;
      burn := Pop();
      assert deck == d[..top - 5];
      var turn := DealN(1);
      assert turn == [d[top - 6]] && deck == d[..top - 6];
      board := board + turn;
      burn := Pop();
      assert deck == d[..top - 7];
      var river := DealN(1);
      assert river == [d[top - 8]];
      board := board + river;
    }

    /** `shuffle_and_deal`, with the outcome of `random.shuffle` given as
      `shuffled`: each player gets the cards at `HoleIndex`, the board the
      cards at `BoardIndex`, evaluations are cleared, and the first
      `44 - 2 * n` cards stay in the deck. */
    method ShuffleAndDeal(shuffled: seq<Card>)
      requires Valid() && multiset(shuffled) == multiset(CreateDeck())
      modifies this, players
      ensures |shuffled| == 52
      ensures forall i :: 0 <= i < |players| ==>
        players[i].hole == HoleCards(shuffled, |players|, i) && players[i].best == None
      ensures board == BoardCards(shuffled, |players|)
      ensures deck == shuffled[..44 - 2 * |players|]
    {
      hide CreateDeck;
      var n := |players|;
      assert |shuffled| == |multiset(shuffled)| == |multiset(CreateDeck())| == 52;
      deck := shuffled;
      ClearHands();
      board := [];
      DealHoleCards();
      DealBoard();
      assert deck == shuffled[..44 - 2 * n];
      assert board == BoardCards(shuffled, n);
    }

    /** `evaluate_players`: each player's best hand becomes what
      `evaluate_7cards` makes of the hole cards followed by the board; only
      the evaluations change. */
    method EvaluatePlayers()
      requires Valid()
      requires forall i :: 0 <= i < |players| ==> |players[i].hole| + |board| >= 5
      modifies players`best
      ensures forall i :: 0 <= i < |players| ==> players[i].best == Some(Evaluation(players[i].hole + board))
    {
      // The loop only passes on what `EvaluateSeven` promises; the body of
      // `Evaluation` plays no part in it.
      hide Evaluation;
      var i := 0;
      while i < |players|
        invariant 0 <= i <= |players|
        invariant forall k :: 0 <= k < i ==> players[k].best == Some(Evaluation(players[k].hole + board))
      {
        var e := EvaluateSeven(players[i].hole + board);
        players[i].best := Some(e);
        i := i + 1;
      }
    }

    /** Every player has been evaluated. */
    predicate Evaluated()
      reads this, players
    {
      forall i :: 0 <= i < |players| ==> players[i].best.Some?
    }

    /** `winners`: the players, in seating order, whose score equals the
      highest score at the table. */
    function Winners(): (ws: seq<Player>)
      reads this, players
      requires Valid() && Evaluated()
      ensures ws != [] && IsSubseq(ws, players)
      ensures forall p :: p in ws ==> p in players
      ensures forall i :: 0 <= i < |players| ==> (players[i] in ws <==>
        forall j :: 0 <= j < |players| ==> !ScoreLess(players[i].best.value.score, players[j].best.value.score))
    {
      var m := MaxScore(players);
      var ws := WithScore(players, m);
      forall i | 0 <= i < |players|
        ensures players[i] in ws <==>
          forall j :: 0 <= j < |players| ==> !ScoreLess(players[i].best.value.score, players[j].best.value.score)
      {
        var s := players[i].best.value.score;
        ScoreLessIsStrictTotal(s, m, s);
      }
      ws
    }
  }

  /** `max(p.best.score for p in players)`. */
  function MaxScore(ps: seq<Player>): (m: Score)
    reads ps
    requires ps != [] && forall i :: 0 <= i < |ps| ==> ps[i].best.Some?
    ensures exists i :: 0 <= i < |ps| && ps[i].best.value.score == m
    ensures forall i :: 0 <= i < |ps| ==> !ScoreLess(m, ps[i].best.value.score)
  {
    var s := ps[0].best.value.score;
    assert ps[0].best.value.score == s;
    ScoreLessIsStrictTotal(s, s, s);
    if |ps| == 1 then s
    else
      var rest := MaxScore(ps[1..]);
      ScoreLessIsStrictTotal(s, rest, s);
      ScoreLessIsStrictTotal(rest, s, rest);
      assert forall i :: 1 <= i < |ps| ==> ps[i] == ps[1..][i - 1];
      if ScoreLess(s, rest) then rest
      else
        NotLessThrough(s, rest);
        s
  }

  /** `[p for p in ps if p.best.score == m]`. */
  function WithScore(ps: seq<Player>, m: Score): (ws: seq<Player>)
    reads ps
    requires forall i :: 0 <= i < |ps| ==> ps[i].best.Some?
    ensures IsSubseq(ws, ps)
    ensures forall k :: 0 <= k < |ws| ==> ws[k] in ps && ws[k].best.value.score == m
    ensures forall i :: 0 <= i < |ps| ==> (ps[i] in ws <==> ps[i].best.value.score == m)
  {
    if ps == [] then []
    else
      var rest := WithScore(ps[1..], m);
      assert forall i :: 1 <= i < |ps| ==> ps[i] == ps[1..][i - 1];
      if ps[0].best.value.score == m then [ps[0]] + rest else rest
  }

  /** `TexasHoldEmGame(num_players)`, raising `ValueError` unless there are two
      to six players. */
  method NewGame(n: int) returns (r: Result<TexasHoldEmGame, string>)
    ensures r.Err? <==> !(2 <= n <= 6)
    ensures r.Err? ==> r.error == SizeError
    ensures r.Ok? ==> fresh(r.value) && r.value.Valid() && |r.value.players| == n
    ensures r.Ok? ==> r.value.deck == [] && r.value.board == []
    ensures r.Ok? ==> forall i :: 0 <= i < n ==>
      fresh(r.value.players[i]) &&
      r.value.players[i].name == SeatName(i) && r.value.players[i].hole == [] && r.value.players[i].best == None
  {
    if 2 <= n <= 6 {
      var g := new TexasHoldEmGame(n);
      r := Ok(g);
    } else {
      r := Err(SizeError);
    }
  }
}
