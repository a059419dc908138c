/**
 * The round engine of the Thirty-One simulator.
 *
 * The engine owns the players, a stockpile (a stack; its top is the LAST
 * element of `stockpile`), a discard pile (a queue; its head, the OLDEST
 * discard, is the FIRST element of `discardPile`) and the round flags.
 * The shuffled deck, the coin that picks the draw pile and the draw that
 * decides a knock are inputs; the value of a hand is the function
 * `handValue` the engine is built with.
 */
module Game {
  import opened Cards
  import opened DiscardPolicy
  import opened Players
  import opened Piles
  import opened Scoring

  const MinPlayers: nat := 2
  const MaxPlayers: nat := 16
  const DeckSize: nat := 52
  const HandSize: nat := 3
  /** Lowest hand value at which a player may knock. */
  const KnockThreshold: int := 25

  /** Decimal digits of `n`, as `Integer.toString` writes them. */
  function NatToString(n: nat): string
    decreases n
  {
    if n < 10 then ["0123456789"[n]] else NatToString(n / 10) + ["0123456789"[n % 10]]
  }

  /**
   * The hand player `i` is dealt from a stockpile holding `deck` (top is
   * last): three cards popped one after the other, after the 3 * i cards
   * popped for the players before it.
   */
  function DealtHand(deck: seq<Card>, i: nat): (h: seq<Card>)
    requires HandSize * i + HandSize <= |deck|
    ensures |h| == HandSize
  {
    var t := |deck| - HandSize * i;
    [deck[t - 1], deck[t - 2], deck[t - 3]]
  }

  /** The hands of the first `n` players. */
  function Deals(deck: seq<Card>, n: nat): (hs: seq<seq<Card>>)
    requires HandSize * n <= |deck|
    ensures |hs| == n
  {
    if n == 0 then [] else Deals(deck, n - 1) + [DealtHand(deck, n - 1)]
  }

  /** Entry `i` of the deals is the hand dealt to player `i`. */
  lemma {:induction false} DealsAreDealtHands(deck: seq<Card>, n: nat)
    requires HandSize * n <= |deck|
    ensures forall i :: 0 <= i < n ==> Deals(deck, n)[i] == DealtHand(deck, i)
  {
    if n > 0 {
      DealsAreDealtHands(deck, n - 1);
    }
  }

  /** The last three cards of `s`, popped from the top, and the cards below them make up `s`. */
  lemma SplitLastThree(s: seq<Card>)
    requires |s| >= 3
    ensures multiset(s[..|s| - 3]) + multiset([s[|s| - 1], s[|s| - 2], s[|s| - 3]]) == multiset(s)
  {
    var u := |s| - 3;
    assert s == s[..u] + [s[u], s[u + 1], s[u + 2]];
  }

  /** Dealing one more hand adds exactly that hand to the dealt cards. */
  lemma DealsStep(deck: seq<Card>, n: nat)
    requires 0 < n && HandSize * n <= |deck|
    ensures AllCards(Deals(deck, n)) == AllCards(Deals(deck, n - 1)) + multiset(DealtHand(deck, n - 1))
  {
    var prev := Deals(deck, n - 1);
    assert (prev + [DealtHand(deck, n - 1)])[..n - 1] == prev;
  }

  /** Dealing one more hand takes exactly that hand off the stockpile. */
  lemma StockStep(deck: seq<Card>, n: nat)
    requires 0 < n && HandSize * n <= |deck|
    ensures multiset(deck[..|deck| - HandSize * (n - 1)])
            == multiset(deck[..|deck| - HandSize * n]) + multiset(DealtHand(deck, n - 1))
  {
    var t := |deck| - HandSize * (n - 1);
    var rest := deck[..t];
    SplitLastThree(rest);
    assert rest[..t - 3] == deck[..|deck| - HandSize * n];
    assert [rest[t - 1], rest[t - 2], rest[t - 3]] == DealtHand(deck, n - 1);
  }

  /**
   * Card bookkeeping: if the piles trade hand `o` for hand `h` while the
   * hands trade `h` for `o`, the table as a whole is unchanged.
   */
  lemma Exchange(piles: multiset<Card>, hands: multiset<Card>, piles0: multiset<Card>, hands0: multiset<Card>,
                 h: multiset<Card>, o: multiset<Card>)
    requires piles + h == piles0 + o && hands + o == hands0 + h
    ensures piles + hands == piles0 + hands0
  {
    forall c: Card
      ensures (piles + hands)[c] == (piles0 + hands0)[c]
    {
      assert (piles + h)[c] == (piles0 + o)[c] && (hands + o)[c] == (hands0 + h)[c];
    }
  }

  /** Before any hand is dealt, the stockpile is the whole deck. */
  lemma NothingDealt(deck: seq<Card>)
    ensures multiset(deck[..|deck| - HandSize * 0]) + AllCards(Deals(deck, 0)) == multiset(deck)
  {
    assert deck[..|deck|] == deck;
  }

  /** Dealing player `n - 1`'s hand moves exactly that hand from the stockpile to the dealt cards. */
  lemma DealOneMore(deck: seq<Card>, n: nat)
    requires 0 < n && HandSize * n <= |deck|
    ensures multiset(deck[..|deck| - HandSize * n]) + AllCards(Deals(deck, n))
            == multiset(deck[..|deck| - HandSize * (n - 1)]) + AllCards(Deals(deck, n - 1))
  {
    DealsStep(deck, n);
    StockStep(deck, n);
    Exchange(multiset(deck[..|deck| - HandSize * n]), AllCards(Deals(deck, n)),
             multiset(deck[..|deck| - HandSize * (n - 1)]), AllCards(Deals(deck, n - 1)),
             multiset(DealtHand(deck, n - 1)), multiset{});
  }

  /**
   * Dealing loses no card: the cards left in the stockpile and the cards
   * dealt make up the whole deck.
   */
  lemma {:induction false} DealConservesCards(deck: seq<Card>, n: nat)
    requires HandSize * n <= |deck|
    ensures multiset(deck[..|deck| - HandSize * n]) + AllCards(Deals(deck, n)) == multiset(deck)
  {
    hide *;
    if n == 0 {
      NothingDealt(deck);
    } else {
      DealConservesCards(deck, n - 1);
      DealOneMore(deck, n);
    }
  }

  /**
   * Right after the deal, the two piles and the dealt hands together are
   * the whole deck.
   */
  lemma DealtRoundHoldsDeck(deck: seq<Card>, n: nat, stock: seq<Card>, discard: seq<Card>, hs: seq<seq<Card>>)
    requires |deck| == DeckSize && HandSize * n <= DeckSize
    requires stock + discard == deck[..DeckSize - HandSize * n]
    requires |hs| == n && forall i :: 0 <= i < n ==> hs[i] == DealtHand(deck, i)
    ensures multiset(stock) + multiset(discard) + AllCards(hs) == multiset(deck)
  {
    DealsAreDealtHands(deck, n);
    assert hs == Deals(deck, n);
    DealConservesCards(deck, n);
    assert multiset(stock + discard) == multiset(stock) + multiset(discard);
  }

  /** A player knocks when its hand is worth at least 25 and the random draw agrees. */
  function ShouldKnock(score: int, lucky: bool): (knock: bool)
    ensures knock ==> score >= KnockThreshold
    ensures score >= KnockThreshold ==> knock == lucky
  {
    score >= KnockThreshold && lucky
  }

  /** The cards on the table: both piles, and every player's hand in player order. */
  datatype Table = Table(stockpile: seq<Card>, discardPile: seq<Card>, hands: seq<seq<Card>>)

  /** The stockpile holds a card to draw, and the piles hold at least two cards between them. */
  predicate Playable(t: Table) {
    t.stockpile != [] && |t.stockpile| + |t.discardPile| >= 2
  }

  /** Player `i` takes a turn on the table; no other hand is touched. */
  ghost function TurnAt(t: Table, i: nat, coin: bool): (r: Table)
    requires i < |t.hands| && Playable(t)
    ensures |r.hands| == |t.hands| && Playable(r)
  {
    var p := Piles(t.stockpile, t.discardPile, t.hands[i]);
    TurnKeepsSizes(p, coin);
    var q := AfterTurn(p, coin);
    Table(q.stockpile, q.discardPile, t.hands[i := q.hand])
  }

  /**
   * The table and the round flags as a round is played. `newKnocker` is
   * the position of a player who knocked since the state was taken.
   */
  datatype RoundState = RoundState(table: Table, inProgress: bool, knocked: bool, newKnocker: Option<nat>)

  /**
   * A move of the first pass: player `i` takes a turn, and the round
   * ends if its hand is then worth 31.
   */
  ghost function FirstMove(s: RoundState, i: nat, coin: bool, value: seq<Card> -> Int32): (r: RoundState)
    requires i < |s.table.hands| && Playable(s.table)
    ensures |r.table.hands| == |s.table.hands| && Playable(r.table)
  {
    var t := TurnAt(s.table, i, coin);
    s.(table := t, inProgress := s.inProgress && value(t.hands[i]) != ThirtyOne)
  }

  /** The first `k` moves of the first pass: players 0 to k - 1, in order. */
  ghost function FirstPassMoves(s: RoundState, coins: seq<bool>, value: seq<Card> -> Int32, k: nat): (r: RoundState)
    requires k <= |s.table.hands| && k <= |coins| && Playable(s.table)
    ensures |r.table.hands| == |s.table.hands| && Playable(r.table)
    decreases k
  {
    if k == 0 then s else FirstMove(FirstPassMoves(s, coins, value, k - 1), k - 1, coins[k - 1], value)
  }

  /**
   * A move of a later pass: nothing once the round is over; a hand worth
   * 31 ends the round; otherwise the player knocks if no one has and it
   * chooses to, and takes a turn if it does not.
   */
  ghost function LaterMove(s: RoundState, i: nat, coin: bool, lucky: bool, value: seq<Card> -> Int32): (r: RoundState)
    requires i < |s.table.hands| && Playable(s.table)
    ensures |r.table.hands| == |s.table.hands| && Playable(r.table)
  {
    var score := value(s.table.hands[i]);
    if !s.inProgress then s
    else if score == ThirtyOne then s.(inProgress := false)
    else if !s.knocked && ShouldKnock(score, lucky) then s.(knocked := true, newKnocker := Some(i))
    else FirstMove(s, i, coin, value)
  }

  /** The first `k` moves of a later pass: players 0 to k - 1, in order. */
  ghost function LaterPassMoves(s: RoundState, coins: seq<bool>, lucky: seq<bool>, value: seq<Card> -> Int32,
                                k: nat): (r: RoundState)
    requires k <= |s.table.hands| && k <= |coins| && k <= |lucky| && Playable(s.table)
    ensures |r.table.hands| == |s.table.hands| && Playable(r.table)
    decreases k
  {
    if k == 0 then s else LaterMove(LaterPassMoves(s, coins, lucky, value, k - 1), k - 1, coins[k - 1], lucky[k - 1], value)
  }

  /**
   * After the first `k` moves of the first pass the round is still in
   * progress exactly when it was before and none of the players who moved
   * holds a hand worth 31.
   */
  lemma {:induction false} FirstPassEnds(s: RoundState, coins: seq<bool>, value: seq<Card> -> Int32, k: nat)
    requires k <= |s.table.hands| && k <= |coins| && Playable(s.table)
    ensures var r := FirstPassMoves(s, coins, value, k);
            r.inProgress <==> s.inProgress && forall j :: 0 <= j < k ==> value(r.table.hands[j]) != ThirtyOne
    decreases k
  {
    hide AfterTurn;
    if k > 0 {
      FirstPassEnds(s, coins, value, k - 1);
      var prev := FirstPassMoves(s, coins, value, k - 1);
      var r := FirstPassMoves(s, coins, value, k);
      assert forall j :: 0 <= j < k - 1 ==> r.table.hands[j] == prev.table.hands[j];
    }
  }

  /**
   * In the first pass a hand changes only at its owner's move: before it,
   * the hand is as it was; after it, the hand is as that move left it.
   */
  lemma {:induction false} FirstPassHands(s: RoundState, coins: seq<bool>, value: seq<Card> -> Int32, k: nat, j: nat)
    requires k <= |s.table.hands| && k <= |coins| && Playable(s.table) && j < |s.table.hands|
    ensures var r := FirstPassMoves(s, coins, value, k);
            if j < k then r.table.hands[j] == FirstPassMoves(s, coins, value, j + 1).table.hands[j]
            else r.table.hands[j] == s.table.hands[j]
    decreases k
  {
    hide AfterTurn;
    if k > 0 && k != j + 1 {
      FirstPassHands(s, coins, value, k - 1, j);
    }
  }

  /**
   * Every player takes exactly one turn in the first pass, in order:
   * player `j` draws and discards from its dealt hand and the piles the
   * players before it left, and keeps the resulting hand to the end of
   * the pass.
   */
  lemma FirstPassEveryoneMovesOnce(s: RoundState, coins: seq<bool>, value: seq<Card> -> Int32, k: nat, j: nat)
    requires k <= |s.table.hands| && k <= |coins| && Playable(s.table) && j < k
    ensures var before := FirstPassMoves(s, coins, value, j);
            FirstPassMoves(s, coins, value, k).table.hands[j]
            == AfterTurn(Piles(before.table.stockpile, before.table.discardPile, s.table.hands[j]), coins[j]).hand
  {
    hide AfterTurn;
    FirstPassHands(s, coins, value, k, j);
    FirstPassHands(s, coins, value, j, j);
  }

  /** All cards on the table: both piles and every hand. */
  ghost function TableCards(t: Table): multiset<Card> {
    multiset(t.stockpile) + multiset(t.discardPile) + AllCards(t.hands)
  }

  /** A turn on the table neither loses nor duplicates a card. */
  lemma TurnAtConservesCards(t: Table, i: nat, coin: bool)
    requires i < |t.hands| && Playable(t)
    ensures TableCards(TurnAt(t, i, coin)) == TableCards(t)
  {
    var p := Piles(t.stockpile, t.discardPile, t.hands[i]);
    var q := AfterTurn(p, coin);
    TurnConservesCards(p, coin);
    AllCardsUpdate(t.hands, i, q.hand);
    Exchange(multiset(q.stockpile) + multiset(q.discardPile), AllCards(t.hands[i := q.hand]),
             multiset(t.stockpile) + multiset(t.discardPile), AllCards(t.hands), multiset(q.hand), multiset(t.hands[i]));
  }

  /** The first pass neither loses nor duplicates a card. */
  lemma {:induction false} FirstPassConservesCards(s: RoundState, coins: seq<bool>, value: seq<Card> -> Int32, k: nat)
    requires k <= |s.table.hands| && k <= |coins| && Playable(s.table)
    ensures TableCards(FirstPassMoves(s, coins, value, k).table) == TableCards(s.table)
    decreases k
  {
    hide AfterTurn;
    hide TurnAt;
    hide TableCards;
    if k > 0 {
      var prev := FirstPassMoves(s, coins, value, k - 1);
      FirstPassConservesCards(s, coins, value, k - 1);
      TurnAtConservesCards(prev.table, k - 1, coins[k - 1]);
      assert FirstPassMoves(s, coins, value, k).table == TurnAt(prev.table, k - 1, coins[k - 1]);
    }
  }

  /** A later pass neither loses nor duplicates a card. */
  lemma {:induction false} LaterPassConservesCards(s: RoundState, coins: seq<bool>, lucky: seq<bool>,
                                                   value: seq<Card> -> Int32, k: nat)
    requires k <= |s.table.hands| && k <= |coins| && k <= |lucky| && Playable(s.table)
    ensures TableCards(LaterPassMoves(s, coins, lucky, value, k).table) == TableCards(s.table)
    decreases k
  {
    hide AfterTurn;
    hide TurnAt;
    hide TableCards;
    if k > 0 {
      var prev := LaterPassMoves(s, coins, lucky, value, k - 1);
      LaterPassConservesCards(s, coins, lucky, value, k - 1);
      if LaterPassMoves(s, coins, lucky, value, k).table != prev.table {
        TurnAtConservesCards(prev.table, k - 1, coins[k - 1]);
        assert LaterPassMoves(s, coins, lucky, value, k).table == TurnAt(prev.table, k - 1, coins[k - 1]);
      }
    }
  }

  /** Once the round is over, the rest of a later pass changes nothing. */
  lemma {:induction false} LaterPassStops(s: RoundState, coins: seq<bool>, lucky: seq<bool>,
                                          value: seq<Card> -> Int32, j: nat, k: nat)
    requires j <= k <= |s.table.hands| && k <= |coins| && k <= |lucky| && Playable(s.table)
    requires !LaterPassMoves(s, coins, lucky, value, j).inProgress
    ensures LaterPassMoves(s, coins, lucky, value, k) == LaterPassMoves(s, coins, lucky, value, j)
    decreases k
  {
    hide AfterTurn;
    if k > j {
      LaterPassStops(s, coins, lucky, value, j, k - 1);
    }
  }

  /** The moves before player `j`'s leave its hand as it was. */
  lemma {:induction false} LaterPassLeavesLaterHands(s: RoundState, coins: seq<bool>, lucky: seq<bool>,
                                                     value: seq<Card> -> Int32, k: nat, j: nat)
    requires k <= j < |s.table.hands| && k <= |coins| && k <= |lucky| && Playable(s.table)
    ensures LaterPassMoves(s, coins, lucky, value, k).table.hands[j] == s.table.hands[j]
    decreases k
  {
    hide AfterTurn;
    if k > 0 {
      LaterPassLeavesLaterHands(s, coins, lucky, value, k - 1, j);
    }
  }

  /**
   * A later move does nothing once the round is over, ends the round only
   * by leaving the mover with 31, and touches no other player's hand.
   */
  lemma LaterMoveEffects(s: RoundState, i: nat, coin: bool, lucky: bool, value: seq<Card> -> Int32)
    requires i < |s.table.hands| && Playable(s.table)
    ensures var r := LaterMove(s, i, coin, lucky, value);
            && (!s.inProgress ==> r == s)
            && (s.inProgress && !r.inProgress ==> value(r.table.hands[i]) == ThirtyOne)
            && forall j :: 0 <= j < |s.table.hands| && j != i ==> r.table.hands[j] == s.table.hands[j]
  {
    hide AfterTurn;
  }

  /**
   * A later pass that ends the round ends it at some player `h`, whose
   * hand is then worth 31, and the moves after `h`'s change nothing.
   */
  lemma {:induction false} LaterPassEnds(s: RoundState, coins: seq<bool>, lucky: seq<bool>,
                                         value: seq<Card> -> Int32, k: nat)
    requires k <= |s.table.hands| && k <= |coins| && k <= |lucky| && Playable(s.table)
    requires s.inProgress && !LaterPassMoves(s, coins, lucky, value, k).inProgress
    ensures exists h :: 0 <= h < k && LaterPassMoves(s, coins, lucky, value, h).inProgress
                        && LaterPassMoves(s, coins, lucky, value, k) == LaterPassMoves(s, coins, lucky, value, h + 1)
                        && value(LaterPassMoves(s, coins, lucky, value, k).table.hands[h]) == ThirtyOne
    decreases k
  {
    hide LaterMove;
    var prev := LaterPassMoves(s, coins, lucky, value, k - 1);
    LaterMoveEffects(prev, k - 1, coins[k - 1], lucky[k - 1], value);
    if prev.inProgress {
      var h := k - 1;
      assert LaterPassMoves(s, coins, lucky, value, h).inProgress;
    } else {
      LaterPassEnds(s, coins, lucky, value, k - 1);
    }
  }

  /**
   * A later pass that ends the round was ended by a player `h` holding
   * 31, and no player after `h` moved: their hands are as they were.
   */
  lemma {:induction false} LaterPassEndsAtThirtyOne(s: RoundState, coins: seq<bool>, lucky: seq<bool>,
                                                    value: seq<Card> -> Int32, k: nat)
    requires k <= |s.table.hands| && k <= |coins| && k <= |lucky| && Playable(s.table)
    requires s.inProgress && !LaterPassMoves(s, coins, lucky, value, k).inProgress
    ensures var r := LaterPassMoves(s, coins, lucky, value, k);
            exists h :: 0 <= h < k && value(r.table.hands[h]) == ThirtyOne
                        && forall j :: h < j < |s.table.hands| ==> r.table.hands[j] == s.table.hands[j]
    decreases k
  {
    hide LaterMove;
    var prev := LaterPassMoves(s, coins, lucky, value, k - 1);
    var r := LaterPassMoves(s, coins, lucky, value, k);
    LaterMoveEffects(prev, k - 1, coins[k - 1], lucky[k - 1], value);
    if prev.inProgress {
      forall j | k - 1 < j < |s.table.hands|
        ensures r.table.hands[j] == s.table.hands[j]
      {
        LaterPassLeavesLaterHands(s, coins, lucky, value, k - 1, j);
      }
    } else {
      LaterPassEndsAtThirtyOne(s, coins, lucky, value, k - 1);
    }
  }

  /**
   * A later pass records a knock only if no one had knocked before it,
   * and then it records exactly one knocker, among the players who moved.
   */
  lemma {:induction false} LaterPassKnocksOnce(s: RoundState, coins: seq<bool>, lucky: seq<bool>,
                                               value: seq<Card> -> Int32, k: nat)
    requires k <= |s.table.hands| && k <= |coins| && k <= |lucky| && Playable(s.table)
    ensures var r := LaterPassMoves(s, coins, lucky, value, k);
            && (s.knocked ==> r.knocked && r.newKnocker == s.newKnocker)
            && (r.newKnocker != s.newKnocker ==> !s.knocked && r.knocked && r.newKnocker.Some? && r.newKnocker.value < k)
    decreases k
  {
    hide AfterTurn;
    if k > 0 {
      LaterPassKnocksOnce(s, coins, lucky, value, k - 1);
    }
  }

  class ThirtyOneGame {
    var players: seq<Player>
    var stockpile: seq<Card>
    var discardPile: seq<Card>
    var currentPlayer: Player?
    var roundInProgress: bool
    var knockOccurred: bool
    var knocker: Player?
    /** The value of a hand (`Hand.getTotalValue`). */
    const handValue: seq<Card> -> Int32
    /** The hands of every player the game was created with. */
    ghost var hands: set<Hand>

    function Score(p: Player): Int32
      reads p.hand
    {
      handValue(p.hand.cards)
    }

    /** The scores of `ps`, in order. */
    ghost function ScoresOf(ps: seq<Player>): (s: seq<Int32>)
      reads set p | p in ps :: p.hand
      ensures |s| == |ps|
    {
      if ps == [] then [] else ScoresOf(ps[..|ps| - 1]) + [Score(ps[|ps| - 1])]
    }

    /** Entry `i` of the scores is the value of player `i`'s hand. */
    lemma {:induction false} ScoresOfScores(ps: seq<Player>)
      ensures forall i :: 0 <= i < |ps| ==> ScoresOf(ps)[i] == Score(ps[i])
      decreases |ps|
    {
      if ps != [] {
        ScoresOfScores(ps[..|ps| - 1]);
      }
    }

    /**
     * Holds between rounds and throughout a round: at most 16 players, each
     * with a hand of its own and between one and three lives; a knocker is
     * recorded exactly when a knock occurred.
     */
    ghost predicate Valid()
      reads this, players
    {
      && |players| <= MaxPlayers
      && HandsDistinct(players)
      && (forall i :: 0 <= i < |players| ==> players[i].hand in hands)
      && (forall i :: 0 <= i < |players| ==> 1 <= players[i].lives <= InitialLives)
      && (knockOccurred <==> knocker != null)
    }

    /**
     * Holds between turns of a round: the current player and the knocker
     * are players, every hand holds three cards, both piles hold a card,
     * and the piles and hands together hold 52 cards.
     */
    ghost predicate InRound()
      requires Valid()
      reads this, players, hands
    {
      && currentPlayer != null && currentPlayer in players
      && (knocker != null ==> knocker in players)
      && (forall i :: 0 <= i < |players| ==> |players[i].hand.cards| == HandSize)
      && stockpile != [] && discardPile != []
      && |stockpile| + |discardPile| + HandSize * |players| == DeckSize
    }

    /** Some player's hand is worth 31. */
    ghost predicate SomeoneHoldsThirtyOne()
      requires Valid()
      reads this, players, hands
    {
      exists k :: 0 <= k < |players| && Score(players[k]) == ThirtyOne
    }

    /** The piles, hands and round flags as they stand; no knock recorded yet. */
    ghost function StateNow(): (s: RoundState)
      reads this, set p | p in players :: p.hand
      ensures |s.table.hands| == |players|
    {
      RoundState(Table(stockpile, discardPile, HandContents(players)), roundInProgress, knockOccurred, None)
    }

    /**
     * The piles, hands and round flags are those of `s`, and the knocker
     * is the player `s` records as knocking, or `before` if it records none.
     */
    ghost predicate Reaches(s: RoundState, before: Player?)
      reads this, set p | p in players :: p.hand
    {
      && stockpile == s.table.stockpile && discardPile == s.table.discardPile
      && |s.table.hands| == |players|
      && (forall k :: 0 <= k < |players| ==> players[k].hand.cards == s.table.hands[k])
      && roundInProgress == s.inProgress && knockOccurred == s.knocked
      && knocker == (if s.newKnocker.Some? && s.newKnocker.value < |players| then players[s.newKnocker.value] else before)
    }

    /** The engine is in the state it stands in. */
    lemma StateNowReached()
      ensures Reaches(StateNow(), knocker)
    {
      HandContentsAt(players);
    }

    /** Players "Player 1" to "Player n", each with three lives and an empty hand. */
    constructor (numPlayers: nat, handValue: seq<Card> -> Int32)
      requires MinPlayers <= numPlayers <= MaxPlayers
      ensures Valid()
      ensures this.handValue == handValue
      ensures |players| == numPlayers
      ensures forall i :: 0 <= i < numPlayers ==>
                players[i].name == "Player " + NatToString(i + 1) && players[i].lives == InitialLives
      ensures forall i :: 0 <= i < numPlayers ==> fresh(players[i]) && fresh(players[i].hand)
      ensures forall i :: 0 <= i < numPlayers ==> players[i].hand.cards == []
      ensures !roundInProgress && !knockOccurred && knocker == null && currentPlayer == null
    {
      var ps: seq<Player> := [];
      ghost var hs: set<Hand> := {};
      for i := 0 to numPlayers
        invariant |ps| == i && HandsDistinct(ps)
        invariant forall k :: 0 <= k < i ==> ps[k].hand in hs
        invariant forall k :: 0 <= k < i ==>
                    ps[k].name == "Player " + NatToString(k + 1) && ps[k].lives == InitialLives
        invariant forall k :: 0 <= k < i ==> fresh(ps[k]) && fresh(ps[k].hand) && ps[k].hand.cards == []
      {
        var p := new Player("Player " + NatToString(i + 1));
        ps := ps + [p];
        hs := hs + {p.hand};
      }
      this.handValue := handValue;
      players := ps;
      hands := hs;
      stockpile := [];
      discardPile := [];
      currentPlayer := null;
      roundInProgress := false;
      knockOccurred := false;
      knocker := null;
    }

    /** Every card of the deck pushed onto an empty stockpile in deal order. */
    method LoadStockpile(deck: seq<Card>)
      modifies this`stockpile
      ensures stockpile == deck
    {
      stockpile := [];
      for i := 0 to |deck|
        invariant stockpile == deck[..i]
      {
        stockpile := stockpile + [deck[i]];
      }
      assert deck[..|deck|] == deck;
    }

    /** Player `i`'s hand is emptied and given the next three cards popped off the stockpile. */
    method DealHand(deck: seq<Card>, i: nat)
      requires i < |players| && HandSize * i + HandSize <= |deck|
      requires stockpile == deck[..|deck| - HandSize * i]
      modifies this`stockpile, players[i].hand
      ensures stockpile == deck[..|deck| - HandSize * (i + 1)]
      ensures players[i].hand.cards == DealtHand(deck, i)
    {
      var hand := players[i].hand;
      hand.Reset();
      for j := 0 to HandSize
        invariant stockpile == deck[..|deck| - HandSize * i - j]
        invariant hand.cards == DealtHand(deck, i)[..j]
      {
        var top := stockpile[|stockpile| - 1];
        stockpile := stockpile[..|stockpile| - 1];
        hand.AddCard(top);
      }
    }

    /** Three cards to each player in turn, popped off a stockpile holding the deck. */
    method DealHands(deck: seq<Card>)
      requires Valid() && HandSize * |players| <= |deck|
      requires stockpile == deck
      modifies this`stockpile, hands
      ensures stockpile == deck[..|deck| - HandSize * |players|]
      ensures forall k :: 0 <= k < |players| ==> players[k].hand.cards == DealtHand(deck, k)
    {
      assert deck[..|deck|] == deck;
      for i := 0 to |players|
        invariant stockpile == deck[..|deck| - HandSize * i]
        invariant forall k :: 0 <= k < i ==> players[k].hand.cards == DealtHand(deck, k)
      {
        DealHand(deck, i);
      }
    }

    /**
     * The piles and hands of a new round: the whole shuffled deck goes onto
     * the stockpile, three cards are dealt to each player in turn, and one
     * card is turned up as the discard pile.
     */
    method DealRound(deck: seq<Card>)
      requires Valid() && |players| >= 1 && |deck| == DeckSize
      modifies this`stockpile, this`discardPile, hands
      ensures |discardPile| == 1 && |stockpile| == DeckSize - HandSize * |players| - 1
      ensures stockpile + discardPile == deck[..DeckSize - HandSize * |players|]
      ensures forall i :: 0 <= i < |players| ==> players[i].hand.cards == DealtHand(deck, i)
    {
      discardPile := [];
      LoadStockpile(deck);
      DealHands(deck);

      var top := stockpile[|stockpile| - 1];
      stockpile := stockpile[..|stockpile| - 1];
      discardPile := discardPile + [top];
    }

    /**
     * Reset the round flags, deal the round, and give the first turn to the
     * first player.
     */
    method StartNewRound(deck: seq<Card>)
      requires Valid() && |players| >= 1 && |deck| == DeckSize
      modifies this`stockpile, this`discardPile, this`currentPlayer
      modifies this`roundInProgress, this`knockOccurred, this`knocker, hands
      ensures Valid() && InRound()
      ensures roundInProgress && !knockOccurred && knocker == null && currentPlayer == players[0]
      ensures |discardPile| == 1 && |stockpile| == DeckSize - HandSize * |players| - 1
      ensures stockpile + discardPile == deck[..DeckSize - HandSize * |players|]
      ensures forall i :: 0 <= i < |players| ==> players[i].hand.cards == DealtHand(deck, i)
    {
      roundInProgress := true;
      knockOccurred := false;
      knocker := null;
      DealRound(deck);
      currentPlayer := players[0];
    }

    /** Ends the round at once: a player holds 31. */
    method EndRoundWithThirtyOne(player: Player)
      modifies this`roundInProgress
      ensures !roundInProgress
    {
      roundInProgress := false;
    }

    /**
     * The draw of a turn: the head of the discard queue when the coin says
     * so and the queue has a card, otherwise the top of the stockpile.
     * `hand` stands for the cards the drawn card will join.
     */
    method DrawCard(takeDiscardCoin: bool, ghost hand: seq<Card>) returns (drawnCard: Card)
      requires CanDraw(Piles(stockpile, discardPile, hand), takeDiscardCoin)
      modifies this`stockpile, this`discardPile
      ensures Piles(stockpile, discardPile, hand + [drawnCard])
              == Draw(Piles(old(stockpile), old(discardPile), hand), takeDiscardCoin)
    {
      var takeFromDiscard := takeDiscardCoin && discardPile != [];
      if takeFromDiscard {
        drawnCard := discardPile[0];
        discardPile := discardPile[1..];
      } else {
        drawnCard := stockpile[|stockpile| - 1];
        stockpile := stockpile[..|stockpile| - 1];
      }
    }

    /**
     * Recycling after the stockpile has run out: the head of the discard
     * queue is set aside, every other discard is polled and pushed onto the
     * stockpile, and the set-aside card is put back as the only discard.
     */
    method RecycleDiscardPile()
      requires discardPile != []
      modifies this`stockpile, this`discardPile
      ensures stockpile == old(stockpile) + old(discardPile)[1..]
      ensures discardPile == [old(discardPile)[0]]
    {
      var topDiscard := discardPile[0];
      discardPile := discardPile[1..];
      while discardPile != []
        invariant stockpile + discardPile == old(stockpile) + old(discardPile)[1..]
        decreases |discardPile|
      {
        assert discardPile == [discardPile[0]] + discardPile[1..];
        stockpile := stockpile + [discardPile[0]];
        discardPile := discardPile[1..];
      }
      discardPile := discardPile + [topDiscard];
    }

    /**
     * The card play of a turn: the drawn card joins the hand, then the
     * card the heuristic picks leaves the hand for the tail of the discard
     * queue.
     */
    method DrawAndDiscard(takeDiscardCoin: bool, hand: Hand)
      requires CanDraw(Piles(stockpile, discardPile, hand.cards), takeDiscardCoin)
      modifies this`stockpile, this`discardPile, hand
      ensures Piles(stockpile, discardPile, hand.cards)
              == Discard(Draw(old(Piles(stockpile, discardPile, hand.cards)), takeDiscardCoin))
      ensures |hand.cards| == old(|hand.cards|) && discardPile != []
      ensures |stockpile| + |discardPile| == old(|stockpile| + |discardPile|)
    {
      var drawnCard := DrawCard(takeDiscardCoin, hand.cards);
      hand.AddCard(drawnCard);

      var toDiscard := ChooseCardToDiscard(hand.cards);
      RemoveFirstRemovesOne(hand.cards, toDiscard);
      hand.RemoveCard(toDiscard);
      discardPile := discardPile + [toDiscard];
    }

    /**
     * The cards moved in a turn: draw and discard, then recycle the
     * discard queue if the stockpile has run out.
     */
    method MoveTurnCards(takeDiscardCoin: bool, hand: Hand)
      requires CanDraw(Piles(stockpile, discardPile, hand.cards), takeDiscardCoin)
      requires |stockpile| + |discardPile| >= 2
      modifies this`stockpile, this`discardPile, hand
      ensures Piles(stockpile, discardPile, hand.cards)
              == AfterTurn(old(Piles(stockpile, discardPile, hand.cards)), takeDiscardCoin)
      ensures |hand.cards| == old(|hand.cards|) && stockpile != [] && discardPile != []
      ensures |stockpile| + |discardPile| == old(|stockpile| + |discardPile|)
    {
      DrawAndDiscard(takeDiscardCoin, hand);
      if stockpile == [] {
        RecycleDiscardPile();
      }
    }

    /**
     * The current player's turn: draw and discard, recycle if the stockpile
     * has run out, and end the round if the hand is now worth 31. The
     * recycling touches neither the hand nor the round flag, so checking
     * for 31 after it rather than before gives the same result.
     * `afterKnock` has no effect on the turn.
     */
    method PlayTurn(takeDiscardCoin: bool, afterKnock: bool)
      requires Valid() && InRound()
      modifies this`stockpile, this`discardPile, this`roundInProgress, currentPlayer.hand
      ensures Valid() && InRound()
      ensures Piles(stockpile, discardPile, currentPlayer.hand.cards)
              == AfterTurn(old(Piles(stockpile, discardPile, currentPlayer.hand.cards)), takeDiscardCoin)
      ensures roundInProgress == (old(roundInProgress) && Score(currentPlayer) != ThirtyOne)
    {
      var hand := currentPlayer.hand;
      MoveTurnCards(takeDiscardCoin, hand);
      if handValue(hand.cards) == ThirtyOne {
        EndRoundWithThirtyOne(currentPlayer);
      }
    }

    /**
     * `PlayTurn` for the current player, who is player `i`, seen as a move
     * on the table `s` describes.
     */
    method PlayTurnAt(i: nat, takeDiscardCoin: bool, afterKnock: bool, ghost s: RoundState, ghost before: Player?)
      requires Valid() && InRound() && i < |players| && currentPlayer == players[i] && Reaches(s, before)
      modifies this`stockpile, this`discardPile, this`roundInProgress, players[i].hand
      ensures Valid() && InRound()
      ensures Reaches(FirstMove(s, i, takeDiscardCoin, handValue), before)
      ensures Piles(stockpile, discardPile, players[i].hand.cards)
              == AfterTurn(old(Piles(stockpile, discardPile, players[i].hand.cards)), takeDiscardCoin)
    {
      hide AfterTurn;
      PlayTurn(takeDiscardCoin, afterKnock);
    }

    /**
     * One player's move in the first pass: it becomes the current player
     * and takes a turn, whether or not the round is still in progress.
     */
    method PlayFirstTurn(i: nat, takeDiscardCoin: bool, ghost s: RoundState, ghost before: Player?)
      requires Valid() && InRound() && i < |players| && Reaches(s, before)
      modifies this`stockpile, this`discardPile, this`roundInProgress, this`currentPlayer, players[i].hand
      ensures Valid() && InRound()
      ensures players == old(players) && currentPlayer == players[i]
      ensures Reaches(FirstMove(s, i, takeDiscardCoin, handValue), before)
    {
      hide AfterTurn;
      hide FirstMove;
      currentPlayer := players[i];
      PlayTurnAt(i, takeDiscardCoin, false, s, before);
    }

    /**
     * The loop of the first pass from state `s0`: every player, in order,
     * becomes the current player and takes a turn.
     */
    method FirstPassTurns(coins: seq<bool>, ghost s0: RoundState)
      requires Valid() && InRound() && |coins| == |players| && Reaches(s0, knocker)
      modifies this`stockpile, this`discardPile, this`roundInProgress, this`currentPlayer, hands
      ensures Valid() && InRound()
      ensures players == old(players) && currentPlayer == players[|players| - 1]
      ensures Reaches(FirstPassMoves(s0, coins, handValue, |players|), old(knocker))
    {
      hide AfterTurn;
      hide TurnAt;
      hide FirstMove;
      for i := 0 to |players|
        invariant Valid() && InRound()
        invariant players == old(players)
        invariant i > 0 ==> currentPlayer == players[i - 1]
        invariant Reaches(FirstPassMoves(s0, coins, handValue, i), old(knocker))
      {
        PlayFirstTurn(i, coins[i], FirstPassMoves(s0, coins, handValue, i), old(knocker));
      }
    }

    /**
     * The first pass of a round: every player, in order, takes a turn,
     * whether or not the round has already been ended by a 31.
     */
    method FirstPass(coins: seq<bool>)
      requires Valid() && InRound() && |coins| == |players|
      modifies this`stockpile, this`discardPile, this`roundInProgress, this`currentPlayer, hands
      ensures Valid() && InRound()
      ensures players == old(players) && currentPlayer == players[|players| - 1]
      ensures Reaches(FirstPassMoves(old(StateNow()), coins, handValue, |players|), old(knocker))
      ensures roundInProgress ==> old(roundInProgress)
      ensures old(roundInProgress) && !roundInProgress ==> SomeoneHoldsThirtyOne()
    {
      hide AfterTurn;
      hide TurnAt;
      hide FirstMove;
      hide FirstPassMoves;
      ghost var s0 := StateNow();
      StateNowReached();
      FirstPassTurns(coins, s0);
      ghost var r := FirstPassMoves(s0, coins, handValue, |players|);
      FirstPassEnds(s0, coins, handValue, |players|);
      if old(roundInProgress) && !roundInProgress {
        ghost var h :| 0 <= h < |players| && handValue(r.table.hands[h]) == ThirtyOne;
        assert Score(players[h]) == ThirtyOne;
      }
    }

    /**
     * One player's move in a pass after the first, while the round is in
     * progress: a hand worth 31 ends the round at once; otherwise the
     * player knocks if no one has knocked yet and it chooses to, and takes
     * a turn if it does not. A knock only records the knocker.
     */
    method PlayLaterTurn(i: nat, takeDiscardCoin: bool, luckyDraw: bool, ghost s: RoundState, ghost before: Player?)
      requires Valid() && InRound() && roundInProgress && i < |players| && Reaches(s, before)
      modifies this`stockpile, this`discardPile, this`roundInProgress, this`currentPlayer
      modifies this`knockOccurred, this`knocker, players[i].hand
      ensures Valid() && InRound()
      ensures players == old(players) && currentPlayer == players[i]
      ensures Reaches(LaterMove(s, i, takeDiscardCoin, luckyDraw, handValue), before)
      ensures !roundInProgress ==> Score(players[i]) == ThirtyOne
      ensures old(Score(players[i])) == ThirtyOne ==>
                && !roundInProgress && knocker == old(knocker)
                && Piles(stockpile, discardPile, players[i].hand.cards)
                   == old(Piles(stockpile, discardPile, players[i].hand.cards))
      ensures old(Score(players[i])) != ThirtyOne && !old(knockOccurred)
              && ShouldKnock(old(Score(players[i])), luckyDraw) ==>
                && roundInProgress && knockOccurred && knocker == players[i]
                && Piles(stockpile, discardPile, players[i].hand.cards)
                   == old(Piles(stockpile, discardPile, players[i].hand.cards))
      ensures old(Score(players[i])) != ThirtyOne
              && (old(knockOccurred) || !ShouldKnock(old(Score(players[i])), luckyDraw)) ==>
                && knocker == old(knocker)
                && Piles(stockpile, discardPile, players[i].hand.cards)
                   == AfterTurn(old(Piles(stockpile, discardPile, players[i].hand.cards)), takeDiscardCoin)
                && roundInProgress == (Score(players[i]) != ThirtyOne)
    {
      hide AfterTurn;
      var player := players[i];
      currentPlayer := player;
      if Score(player) == ThirtyOne {
        EndRoundWithThirtyOne(player);
        assert LaterMove(s, i, takeDiscardCoin, luckyDraw, handValue) == s.(inProgress := false);
      } else if !knockOccurred && ShouldKnock(Score(player), luckyDraw) {
        knockOccurred := true;
        knocker := player;
        assert LaterMove(s, i, takeDiscardCoin, luckyDraw, handValue) == s.(knocked := true, newKnocker := Some(i));
      } else {
        PlayTurnAt(i, takeDiscardCoin, knockOccurred, s, before);
        assert LaterMove(s, i, takeDiscardCoin, luckyDraw, handValue) == FirstMove(s, i, takeDiscardCoin, handValue);
      }
    }

    /**
     * The loop of a later pass from state `s0`: the players in order make
     * their moves, until the round ends.
     */
    method PlayPassMoves(coins: seq<bool>, luckyDraws: seq<bool>, ghost s0: RoundState)
      requires Valid() && InRound() && |coins| == |players| && |luckyDraws| == |players|
      requires Reaches(s0, knocker)
      modifies this`stockpile, this`discardPile, this`roundInProgress, this`currentPlayer
      modifies this`knockOccurred, this`knocker, hands
      ensures Valid() && InRound()
      ensures players == old(players)
      ensures Reaches(LaterPassMoves(s0, coins, luckyDraws, handValue, |players|), old(knocker))
    {
      hide AfterTurn;
      hide TurnAt;
      hide FirstMove;
      hide LaterMove;
      for i := 0 to |players|
        invariant Valid() && InRound()
        invariant players == old(players)
        invariant Reaches(LaterPassMoves(s0, coins, luckyDraws, handValue, i), old(knocker))
      {
        if !roundInProgress {
          LaterPassStops(s0, coins, luckyDraws, handValue, i, |players|);
          break;
        }
        PlayLaterTurn(i, coins[i], luckyDraws[i], LaterPassMoves(s0, coins, luckyDraws, handValue, i), old(knocker));
      }
    }

    /**
     * One of the passes after the first: the players in order make their
     * moves until the round ends; once it has ended nothing changes.
     */
    method PlayPass(coins: seq<bool>, luckyDraws: seq<bool>)
      requires Valid() && InRound() && |coins| == |players| && |luckyDraws| == |players|
      modifies this`stockpile, this`discardPile, this`roundInProgress, this`currentPlayer
      modifies this`knockOccurred, this`knocker, hands
      ensures Valid() && InRound()
      ensures players == old(players)
      ensures Reaches(LaterPassMoves(old(StateNow()), coins, luckyDraws, handValue, |players|), old(knocker))
      ensures roundInProgress ==> old(roundInProgress)
      ensures old(roundInProgress) && !roundInProgress ==> SomeoneHoldsThirtyOne()
      ensures old(roundInProgress) && !roundInProgress ==>
                exists h :: 0 <= h < |players| && Score(players[h]) == ThirtyOne
                            && forall j :: h < j < |players| ==> players[j].hand.cards == old(players[j].hand.cards)
      ensures !old(roundInProgress) ==>
                && stockpile == old(stockpile) && discardPile == old(discardPile) && knocker == old(knocker)
                && forall k :: 0 <= k < |players| ==> players[k].hand.cards == old(players[k].hand.cards)
      ensures old(knockOccurred) ==> knocker == old(knocker)
      ensures knocker != old(knocker) ==> !old(knockOccurred)
    {
      hide AfterTurn;
      ghost var s0 := StateNow();
      StateNowReached();
      PlayPassMoves(coins, luckyDraws, s0);
      ghost var r := LaterPassMoves(s0, coins, luckyDraws, handValue, |players|);
      LaterPassKnocksOnce(s0, coins, luckyDraws, handValue, |players|);
      if !old(roundInProgress) {
        LaterPassStops(s0, coins, luckyDraws, handValue, 0, |players|);
      } else if !roundInProgress {
        LaterPassEndsAtThirtyOne(s0, coins, luckyDraws, handValue, |players|);
        ghost var h :| 0 <= h < |players| && handValue(r.table.hands[h]) == ThirtyOne
                       && forall j :: h < j < |players| ==> r.table.hands[j] == s0.table.hands[j];
        assert Score(players[h]) == ThirtyOne;
      }
    }

    /**
     * The first loop of the knock branch of evaluateRound: a scan from
     * `Integer.MAX_VALUE` that restarts the list of losers at each new
     * minimum and extends it at each tie.
     */
    method FindLosers() returns (minScore: Int32, losers: seq<Player>)
      ensures minScore == MinScore(ScoresOf(players))
      ensures losers == Tied(players, ScoresOf(players), minScore)
    {
      ghost var scores := ScoresOf(players);
      ScoresOfScores(players);
      minScore := IntMax;
      losers := [];
      for i := 0 to |players|
        invariant minScore == MinScore(scores[..i])
        invariant losers == Tied(players[..i], scores[..i], minScore)
      {
        var player := players[i];
        var score := Score(player);
        assert scores[..i + 1] == scores[..i] + [score];
        assert players[..i + 1] == players[..i] + [player];
        MinScoreAppend(scores[..i], score);
        TiedAppend(players[..i], scores[..i], player, score, score);
        TiedAppend(players[..i], scores[..i], player, score, minScore);
        if score < minScore {
          MinScoreIsMinimum(scores[..i]);
          TiedBelowAllIsEmpty(players[..i], scores[..i], score);
          minScore := score;
          losers := [player];
        } else if score == minScore {
          losers := losers + [player];
        }
      }
      assert players[..|players|] == players && scores[..|scores|] == scores;
    }

    /** The second loop of the knock branch: each loser loses a life, the knocker two. */
    method PenaliseLosers(losers: seq<Player>)
      requires HandsDistinct(losers)
      modifies losers
      ensures forall p :: p in losers ==> p.lives == old(p.lives) - (if p == knocker then 2 else 1)
    {
      for j := 0 to |losers|
        invariant forall p :: p in losers[j..] ==> p.lives == old(p.lives)
        invariant forall p :: p in losers[..j] ==> p.lives == old(p.lives) - (if p == knocker then 2 else 1)
      {
        assert losers[..j + 1] == losers[..j] + [losers[j]];
        assert losers[j..] == [losers[j]] + losers[j + 1..];
        var loser := losers[j];
        if loser == knocker {
          loser.LoseLife();
          loser.LoseLife();
        } else {
          loser.LoseLife();
        }
      }
      assert losers[..|losers|] == losers;
    }

    /** The branch without a knock: every player whose hand is not worth 31 loses a life. */
    method PenaliseAllButThirtyOne()
      requires HandsDistinct(players)
      modifies players
      ensures forall k :: 0 <= k < |players| ==>
                players[k].lives == old(players[k].lives) - LifeLoss(players, old(ScoresOf(players)), false, knocker, k)
    {
      ScoresOfScores(players);
      for i := 0 to |players|
        invariant forall k :: 0 <= k < |players| ==>
                    players[k].lives == old(players[k].lives) - (if k < i && Score(players[k]) != ThirtyOne then 1 else 0)
      {
        if Score(players[i]) != ThirtyOne {
          players[i].LoseLife();
        }
      }
    }

    /**
     * The life losses of evaluateRound. After a knock, the players tied at
     * the lowest score lose a life, the knocker two; otherwise everyone not
     * holding 31 loses a life.
     */
    method ApplyLifeLosses()
      requires Valid()
      modifies players
      ensures forall k :: 0 <= k < |players| ==>
                players[k].lives ==
                old(players[k].lives) - LifeLoss(players, old(ScoresOf(players)), knockOccurred, knocker, k)
    {
      ghost var scores := ScoresOf(players);
      ScoresOfScores(players);
      if knockOccurred {
        var minScore, losers := FindLosers();
        TiedAreTheScorers(players, scores, minScore);
        TiedSelectsScore(players, scores, minScore);
        PenaliseLosers(losers);
        forall k | 0 <= k < |players|
          ensures players[k].lives == old(players[k].lives) - LifeLoss(players, scores, true, knocker, k)
        {
          if players[k] !in losers {
            assert players[k].lives == old(players[k].lives);
          }
        }
      } else {
        PenaliseAllButThirtyOne();
      }
    }

    /** The `removeIf` of evaluateRound: players left with no lives leave the game. */
    method RemoveEliminated()
      requires |players| <= MaxPlayers && HandsDistinct(players)
      requires forall i :: 0 <= i < |players| ==> players[i].hand in hands && players[i].lives <= InitialLives
      requires knockOccurred <==> knocker != null
      modifies this`players
      ensures Valid()
      ensures players == Survivors(old(players))
    {
      ghost var ps := players;
      var survivors := Survivors(players);
      SurvivorsKeepHandsDistinct(ps);
      SurvivorsAreTheLiving(ps);
      forall i | 0 <= i < |survivors|
        ensures survivors[i].hand in hands && 1 <= survivors[i].lives <= InitialLives
      {
        var k :| 0 <= k < |ps| && ps[k] == survivors[i];
      }
      players := survivors;
      assert survivors == Survivors(ps);
    }

    /**
     * Scoring at the end of a round: the life losses, then the removal of
     * the players with no lives left.
     */
    method EvaluateRound()
      requires Valid()
      modifies this`players, players
      ensures Valid()
      ensures forall k :: 0 <= k < |old(players)| ==>
                old(players)[k].lives ==
                old(players[k].lives) - LifeLoss(old(players), old(ScoresOf(players)), knockOccurred, knocker, k)
      ensures players == Survivors(old(players))
    {
      ApplyLifeLosses();
      RemoveEliminated();
    }
  }
}
