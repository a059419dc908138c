/**
 * The card flow of one turn, as values: the stockpile (a stack whose top
 * is the LAST element), the discard pile (a first-in-first-out queue whose
 * head is the FIRST element, the oldest discard) and the acting player's
 * hand.
 *
 * A turn draws one card, discards one card chosen by the heuristic, and,
 * when the stockpile has run out, turns all discards but the head back
 * into the stockpile.
 */
module Piles {
  import opened Cards
  import opened DiscardPolicy
  import opened Players

  datatype Piles = Piles(stockpile: seq<Card>, discardPile: seq<Card>, hand: seq<Card>)

  /** Every card on the table in one multiset. */
  function Total(p: Piles): multiset<Card> {
    multiset(p.stockpile) + multiset(p.discardPile) + multiset(p.hand)
  }

  /** Cards in the two piles together. */
  function PileCount(p: Piles): nat {
    |p.stockpile| + |p.discardPile|
  }

  /** The draw is from the discard pile only when the coin says so and the pile has a card. */
  predicate TakesFromDiscard(p: Piles, coin: bool) {
    coin && p.discardPile != []
  }

  /** The pile the turn draws from has a card. */
  predicate CanDraw(p: Piles, coin: bool) {
    TakesFromDiscard(p, coin) || p.stockpile != []
  }

  /**
   * The draw: either the head of the discard queue (its OLDEST card) or
   * the top of the stockpile moves to the end of the hand.
   */
  function Draw(p: Piles, coin: bool): (q: Piles)
    requires CanDraw(p, coin)
    ensures |q.hand| == |p.hand| + 1 && PileCount(q) + 1 == PileCount(p)
  {
    if TakesFromDiscard(p, coin) then
      Piles(p.stockpile, p.discardPile[1..], p.hand + [p.discardPile[0]])
    else
      var n := |p.stockpile| - 1;
      Piles(p.stockpile[..n], p.discardPile, p.hand + [p.stockpile[n]])
  }

  /**
   * The draw moves exactly one card into the hand, appended after the
   * cards already held: the discard queue's head when it takes from the
   * discard pile, the stockpile's top otherwise; the other pile is untouched.
   */
  lemma DrawMovesOneCard(p: Piles, coin: bool)
    requires CanDraw(p, coin)
    ensures var q := Draw(p, coin);
            && Total(q) == Total(p)
            && |q.hand| == |p.hand| + 1 && PileCount(q) + 1 == PileCount(p)
            && q.hand[..|p.hand|] == p.hand
            && (TakesFromDiscard(p, coin) ==>
                  q.hand[|p.hand|] == p.discardPile[0] && q.stockpile == p.stockpile)
            && (!TakesFromDiscard(p, coin) ==>
                  q.hand[|p.hand|] == p.stockpile[|p.stockpile| - 1] && q.discardPile == p.discardPile)
  {
    var q := Draw(p, coin);
    assert q.hand[..|p.hand|] == p.hand;
    if TakesFromDiscard(p, coin) {
      assert p.discardPile == [p.discardPile[0]] + p.discardPile[1..];
    } else {
      var n := |p.stockpile| - 1;
      assert p.stockpile == p.stockpile[..n] + [p.stockpile[n]];
    }
  }

  /**
   * The discard: the card the heuristic picks leaves the hand and joins
   * the tail of the discard queue.
   */
  ghost function Discard(p: Piles): (q: Piles)
    requires p.hand != []
    ensures |q.hand| + 1 == |p.hand| && PileCount(q) == PileCount(p) + 1
  {
    var c := DiscardChoice(p.hand);
    RemoveFirstRemovesOne(p.hand, c);
    Piles(p.stockpile, p.discardPile + [c], RemoveFirst(p.hand, c))
  }

  /**
   * The discard moves exactly the chosen card from the hand to the tail
   * of the discard queue, and leaves the stockpile alone.
   */
  lemma DiscardMovesChosenCard(p: Piles)
    requires p.hand != []
    ensures var q := Discard(p);
            && Total(q) == Total(p)
            && |q.hand| + 1 == |p.hand| && PileCount(q) == PileCount(p) + 1
            && q.stockpile == p.stockpile
            && q.discardPile[..|p.discardPile|] == p.discardPile
            && q.discardPile[|p.discardPile|] == DiscardChoice(p.hand)
  {
    var c := DiscardChoice(p.hand);
    RemoveFirstRemovesOne(p.hand, c);
    var q := Discard(p);
    assert q.discardPile[..|p.discardPile|] == p.discardPile;
  }

  /**
   * Recycling: the head of the discard queue stays as its only card; every
   * other discard is pushed onto the stockpile in queue order, so the
   * newest discard ends on top.
   */
  function Recycle(p: Piles): (q: Piles)
    requires p.discardPile != []
    ensures PileCount(q) == PileCount(p) && |q.discardPile| == 1 && q.hand == p.hand
  {
    Piles(p.stockpile + p.discardPile[1..], [p.discardPile[0]], p.hand)
  }

  /**
   * Recycling loses no card and moves none in or out of the hand; the
   * discard queue keeps only its head, and the stockpile gains the other
   * discards on top, oldest first.
   */
  lemma RecycleKeepsHeadAndOrder(p: Piles)
    requires p.discardPile != []
    ensures var q := Recycle(p);
            && Total(q) == Total(p) && PileCount(q) == PileCount(p)
            && q.discardPile == [p.discardPile[0]] && q.hand == p.hand
            && q.stockpile[..|p.stockpile|] == p.stockpile
            && forall i :: 1 <= i < |p.discardPile| ==> q.stockpile[|p.stockpile| + i - 1] == p.discardPile[i]
  {
    var q := Recycle(p);
    assert p.discardPile == [p.discardPile[0]] + p.discardPile[1..];
    assert q.stockpile[..|p.stockpile|] == p.stockpile;
  }

  /** One whole turn: draw, discard, then recycle if the stockpile is empty. */
  ghost function AfterTurn(p: Piles, coin: bool): (q: Piles)
    requires CanDraw(p, coin)
    ensures |q.hand| == |p.hand| && PileCount(q) == PileCount(p) && q.discardPile != []
  {
    var played := Discard(Draw(p, coin));
    if played.stockpile == [] then Recycle(played) else played
  }

  /** A turn loses and duplicates no card. */
  lemma TurnConservesCards(p: Piles, coin: bool)
    requires CanDraw(p, coin)
    ensures Total(AfterTurn(p, coin)) == Total(p)
  {
    var drawn := Draw(p, coin);
    DrawMovesOneCard(p, coin);
    DiscardMovesChosenCard(drawn);
    var played := Discard(drawn);
    if played.stockpile == [] {
      RecycleKeepsHeadAndOrder(played);
    }
  }

  /**
   * A turn gives the hand back its size and keeps the pile count; both
   * piles hold a card afterwards as long as the piles held two cards.
   */
  lemma TurnKeepsSizes(p: Piles, coin: bool)
    requires CanDraw(p, coin)
    ensures |AfterTurn(p, coin).hand| == |p.hand|
    ensures PileCount(AfterTurn(p, coin)) == PileCount(p)
    ensures AfterTurn(p, coin).discardPile != []
    ensures PileCount(p) >= 2 ==> AfterTurn(p, coin).stockpile != []
  {
    var drawn := Draw(p, coin);
    DrawMovesOneCard(p, coin);
    DiscardMovesChosenCard(drawn);
    var played := Discard(drawn);
    if played.stockpile == [] {
      RecycleKeepsHeadAndOrder(played);
    }
  }

  /** Without recycling, the discarded card is the new tail of the discard queue. */
  lemma DiscardJoinsQueueTail(p: Piles, coin: bool)
    requires CanDraw(p, coin) && Discard(Draw(p, coin)).stockpile != []
    ensures var q := AfterTurn(p, coin);
            q.discardPile != [] && q.discardPile[|q.discardPile| - 1] == DiscardChoice(Draw(p, coin).hand)
  {
    var drawn := Draw(p, coin);
    DrawMovesOneCard(p, coin);
    DiscardMovesChosenCard(drawn);
  }

  /**
   * With recycling, the discarded card is the new top of the stockpile,
   * unless it was the only discard: then the stockpile stays empty and the
   * card stays alone in the discard queue.
   */
  lemma DiscardTopsRecycledStock(p: Piles, coin: bool)
    requires CanDraw(p, coin) && Discard(Draw(p, coin)).stockpile == []
    ensures var q := AfterTurn(p, coin);
            && (|q.stockpile| > 0 ==> q.stockpile[|q.stockpile| - 1] == DiscardChoice(Draw(p, coin).hand))
            && (|q.stockpile| == 0 ==> q.discardPile == [DiscardChoice(Draw(p, coin).hand)])
  {
    var drawn := Draw(p, coin);
    DrawMovesOneCard(p, coin);
    DiscardMovesChosenCard(drawn);
    var played := Discard(drawn);
    RecycleKeepsHeadAndOrder(played);
  }
}
