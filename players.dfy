/**
 * A player of the simulation: a fixed name, a hand object owned for the
 * whole game, and a life counter that only goes down.
 *
 * The hand is modelled as an object holding an ordered sequence of cards,
 * with the operations the round engine calls on it.
 */
module Players {
  import opened Cards

  /** Lives a player starts the game with. */
  const InitialLives: int := 3

  /** `s` with its first occurrence of `x` taken out. */
  function RemoveFirst(s: seq<Card>, x: Card): seq<Card>
  {
    if s == [] then []
    else if s[0] == x then s[1..]
    else [s[0]] + RemoveFirst(s[1..], x)
  }

  /**
   * Removing a card the hand holds takes out exactly one copy of it;
   * removing a card it does not hold changes nothing.
   */
  lemma {:induction false} RemoveFirstRemovesOne(s: seq<Card>, x: Card)
    ensures x in s ==> |RemoveFirst(s, x)| == |s| - 1 &&
                       multiset(RemoveFirst(s, x)) == multiset(s) - multiset{x}
    ensures x !in s ==> RemoveFirst(s, x) == s
  {
    if s != [] {
      assert s == [s[0]] + s[1..];
      if s[0] != x {
        RemoveFirstRemovesOne(s[1..], x);
      }
    }
  }

  /** A player's hand of cards, changed in place by the engine. */
  class Hand {
    var cards: seq<Card>

    constructor ()
      ensures cards == []
    {
      cards := [];
    }

    method Reset()
      modifies this
      ensures cards == []
    {
      cards := [];
    }

    method AddCard(c: Card)
      modifies this
      ensures cards == old(cards) + [c]
    {
      cards := cards + [c];
    }

    method RemoveCard(c: Card)
      modifies this
      ensures cards == RemoveFirst(old(cards), c)
    {
      cards := RemoveFirst(cards, c);
    }
  }

  class Player {
    const name: string
    const hand: Hand
    var lives: int

    /** A new player holds an empty hand of its own and has three lives. */
    constructor (name: string)
      ensures this.name == name
      ensures lives == InitialLives
      ensures fresh(hand) && hand.cards == []
    {
      this.name := name;
      this.hand := new Hand();
      this.lives := InitialLives;
    }

    /** The name given at construction; `name` is never reassigned. */
    function GetName(): (n: string)
      ensures n == name
    {
      name
    }

    /** Always the same hand object: `hand` is fixed at construction. */
    function GetHand(): (h: Hand)
      ensures h == hand
    {
      hand
    }

    function GetLives(): (n: int)
      reads this
      ensures n == lives
    {
      lives
    }

    /** Takes exactly one life, with no lower bound; name and hand stay. */
    method LoseLife()
      modifies this
      ensures lives == old(lives) - 1
    {
      lives := lives - 1;
    }
  }

  /** No two players share a hand object (and so no player occurs twice). */
  ghost predicate HandsDistinct(ps: seq<Player>) {
    forall i, j :: 0 <= i < j < |ps| ==> ps[i].hand != ps[j].hand
  }

  /** The cards in each player's hand, in player order. */
  ghost function HandContents(ps: seq<Player>): (hs: seq<seq<Card>>)
    reads set p | p in ps :: p.hand
    ensures |hs| == |ps|
  {
    if ps == [] then [] else HandContents(ps[..|ps| - 1]) + [ps[|ps| - 1].hand.cards]
  }

  /** Entry `i` of the hand contents is the cards of player `i`. */
  lemma {:induction false} HandContentsAt(ps: seq<Player>)
    ensures forall i :: 0 <= i < |ps| ==> HandContents(ps)[i] == ps[i].hand.cards
    decreases |ps|
  {
    if ps != [] {
      HandContentsAt(ps[..|ps| - 1]);
    }
  }

  /** All cards in a sequence of hands, as a multiset. */
  ghost function AllCards(hs: seq<seq<Card>>): multiset<Card> {
    if hs == [] then multiset{}
    else AllCards(hs[..|hs| - 1]) + multiset(hs[|hs| - 1])
  }

  /** Replacing one hand changes the pooled cards by exactly that hand. */
  lemma {:induction false} AllCardsUpdate(hs: seq<seq<Card>>, i: nat, h: seq<Card>)
    requires i < |hs|
    ensures AllCards(hs[i := h]) + multiset(hs[i]) == AllCards(hs) + multiset(h)
    decreases |hs|
  {
    var n := |hs| - 1;
    if i == n {
      assert hs[i := h][..n] == hs[..n];
    } else {
      assert hs[i := h][..n] == hs[..n][i := h];
      assert hs[i := h][n] == hs[n];
      AllCardsUpdate(hs[..n], i, h);
      assert hs[..n][i] == hs[i];
      assert AllCards(hs[i := h]) == AllCards(hs[..n][i := h]) + multiset(hs[n]);
      assert AllCards(hs) == AllCards(hs[..n]) + multiset(hs[n]);
      calc {
        AllCards(hs[i := h]) + multiset(hs[i]);
        (AllCards(hs[..n][i := h]) + multiset(hs[n])) + multiset(hs[i]);
        (AllCards(hs[..n][i := h]) + multiset(hs[..n][i])) + multiset(hs[n]);
        (AllCards(hs[..n]) + multiset(h)) + multiset(hs[n]);
        AllCards(hs) + multiset(h);
      }
    }
  }
}
