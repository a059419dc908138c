/**
 * Cards of a standard 52-card deck and the per-card point value the
 * discard heuristic of the round engine compares.
 */
module Cards {

  datatype Suit = Hearts | Diamonds | Clubs | Spades

  datatype Rank = Ace | Two | Three | Four | Five | Six | Seven
                | Eight | Nine | Ten | Jack | Queen | King

  /** A card is an immutable (suit, rank) pair; equality is by suit and rank. */
  datatype Card = Card(suit: Suit, rank: Rank)

  /**
   * Every suit, once each. The order is the model's choice: the engine
   * only ever asks whether a suit is among those held more than once, so
   * the order in which suits are listed has no effect on the card chosen.
   */
  const AllSuits: seq<Suit> := [Hearts, Diamonds, Clubs, Spades]

  /** Position of a rank in the usual ordering, Ace = 1 up to King = 13. */
  function Ordinal(r: Rank): (n: nat)
    ensures 1 <= n <= 13
  {
    match r
    case Ace => 1
    case Two => 2
    case Three => 3
    case Four => 4
    case Five => 5
    case Six => 6
    case Seven => 7
    case Eight => 8
    case Nine => 9
    case Ten => 10
    case Jack => 11
    case Queen => 12
    case King => 13
  }

  /**
   * The point value of a card: an Ace counts 11, Two to Nine their face
   * value, and Ten, Jack, Queen and King count 10.
   */
  function CardValue(c: Card): (v: int)
    ensures 2 <= v <= 11
    ensures v == 11 <==> c.rank == Ace
    ensures v == (if c.rank == Ace then 11 else if Ordinal(c.rank) >= 10 then 10 else Ordinal(c.rank))
  {
    match c.rank
    case Ace => 11
    case Two => 2
    case Three => 3
    case Four => 4
    case Five => 5
    case Six => 6
    case Seven => 7
    case Eight => 8
    case Nine => 9
    case _ => 10
  }

  /** Every suit occurs in the enumeration. */
  lemma AllSuitsListsEverySuit(s: Suit)
    ensures s in AllSuits
  {
    match s
    case Hearts => assert AllSuits[0] == s;
    case Diamonds => assert AllSuits[1] == s;
    case Clubs => assert AllSuits[2] == s;
    case Spades => assert AllSuits[3] == s;
  }
}
