/**
 * The discard heuristic of the round engine: over a hand that has just
 * drawn its fourth card, keep the cards of suits held more than once and
 * throw away the first card of a suit held only once; when there is no
 * such choice, throw away the lowest-valued card (first one on ties).
 *
 * The pure functions state which card is chosen; the two methods follow
 * the engine's loops and are proved to return that card.
 */
module DiscardPolicy {
  import opened Cards

  datatype Option<T> = None | Some(value: T)

  /** How many cards of suit `s` the hand holds. */
  function SuitCount(h: seq<Card>, s: Suit): nat
  {
    if h == [] then 0
    else SuitCount(h[..|h| - 1], s) + (if h[|h| - 1].suit == s then 1 else 0)
  }

  /** A suit's count is zero exactly when no card of the hand has that suit, and never exceeds the hand. */
  lemma {:induction false} SuitCountCounts(h: seq<Card>, s: Suit)
    ensures SuitCount(h, s) <= |h|
    ensures SuitCount(h, s) == 0 <==> forall i :: 0 <= i < |h| ==> h[i].suit != s
  {
    if h != [] {
      var n := |h| - 1;
      SuitCountCounts(h[..n], s);
      assert forall i :: 0 <= i < n ==> h[..n][i] == h[i];
    }
  }

  /** Some suit is held by more than one card of the hand. */
  ghost predicate HasMultiSuit(h: seq<Card>) {
    exists s :: SuitCount(h, s) > 1
  }

  /** The card at index `i` is the only card of its suit in the hand. */
  ghost predicate IsLone(h: seq<Card>, i: int)
    requires 0 <= i < |h|
  {
    SuitCount(h, h[i].suit) <= 1
  }

  /**
   * Index of the first card with the lowest point value: a later card
   * replaces the current candidate only when it is strictly lower.
   */
  function LowestIndex(h: seq<Card>): (k: nat)
    requires |h| > 0
    ensures k < |h|
  {
    if |h| == 1 then 0
    else
      var k := LowestIndex(h[..|h| - 1]);
      if CardValue(h[|h| - 1]) < CardValue(h[k]) then |h| - 1 else k
  }

  /**
   * The card at `LowestIndex` has the lowest value of the hand, and every
   * card before it is strictly higher: it is the first lowest card.
   */
  lemma {:induction false} LowestIndexIsFirstMinimum(h: seq<Card>)
    requires |h| > 0
    ensures forall j :: 0 <= j < |h| ==> CardValue(h[LowestIndex(h)]) <= CardValue(h[j])
    ensures forall j :: 0 <= j < LowestIndex(h) ==> CardValue(h[LowestIndex(h)]) < CardValue(h[j])
  {
    if |h| > 1 {
      var n := |h| - 1;
      LowestIndexIsFirstMinimum(h[..n]);
      assert forall j :: 0 <= j < n ==> h[..n][j] == h[j];
    }
  }

  /** First index at or after `from` whose card is the only one of its suit. */
  ghost function FirstLoneFrom(h: seq<Card>, from: nat): (r: Option<nat>)
    requires from <= |h|
    ensures r.Some? ==> from <= r.value < |h|
    decreases |h| - from
  {
    if from == |h| then None
    else if IsLone(h, from) then Some(from)
    else FirstLoneFrom(h, from + 1)
  }

  /**
   * `FirstLoneFrom` finds a lone-suit card exactly when there is one at or
   * after `from`, and then the first such card.
   */
  lemma {:induction false} FirstLoneFromFindsFirst(h: seq<Card>, from: nat)
    requires from <= |h|
    ensures var r := FirstLoneFrom(h, from);
            && (r.Some? ==> IsLone(h, r.value) && forall j :: from <= j < r.value ==> !IsLone(h, j))
            && (r.None? ==> forall j :: from <= j < |h| ==> !IsLone(h, j))
    decreases |h| - from
  {
    if from < |h| && !IsLone(h, from) {
      FirstLoneFromFindsFirst(h, from + 1);
    }
  }

  /**
   * The card the heuristic discards: the first lone-suit card when some
   * suit is held more than once and such a card exists, otherwise the
   * first card of lowest point value.
   */
  ghost function DiscardChoice(h: seq<Card>): (c: Card)
    requires |h| > 0
    ensures c in h
  {
    var lone := FirstLoneFrom(h, 0);
    if HasMultiSuit(h) && lone.Some? then h[lone.value] else h[LowestIndex(h)]
  }

  /**
   * When a suit is held more than once, the first lone-suit card in hand
   * order is the one discarded.
   */
  lemma DiscardPrefersFirstLoneCard(h: seq<Card>, i: nat)
    requires i < |h| && HasMultiSuit(h)
    requires IsLone(h, i)
    requires forall j :: 0 <= j < i ==> !IsLone(h, j)
    ensures DiscardChoice(h) == h[i]
  {
    FirstLoneFromFindsFirst(h, 0);
    var lone := FirstLoneFrom(h, 0);
    assert lone.Some?;
  }

  /**
   * The heuristic falls back to the lowest-valued card exactly when no
   * suit is held twice, or every card belongs to a suit held twice.
   */
  lemma DiscardFallsBackToLowest(h: seq<Card>)
    requires |h| > 0
    requires !HasMultiSuit(h) || forall j :: 0 <= j < |h| ==> !IsLone(h, j)
    ensures DiscardChoice(h) == h[LowestIndex(h)]
  {
    FirstLoneFromFindsFirst(h, 0);
    var lone := FirstLoneFrom(h, 0);
    assert lone.None? || !HasMultiSuit(h);
  }

  /**
   * The heuristic never breaks up a suit held more than once while a card
   * of a suit held once is available.
   */
  lemma DiscardKeepsMultiSuits(h: seq<Card>, i: nat)
    requires i < |h| && IsLone(h, i)
    ensures SuitCount(h, DiscardChoice(h).suit) <= 1
  {
    FirstLoneFromFindsFirst(h, 0);
    var lone := FirstLoneFrom(h, 0);
    assert lone.Some?;
    if !HasMultiSuit(h) {
      var k := LowestIndex(h);
      assert !(SuitCount(h, h[k].suit) > 1);
    }
  }

  /** The engine's findLowestValueCard: a scan that keeps a strictly lower card. */
  method FindLowestValueCard(hand: seq<Card>) returns (lowest: Card)
    requires |hand| > 0
    ensures lowest == hand[LowestIndex(hand)]
    ensures forall j :: 0 <= j < |hand| ==> CardValue(lowest) <= CardValue(hand[j])
  {
    lowest := hand[0];
    ghost var k := 0;
    for i := 1 to |hand|
      invariant k == LowestIndex(hand[..i]) && lowest == hand[k]
    {
      assert hand[..i + 1][..i] == hand[..i];
      var current := hand[i];
      if CardValue(current) < CardValue(lowest) {
        lowest := current;
        k := i;
      }
    }
    assert hand[..|hand|] == hand;
    LowestIndexIsFirstMinimum(hand);
  }

  /** The first loop of chooseCardToDiscard: a count for every suit, zero included. */
  method CountSuits(hand: seq<Card>) returns (suitCounts: map<Suit, int>)
    ensures forall t: Suit :: t in suitCounts && suitCounts[t] == SuitCount(hand, t)
  {
    suitCounts := map[];
    for s := 0 to |AllSuits|
      invariant forall t :: t in AllSuits[..s] ==> t in suitCounts && suitCounts[t] == 0
    {
      suitCounts := suitCounts[AllSuits[s] := 0];
    }
    forall t: Suit ensures t in suitCounts && suitCounts[t] == SuitCount(hand[..0], t) {
      AllSuitsListsEverySuit(t);
    }

    for i := 0 to |hand|
      invariant forall t: Suit :: t in suitCounts && suitCounts[t] == SuitCount(hand[..i], t)
    {
      assert hand[..i + 1][..i] == hand[..i];
      var suit := hand[i].suit;
      suitCounts := suitCounts[suit := suitCounts[suit] + 1];
    }
    assert hand[..|hand|] == hand;
  }

  /** The second loop of chooseCardToDiscard: the suits held more than once, in suit order. */
  method MultiCardSuits(hand: seq<Card>, suitCounts: map<Suit, int>) returns (multiCardSuits: seq<Suit>)
    requires forall t: Suit :: t in suitCounts && suitCounts[t] == SuitCount(hand, t)
    ensures forall t :: t in multiCardSuits <==> SuitCount(hand, t) > 1
  {
    multiCardSuits := [];
    for j := 0 to |AllSuits|
      invariant forall t :: t in multiCardSuits <==> t in AllSuits[..j] && SuitCount(hand, t) > 1
    {
      assert AllSuits[..j + 1] == AllSuits[..j] + [AllSuits[j]];
      if suitCounts[AllSuits[j]] > 1 {
        multiCardSuits := multiCardSuits + [AllSuits[j]];
      }
    }
    assert AllSuits[..|AllSuits|] == AllSuits;
    forall t: Suit ensures t in multiCardSuits <==> SuitCount(hand, t) > 1 {
      AllSuitsListsEverySuit(t);
    }
  }

  /**
   * The engine's chooseCardToDiscard: count the cards per suit, collect
   * the suits held more than once, then scan for the first card outside
   * them, falling back to the lowest-valued card.
   */
  method ChooseCardToDiscard(hand: seq<Card>) returns (card: Card)
    requires |hand| > 0
    ensures card == DiscardChoice(hand)
    ensures card in hand
  {
    var suitCounts := CountSuits(hand);
    var multiCardSuits := MultiCardSuits(hand, suitCounts);

    if multiCardSuits != [] {
      assert SuitCount(hand, multiCardSuits[0]) > 1;
      for i := 0 to |hand|
        invariant forall j :: 0 <= j < i ==> !IsLone(hand, j)
      {
        if hand[i].suit !in multiCardSuits {
          DiscardPrefersFirstLoneCard(hand, i);
          return hand[i];
        }
      }
      DiscardFallsBackToLowest(hand);
      card := FindLowestValueCard(hand);
      return;
    }

    DiscardFallsBackToLowest(hand);
    card := FindLowestValueCard(hand);
  }
}
