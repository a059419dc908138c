# Thirty-One round engine in Dafny

This project models the round engine of a Thirty-One card-game simulator
(`ThirtyOneGame`) and the `Player` class whose lives it updates, and proves
properties of the model.

- A new round deals three cards to each player from a 52-card stockpile and
  turns up one discard.
- Players then take turns. In each turn a player draws from the stockpile
  (a stack) or the discard pile (a queue) and discards the card that a
  suit-based heuristic picks.
- When the stockpile runs out, the discard queue is recycled into it.
- A round ends when a player holds 31. It is then scored: after a knock,
  the players tied at the lowest hand value lose lives; without a knock,
  everyone not holding 31 loses a life.
- Players with no lives left are removed, and the others keep their order.

Modules:

- `Cards`: the card datatype and its point value.
- `DiscardPolicy`: the discard heuristic. Pure functions say which card is
  chosen. The methods follow the engine's loops and are proved to return
  that card.
- `Players`: the `Hand` and `Player` classes.
- `Piles`: one turn's card flow as values. It covers the draw, the discard
  and the recycling, and proves card conservation and ordering.
- `Scoring`: the minimum score, the list of losers, the lives each player
  loses, and the order-preserving removal of eliminated players.
- `Game`: the `ThirtyOneGame` class. Its fields are the players, the
  `stockpile` and `discardPile` sequences, and the round flags. Its methods
  change them in place and are proved against the functions above.

Pile layout: the stockpile's top is the LAST element of `stockpile`. The
discard queue's head, which is its oldest card, is the FIRST element of
`discardPile`.

The passes of a round are also described as values. A `RoundState` holds
the table (both piles and every hand, in player order) and the round
flags. `FirstPassMoves` and `LaterPassMoves` fold the moves of the first
and the later passes over the players in order. The pass methods are
proved to leave the engine in the state these folds give, and lemmas
state what the folds do: who moves, when the round ends, and that no card
is lost.

The code differs in places from a plain reading of the game's rules. The
model follows the code:

- A draw from the discard pile takes the queue's head, the OLDEST discard,
  not the most recent one (ThirtyOneGame.java:115).
- Recycling keeps that head as the only discard. It pushes the other
  discards onto the stockpile oldest first, so the newest ends on top
  (ThirtyOneGame.java:142-146).
- A knock only records the knocker (ThirtyOneGame.java:95-98). It never
  ends the round. `roundInProgress` becomes false only through
  `endRoundWithThirtyOne`, so after a knock play goes on until someone
  holds 31. The knocker keeps taking turns.
- The first pass ignores `roundInProgress`. Every player takes a turn even
  after someone has reached 31 (ThirtyOneGame.java:77-80).

## Model

| member | source | states |
|---|---|---|
| Cards.CardValue | src/main/java/edu/guilford/ThirtyOneGame.java:203-226 | A card is worth 11 exactly when it is an Ace, its face value for Two to Nine and 10 for Ten, Jack, Queen and King, so always between 2 and 11 |
| Cards.AllSuitsListsEverySuit | src/main/java/edu/guilford/ThirtyOneGame.java:156-158 | The suit enumeration the counts are set up over contains every suit |
| DiscardPolicy.SuitCountCounts | src/main/java/edu/guilford/ThirtyOneGame.java:160-165 | A suit's count never exceeds the hand size, and it is zero exactly when no card of the hand has that suit |
| DiscardPolicy.LowestIndex | src/main/java/edu/guilford/ThirtyOneGame.java:192-201 | The index of the lowest card is a position of the hand |
| DiscardPolicy.LowestIndexIsFirstMinimum | src/main/java/edu/guilford/ThirtyOneGame.java:192-201 | The selected card's value is at most every card's value, and every earlier card is strictly higher, so the strict comparison selects the first lowest card |
| DiscardPolicy.FirstLoneFrom | src/main/java/edu/guilford/ThirtyOneGame.java:178-183 | A card the scan finds lies at or after the starting position and inside the hand |
| DiscardPolicy.FirstLoneFromFindsFirst | src/main/java/edu/guilford/ThirtyOneGame.java:178-183 | The scan finds a card whose suit is held once exactly when there is one, and it finds the first such card |
| DiscardPolicy.DiscardChoice | src/main/java/edu/guilford/ThirtyOneGame.java:175-189 | The card the heuristic discards is one the hand holds |
| DiscardPolicy.DiscardPrefersFirstLoneCard | src/main/java/edu/guilford/ThirtyOneGame.java:175-183 | If some suit is held more than once, the first card in hand order whose suit is held once is discarded |
| DiscardPolicy.DiscardFallsBackToLowest | src/main/java/edu/guilford/ThirtyOneGame.java:184-189 | If no suit is held twice, or every card is in a suit held twice, the first lowest-valued card is discarded |
| DiscardPolicy.DiscardKeepsMultiSuits | src/main/java/edu/guilford/ThirtyOneGame.java:175-189 | While some card's suit is held only once, the discarded card's suit is held only once, so a suit group is never broken up |
| DiscardPolicy.FindLowestValueCard | src/main/java/edu/guilford/ThirtyOneGame.java:192-201 | The loop returns the first card of lowest value, and its value is at most every card's value |
| DiscardPolicy.CountSuits | src/main/java/edu/guilford/ThirtyOneGame.java:153-165 | The map has an entry for every suit, equal to the number of cards of that suit in the hand |
| DiscardPolicy.MultiCardSuits | src/main/java/edu/guilford/ThirtyOneGame.java:167-173 | A suit is in the list exactly when the hand holds more than one card of it |
| DiscardPolicy.ChooseCardToDiscard | src/main/java/edu/guilford/ThirtyOneGame.java:151-190 | The loops return the card the heuristic specifies (the first lone-suit card, or else the first lowest card), and that card is in the hand |
| Players.RemoveFirstRemovesOne | src/main/java/edu/guilford/ThirtyOneGame.java:126-127 | Removing a card the hand holds takes out exactly one copy of it and shortens the hand by one; removing an absent card changes nothing |
| Players.Hand.Reset | src/main/java/edu/guilford/ThirtyOneGame.java:60 | The hand is emptied before the deal |
| Players.Hand.AddCard | src/main/java/edu/guilford/ThirtyOneGame.java:123 | The new card is appended after the cards already held |
| Players.Hand.RemoveCard | src/main/java/edu/guilford/ThirtyOneGame.java:127 | The first copy of the card leaves the hand and the order of the rest is kept |
| Players.Player.constructor | src/main/java/edu/guilford/Player.java:8-12 | A new player keeps the given name, owns a new empty hand and has exactly 3 lives |
| Players.Player.GetName | src/main/java/edu/guilford/Player.java:14-16 | Returns the name given at construction |
| Players.Player.GetHand | src/main/java/edu/guilford/Player.java:18-20 | Returns the same hand object on every call, because the hand is fixed at construction |
| Players.Player.GetLives | src/main/java/edu/guilford/Player.java:22-24 | Returns the current lives |
| Players.Player.LoseLife | src/main/java/edu/guilford/Player.java:26-28 | Lives drop by exactly one with no lower bound, and name and hand are unchanged |
| Players.AllCardsUpdate | src/main/java/edu/guilford/ThirtyOneGame.java:123-128 | Replacing one hand's cards changes the pooled cards of all hands by exactly that exchange |
| Piles.Draw | src/main/java/edu/guilford/ThirtyOneGame.java:111-120 | The draw puts one card into the hand, which grows by one, and the two piles lose one card between them |
| Piles.DrawMovesOneCard | src/main/java/edu/guilford/ThirtyOneGame.java:111-123 | The draw takes the discard queue's head only when the coin says so and the queue is non-empty, and otherwise the stockpile's top. That card is appended to the hand, the other pile is untouched and no card is lost |
| Piles.Discard | src/main/java/edu/guilford/ThirtyOneGame.java:126-128 | The discard takes one card out of the hand and puts one more card on the piles |
| Piles.DiscardMovesChosenCard | src/main/java/edu/guilford/ThirtyOneGame.java:126-128 | The heuristic's card leaves the hand for the tail of the discard queue, the earlier discards and the stockpile stay as they were, and no card is lost |
| Piles.Recycle | src/main/java/edu/guilford/ThirtyOneGame.java:139-148 | Recycling keeps the number of cards in the piles, leaves exactly one discard, and does not touch the hand |
| Piles.RecycleKeepsHeadAndOrder | src/main/java/edu/guilford/ThirtyOneGame.java:139-148 | After recycling, the discard pile holds exactly its former head. Every other discard is pushed onto the stockpile in queue order, and no card is lost |
| Piles.AfterTurn | src/main/java/edu/guilford/ThirtyOneGame.java:109-148 | A whole turn gives the hand back its size, keeps the number of cards in the piles, and leaves a card on the discard pile |
| Piles.TurnConservesCards | src/main/java/edu/guilford/ThirtyOneGame.java:109-148 | The multiset of stockpile, discard pile and hand is the same after a turn as before |
| Piles.TurnKeepsSizes | src/main/java/edu/guilford/ThirtyOneGame.java:109-148 | A turn returns the hand to its size and keeps the pile count, and both piles hold a card afterwards when they held two cards |
| Piles.DiscardJoinsQueueTail | src/main/java/edu/guilford/ThirtyOneGame.java:126-128 | Without recycling, the discarded card ends as the tail of the discard queue |
| Piles.DiscardTopsRecycledStock | src/main/java/edu/guilford/ThirtyOneGame.java:128-146 | With recycling, the card just discarded ends on top of the stockpile. When it was the only discard, the stockpile stays empty and the card stays as the only card of the discard queue |
| Scoring.MinScoreIsMinimum | src/main/java/edu/guilford/ThirtyOneGame.java:241-253 | The scan from Integer.MAX_VALUE finds a score no other score is below, and it is one of the scores when there are any |
| Scoring.MinScore | src/main/java/edu/guilford/ThirtyOneGame.java:241-253 | With no players the scan ends at Integer.MAX_VALUE, its starting value |
| Scoring.Tied | src/main/java/edu/guilford/ThirtyOneGame.java:244-253 | The list of losers is never longer than the list of players |
| Scoring.TiedAreTheScorers | src/main/java/edu/guilford/ThirtyOneGame.java:244-253 | The losers are players, and every player scoring the given value is among them |
| Scoring.TiedSelectsScore | src/main/java/edu/guilford/ThirtyOneGame.java:244-253 | With distinct players, the losers are distinct, and a player is a loser exactly when it has the given score |
| Scoring.TiedBelowAllIsEmpty | src/main/java/edu/guilford/ThirtyOneGame.java:246-249 | When a new lower score is found, nobody seen so far ties it, so restarting the list of losers loses nobody |
| Scoring.LifeLoss | src/main/java/edu/guilford/ThirtyOneGame.java:255-274 | No player loses more than two lives in a round |
| Scoring.KnockPenalisesExactlyTheLowest | src/main/java/edu/guilford/ThirtyOneGame.java:239-265 | After a knock, a player loses lives exactly when no other score is lower |
| Scoring.KnockerPaysDouble | src/main/java/edu/guilford/ThirtyOneGame.java:256-265 | After a knock, the knocker loses 2 lives exactly when it has the lowest score, and every other lowest player loses 1 |
| Scoring.KnockPenalisesSomeone | src/main/java/edu/guilford/ThirtyOneGame.java:239-265 | After a knock, at least one player loses a life |
| Scoring.NoKnockPenalisesAllButThirtyOne | src/main/java/edu/guilford/ThirtyOneGame.java:266-274 | Without a knock, a player loses no life exactly when it holds 31, and otherwise loses one |
| Scoring.Survivors | src/main/java/edu/guilford/ThirtyOneGame.java:277 | Removing eliminated players never adds a player |
| Scoring.SurvivorsAreTheLiving | src/main/java/edu/guilford/ThirtyOneGame.java:277 | The remaining players are exactly the players with lives above zero |
| Scoring.SurvivorsKeepOrder | src/main/java/edu/guilford/ThirtyOneGame.java:277 | The remaining players keep their relative order |
| Scoring.SurvivorsKeepHandsDistinct | src/main/java/edu/guilford/ThirtyOneGame.java:277 | Removing players keeps the remaining players distinct |
| Game.DealtHand | src/main/java/edu/guilford/ThirtyOneGame.java:59-63 | Each player is dealt exactly three cards |
| Game.Deals | src/main/java/edu/guilford/ThirtyOneGame.java:58-64 | The deal produces one hand per player |
| Game.DealsAreDealtHands | src/main/java/edu/guilford/ThirtyOneGame.java:58-64 | The hand dealt to player i is the three cards popped off the stockpile after the 3i cards popped for the players before it |
| Game.DealOneMore | src/main/java/edu/guilford/ThirtyOneGame.java:59-63 | Dealing one more hand moves exactly that hand from the stockpile to the dealt cards |
| Game.DealConservesCards | src/main/java/edu/guilford/ThirtyOneGame.java:58-64 | The cards left on the stockpile and the hands dealt so far together make up the whole deck |
| Game.DealtRoundHoldsDeck | src/main/java/edu/guilford/ThirtyOneGame.java:53-67 | Right after the deal, stockpile, discard pile and all hands together are the 52-card deck |
| Game.ShouldKnock | src/main/java/edu/guilford/ThirtyOneGame.java:228-231 | A player never knocks below 25, and at 25 or more it knocks exactly when the random draw succeeds |
| Game.TurnAt | src/main/java/edu/guilford/ThirtyOneGame.java:109-148 | A turn on the table keeps one hand per player, and the stockpile still holds a card to draw |
| Game.FirstMove | src/main/java/edu/guilford/ThirtyOneGame.java:77-80 | A first-pass move keeps one hand per player and a stockpile to draw from |
| Game.FirstPassMoves | src/main/java/edu/guilford/ThirtyOneGame.java:76-80 | The first k moves of the first pass keep one hand per player and a stockpile to draw from |
| Game.LaterMove | src/main/java/edu/guilford/ThirtyOneGame.java:84-101 | A later-pass move keeps one hand per player and a stockpile to draw from |
| Game.LaterMoveEffects | src/main/java/edu/guilford/ThirtyOneGame.java:84-101 | A later move changes nothing once the round is over, ends the round only when the mover then holds 31, and touches no other player's hand |
| Game.LaterPassMoves | src/main/java/edu/guilford/ThirtyOneGame.java:84-102 | The first k moves of a later pass keep one hand per player and a stockpile to draw from |
| Game.FirstPassEnds | src/main/java/edu/guilford/ThirtyOneGame.java:76-80 | After the first k moves of the first pass, the round is in progress exactly when it was before and none of those k players holds 31 |
| Game.FirstPassHands | src/main/java/edu/guilford/ThirtyOneGame.java:76-80 | In the first pass a hand changes only at its owner's move. Before that move it is as it was, and after it the hand is as that move left it |
| Game.FirstPassEveryoneMovesOnce | src/main/java/edu/guilford/ThirtyOneGame.java:76-80 | In the first pass, player j takes exactly one turn, from its dealt hand and the piles the players before it left, and keeps the resulting hand to the end of the pass |
| Game.TurnAtConservesCards | src/main/java/edu/guilford/ThirtyOneGame.java:109-148 | A turn keeps the multiset of stockpile, discard pile and all hands: no card is lost or duplicated |
| Game.FirstPassConservesCards | src/main/java/edu/guilford/ThirtyOneGame.java:76-80 | The first pass loses and duplicates no card |
| Game.LaterPassConservesCards | src/main/java/edu/guilford/ThirtyOneGame.java:84-102 | A later pass loses and duplicates no card |
| Game.LaterPassStops | src/main/java/edu/guilford/ThirtyOneGame.java:85-86 | Once the round is over, the remaining moves of a later pass change nothing |
| Game.LaterPassLeavesLaterHands | src/main/java/edu/guilford/ThirtyOneGame.java:84-102 | The moves before player j's leave player j's hand as it was |
| Game.LaterPassEnds | src/main/java/edu/guilford/ThirtyOneGame.java:84-102 | A later pass that ends the round ends it at a player h, who was reached with the round in progress and then holds 31, and the moves after h's change nothing |
| Game.LaterPassEndsAtThirtyOne | src/main/java/edu/guilford/ThirtyOneGame.java:84-102 | A later pass that ends the round was ended by a player h holding 31, and every player after h keeps its hand unchanged |
| Game.LaterPassKnocksOnce | src/main/java/edu/guilford/ThirtyOneGame.java:95-98 | A later pass never replaces an earlier knock, and a knock it records is by one of the players who moved |
| Game.ThirtyOneGame.constructor | src/main/java/edu/guilford/ThirtyOneGame.java:24-37 | For 2 to 16 players, it creates players named "Player 1" to "Player n", each with 3 lives and an empty hand of its own, and no round in progress |
| Game.ThirtyOneGame.LoadStockpile | src/main/java/edu/guilford/ThirtyOneGame.java:53-56 | The stockpile holds the deck in deal order, with the last card dealt on top |
| Game.ThirtyOneGame.DealHand | src/main/java/edu/guilford/ThirtyOneGame.java:59-63 | Player i's hand is emptied and receives the next three cards popped off the stockpile, which shrinks by three |
| Game.ThirtyOneGame.DealHands | src/main/java/edu/guilford/ThirtyOneGame.java:58-64 | Each player in turn receives its three cards, and the stockpile keeps the deck minus 3n cards |
| Game.ThirtyOneGame.DealRound | src/main/java/edu/guilford/ThirtyOneGame.java:45-67 | After the deal, the discard pile has one card, the stockpile has 52-3n-1, the two piles together are the undealt part of the deck, and each hand is its dealt three cards |
| Game.ThirtyOneGame.StartNewRound | src/main/java/edu/guilford/ThirtyOneGame.java:39-71 | It deals as DealRound states, sets the round in progress with no knock and no knocker, and makes the first player current; the round invariant holds afterwards |
| Game.ThirtyOneGame.EndRoundWithThirtyOne | src/main/java/edu/guilford/ThirtyOneGame.java:233-236 | The round is no longer in progress |
| Game.ThirtyOneGame.DrawCard | src/main/java/edu/guilford/ThirtyOneGame.java:111-120 | The piles change as the pure draw says, and the returned card is the one drawn |
| Game.ThirtyOneGame.RecycleDiscardPile | src/main/java/edu/guilford/ThirtyOneGame.java:139-148 | The queue's head stays as the only discard, and the other discards are appended to the stockpile in queue order |
| Game.ThirtyOneGame.DrawAndDiscard | src/main/java/edu/guilford/ThirtyOneGame.java:111-128 | Piles and hand change as the pure draw followed by the pure discard say, and the hand keeps its size |
| Game.ThirtyOneGame.MoveTurnCards | src/main/java/edu/guilford/ThirtyOneGame.java:111-148 | Piles and hand end as the pure model of a whole turn says, and both piles hold a card |
| Game.ThirtyOneGame.PlayTurn | src/main/java/edu/guilford/ThirtyOneGame.java:109-149 | Piles and the current hand end as the pure turn says, the round stays in progress exactly when it was and the hand is not worth 31, and the round invariant is kept |
| Game.ThirtyOneGame.PlayTurnAt | src/main/java/edu/guilford/ThirtyOneGame.java:78-79 | The current player i takes a whole turn, and the new state is player i's first-pass move applied to the state before |
| Game.ThirtyOneGame.PlayFirstTurn | src/main/java/edu/guilford/ThirtyOneGame.java:77-80 | Player i becomes current and takes a whole turn whether or not the round is still in progress. The new state is the first-pass move of player i applied to the state before |
| Game.ThirtyOneGame.FirstPassTurns | src/main/java/edu/guilford/ThirtyOneGame.java:77-80 | The loop of the first pass ends in the state the first-pass fold gives, with the last player current |
| Game.ThirtyOneGame.FirstPass | src/main/java/edu/guilford/ThirtyOneGame.java:76-80 | The piles, hands and round flag end as the first-pass fold says: every player in order takes one turn from the piles the players before it left. The last player is current afterwards. A round that ends during the pass was ended by a player holding 31, and no round restarts |
| Game.ThirtyOneGame.PlayLaterTurn | src/main/java/edu/guilford/ThirtyOneGame.java:84-101 | The new state is the later-pass move of player i. A hand worth 31 ends the round with nothing else changed. Otherwise a first knock by a player at 25 or more records the knocker and leaves cards and round state as they were. Otherwise the player takes a whole turn, and the round stays in progress exactly when the new hand is not worth 31 |
| Game.ThirtyOneGame.PlayPassMoves | src/main/java/edu/guilford/ThirtyOneGame.java:84-102 | The loop of a later pass ends in the state the later-pass fold gives, stopping early once the round is over |
| Game.ThirtyOneGame.PlayPass | src/main/java/edu/guilford/ThirtyOneGame.java:84-102 | The piles, hands and round flags end as the later-pass fold says. Once the round is over nothing changes. An earlier knocker is never changed, and a knocker is recorded only if none was. A round that ends during the pass was ended by a player h holding 31, and no player after h moved |
| Game.ThirtyOneGame.FindLosers | src/main/java/edu/guilford/ThirtyOneGame.java:240-253 | The loop returns the minimum score and, in player order, exactly the players at that score |
| Game.ThirtyOneGame.PenaliseLosers | src/main/java/edu/guilford/ThirtyOneGame.java:255-265 | Each loser loses two lives if it is the knocker and one otherwise |
| Game.ThirtyOneGame.PenaliseAllButThirtyOne | src/main/java/edu/guilford/ThirtyOneGame.java:266-274 | Every player loses exactly the lives LifeLoss prescribes without a knock: one if its hand is not worth 31, none otherwise |
| Game.ThirtyOneGame.ApplyLifeLosses | src/main/java/edu/guilford/ThirtyOneGame.java:239-274 | Each player loses exactly the lives LifeLoss prescribes for the round's scores, knock and knocker |
| Game.ThirtyOneGame.RemoveEliminated | src/main/java/edu/guilford/ThirtyOneGame.java:276-277 | The players become the survivors in their old order, and every remaining player has between 1 and 3 lives |
| Game.ThirtyOneGame.EvaluateRound | src/main/java/edu/guilford/ThirtyOneGame.java:238-277 | Every player loses the lives LifeLoss prescribes, then exactly the players with lives left remain in order, each with 1 to 3 lives |

## Left out

- Console output: all the narration printed by the engine and by `Player.toString` is logging and is not modelled.
- `java.util.Random`: `nextBoolean` (the draw coin) and the knock draw `nextDouble() < 0.7` are boolean inputs. The floating-point comparison is not modelled.
- `Deck`: its build, shuffle and deal are not part of this model. A new round takes the shuffled deck as an input sequence of 52 cards in the order `deal()` returns them.
- `Hand.java` and `Card.java` are not part of this model, so `Cards.Card` and `Players.Hand` give them minimal semantics. A card is a suit and a rank compared by value. A hand is an object holding a sequence of cards. `addCard` is taken to append at the end, and `getCard(i)` to read position i of that order; the discard heuristic's choice among equal cards depends on this order. `removeCard` is taken to remove the first equal card. `getTotalValue` is the function `handValue` that the game is built with, so the 31 formula is not claimed.
- `playRound` and `playGame` are not modelled. `playRound`'s `while (roundInProgress)` and `playGame`'s `while (players.size() > 1)` loops stop only on a random event, and a knock never ends a round, so their termination cannot be proved. The model covers the deal, the first pass, one later pass and the round evaluation as separate operations.
- The constructor's `IllegalArgumentException` for fewer than 2 or more than 16 players becomes the precondition 2 <= n <= 16.
- Game.ThirtyOneGame.InRound: keeps only the card count of the table (piles plus 3 per hand is 52), not the multiset. Card conservation is proved on the pure model instead: DealtRoundHoldsDeck covers the deal and TurnAtConservesCards covers each turn.
- Game.ThirtyOneGame.PlayTurn: the check for 31 happens after recycling rather than before it. Recycling touches neither the hand nor the round flag, so the result is the same.
- Game.ThirtyOneGame.PlayPass: it does not state which player is current at the end of the pass. The engine makes each player current as it moves, and the fold of later-pass moves does not track the current player.
- Players.Player.LoseLife: 32-bit wrap-around of `lives` is not modelled. Lives start at 3, drop by at most 2 per round, and players at 0 or below are removed after each round, so the value never comes near the `int` range.
