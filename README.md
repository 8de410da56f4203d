# TCG-Client game state, modelled in Dafny

TCG-Client is a two-player trading-card-game table. Its game-state engine
(`src/state.rs`) holds one card layout per player and an input mode. A layout
has six Pokémon slots with damage counters, a hand, a discard pile, a deck
whose last card is the top, a lost zone, prizes with a face-up flag and a
stadium pile. Every key press reaches `State::update`, which does two things:

- it moves the cursor or the multi-selection in Selecting, Deck, DeckSearch,
  Swap or Move mode;
- it changes the viewed layout: it flips prizes, changes damage, draws,
  shuffles, swaps slots, or moves a batch of cards from one place to another.

This project is a model of that engine with proofs about it.

- `Selections`, `Modes` and `Layouts` hold the engine's records as datatypes:
  addresses, cursor states, input modes and layouts. The pure helpers are
  functions on them.
- The loops of the source become methods whose loops carry invariants:
  - the prize loop of `setup`;
  - the flip and damage loops;
  - the `while let … pop()` removal loops of `handle_move`;
  - the `insert(0, …)` delivery loop.

  Each of these methods is proved equal to a specification function.
- `Steps.Step` is one call of `update` as a function on the whole game
  (`Steps.Game`).
- `GameState.State` is the Rust `State` as a class whose methods update its
  fields in place. `State.Update` is proved to leave exactly the state
  `Step` gives.

The lemmas about `Step` state what the engine promises:

- no card is ever created, destroyed or handed to the other player;
- the layout that is not on screen is never touched;
- every cursor stays inside the viewed layout;
- Cancel out of a Move is an undo;
- the DeckSearch cursor can reach one past the last card, and a Move from
  there panics before anything changes.

Randomness is a parameter. The shuffle of `setup` and of Shuffle is any
rearrangement the caller supplies (same multiset of cards). The die roll is
any value in 1..6.

Notes on what `handle_move` and the default cursor do:

- A Move delivered by appending puts the removed cards in removal order,
  which is descending original index: moving hand cards 0, 2 and 4 to the
  discard pile appends them as 4, 2, 0 (`Transfer.MoveHandToDiscardExample`).
- The default cursor `Slot(0, None)` is used whatever slot 0 holds, so a
  `None` inner index does not mean the slot is empty. The cursor invariant
  (`Modes.SelectingValid`) therefore only demands that the address exists:
  `Some(k)` must name a card, and `None` must name an existing slot.

## Model

| member | source | states |
|---|---|---|
| Selections.DeepestIndex | src/state.rs:80-90 | A slot address gives its inner card index (possibly none); every other address gives its plain index. |
| Selections.ChangeDeepestIndex | src/state.rs:92-112 | The variant and the slot number never change. An empty-slot address comes back unchanged, and so does index 0 under a negative change. Otherwise the inner index moves by exactly `change`. |
| Selections.RightThenLeft | src/state.rs:92-112 | A step of +1 followed by a step of -1 returns the address it started from. |
| Selections.SelectionLessIsStrictTotalOrder | src/state.rs:44-71 | The derived `Ord` of `Selection` (variant first, then fields; `None` before `Some`) is a strict total order. |
| Selections.SameZoneOrder | src/state.rs:44-71 | Within one zone (one pile, or one slot's stack) addresses are ordered by their inner index. |
| Selections.SelectingState.ChangeHighlight | src/state.rs:124-129 | The cursor becomes the new address and the selection is kept. |
| Selections.SelectingState.ClearSelected | src/state.rs:131-136 | The selection becomes empty and the cursor stays. |
| Selections.SelectingState.AddToSelection | src/state.rs:138-143 | The cursor joins the selection, nothing else joins it, and the cursor does not move. |
| Selections.AddToSelectionIdempotent | src/state.rs:138-143 | Selecting the cursor twice is the same as selecting it once. |
| Ordering.SortedSet | src/state.rs:634-636 | `collect` then `sort()` on a set gives every element of the set exactly once, in strictly ascending order. |
| Ordering.SortedUnique | src/state.rs:656-658 | Two strictly sorted sequences with the same elements are equal, so the order the sort leaves is determined by the set alone. |
| Piles.RemoveAt | src/state.rs:640-646 | `Vec::remove(i)` keeps the elements below `i`, shifts the later ones down by one, and loses exactly the element at `i`. |
| Piles.SwapAt | src/state.rs:568-569 | `Vec::swap` exchanges the two elements, leaves every other position in place and keeps the multiset. |
| Piles.WithoutThenRemove | src/state.rs:635-637 | Suppose only positions above `i` have already been taken out. Then `remove(i)` still finds the original element, and it leaves the pile with exactly those positions and `i` taken out. This is why removing in descending order is sound. |
| Piles.ReversedIndex | src/state.rs:690-693 | Inserting at index 0 card by card leaves the `k`-th element equal to the `k`-th from the end of the input. |
| Piles.ReversedMultiset | src/state.rs:690-693 | Inserting at the front card by card keeps the multiset of cards. |
| Layouts.HighlightedListLength | src/state.rs:266-277 | The length is always present. It is the length of the addressed pile: the slot's cards, the hand, the discard pile, the lost zone, the prizes or the stadium. For an address with an inner index, the address names a card exactly when that index is below this length. |
| Layouts.CardUnder | src/state.rs:638-647 | The card an address gives up when moved. It is absent exactly for an empty-slot address, and a prize gives its card whether face up or not. |
| Layouts.SlotsCardsSwap | src/state.rs:568-569 | Exchanging two slots wholesale keeps the multiset of cards on the board. |
| Layouts.TopFaceDown | src/state.rs:240-244 | The `j`-th prize laid out is the `j`-th card from the top of the deck, face down. |
| Layouts.SetupLayout | src/state.rs:237-245 | The loop's result is the shuffled deck less its top six cards (or all of them when fewer remain). Those cards are added after the existing prizes, face down, top card first. From a deck of at least six, the deck shrinks by six and the prizes grow by six. The layout keeps all its cards. |
| Layouts.SetUpLayout | src/state.rs:237-245 | From a deck of at least six, the deck shrinks by six and the prizes grow by six. From a smaller deck, every card becomes a prize. Nothing but the deck and the prizes changes. |
| Layouts.SetUpDealsFromTop | src/state.rs:237-245 | The deck left is the bottom of the shuffled deck. The old prizes stay in front, and the `j`-th new prize is the `j`-th card from the top, face down. |
| Layouts.SetUpKeepsCards | src/state.rs:237-245 | Laying out prizes from the top of the (shuffled) deck keeps the layout's multiset of cards. |
| Layouts.Drawn | src/state.rs:451-458 | Drawing moves the last deck card onto the end of the hand: the deck loses one card and the hand gains it. An empty deck draws nothing, no other pile changes and no card is lost. |
| Layouts.FlipPrizes | src/state.rs:372-386 | The loops toggle the face-up flag of exactly the prizes whose address is selected. No prize changes card and the prize count stays the same. |
| Layouts.FlipTwice | src/state.rs:372-386 | Flipping the same selection twice restores every prize, and flipping keeps the prize cards. |
| Layouts.CollectSlotsToAffect | src/state.rs:390-398 | The collected list holds each slot once for every selected card address in that slot, and nothing else. |
| Layouts.AdjustDamage | src/state.rs:389-411 | Each slot's damage rises by its number of selected cards (Increment), or falls by that number but not below 0 (Decrement). Cards and all other slots are unchanged. |
| Layouts.IncrementThenDecrement | src/state.rs:400-404 | Decrement undoes Increment for the same selection. The reverse order restores the slots only when no counter would have stopped at 0. |
| Modes.ZoneEntry | src/state.rs:315-370 | A slot key enters slot `u-1` only when `1 <= u <= 6`. It gives `Slot(u-1, None)` when that slot is empty and `Slot(u-1, Some(0))` otherwise. A pile key enters index 0 of its pile only when the pile is non-empty. Every entered address exists. |
| Modes.StepRight | src/state.rs:331-345 | Right moves exactly when `deepest_index + 1 < highlighted_list_length`. It moves by one inside the same zone and keeps a valid cursor valid. For an address with an index, the cursor changes exactly when the next index still names a card. |
| Modes.SelectingNextValid | src/state.rs:325-441 | Every Selecting input except SwitchSides leaves a cursor and a selection that exist in the layout. |
| Modes.LeftRightInSelecting | src/state.rs:327-345 | Left at index 0 and Right at the last card (or on an empty slot) change nothing. Neither touches the selection, and Left undoes a Right that moved. |
| Modes.SelectThenCancel | src/state.rs:413-415 | Select adds the cursor, and selecting again changes nothing. Cancel empties the selection and keeps the cursor. |
| Modes.DeckNext | src/state.rs:445-519 | Cancel returns to default Selecting. Select opens DeckSearch at position 0 with nothing selected. A zone key enters that zone from a fresh cursor, or stays in Deck when the zone cannot be entered. Every other key (Deck, Shuffle and the rest) stays in Deck. |
| Modes.SelectingNext | src/state.rs:325-444 | Left and Right move the cursor (Right only inside its pile). Select adds the cursor to the selection and Cancel empties it. Move starts an Any Move from this state, Swap starts a Swap, Deck enters Deck mode and SwitchSides resets the cursor. A zone key jumps there when it can be entered and otherwise changes nothing, and so does every other key. |
| Modes.DeckSearchNext | src/state.rs:520-542 | Cancel returns to the deck view. Select adds the highlighted card to the selection. Move enters Move mode awaiting any target, coming from this search. Left stops at 0 and Right stops at the deck length, one past the last card. Every other key leaves the search unchanged. The selection is kept, and a valid search stays valid. |
| Modes.SearchRightReachesPastEnd | src/state.rs:527-535 | From the last deck position, Right puts the cursor at the deck length, a position with no card. |
| Modes.ResolveMove | src/state.rs:593-626 | Cancel restores the saved mode. A valid slot number waits for that slot, and an invalid one keeps the Move. Under `SlotSpecific`, exactly Append and Prepend proceed, to that slot. Under `Any`, exactly Top, Bottom, Hand, Discard, LostZone and Stadium proceed, and only Bottom prepends. Top and Bottom deliver to the deck and each other key to its own pile. Any other input keeps the Move. |
| Modes.CancelUndoesMove | src/state.rs:593-599 | Cancel right after starting a Move from Selecting or DeckSearch restores exactly the mode the Move started from. |
| Modes.ResolveMoveValid | src/state.rs:601-614 | A restored or waiting mode is valid again, and a slot destination exists. |
| Modes.SwapNext | src/state.rs:554-580 | Cancel returns to default Selecting. An invalid slot number or another key changes nothing. The first valid slot is recorded, and the second returns to default Selecting. |
| Modes.SwapNextValid | src/state.rs:554-580 | Swap mode stays valid. |
| Transfer.RemoveAddress | src/state.rs:638-647 | One removal step yields exactly the card under the address (none for an empty slot). It leaves the slot count and the deck alone. |
| Transfer.RemoveAddressKeepsCards | src/state.rs:638-650 | What one removal step takes out of the layout is exactly the card it yields. |
| Transfer.SortedAddresses | src/state.rs:634-636 | The sorted move set lists every address of the set exactly once, ascending in the derived order. |
| Transfer.SortedIndices | src/state.rs:656-658 | The sorted deck positions list every chosen position exactly once, ascending. |
| Transfer.MoveSet | src/state.rs:633 | The move set is the selection plus the cursor, and nothing else. |
| Transfer.TakeMoveSet | src/state.rs:630-651 | The removal loop from Selecting leaves the layout with exactly the move set taken out, every pile in its original relative order. The cards come out in descending address order, and the layout plus the collected cards hold the original cards. |
| Transfer.PopStep | src/state.rs:637-650 | Each pop finds a still-valid address holding its original card, and extends the removal by that address. |
| Transfer.RemoveAllKeepsCards | src/state.rs:637-651 | The layout without the move set, plus the collected cards, is the original multiset of cards. |
| Transfer.TakeDeckIndices | src/state.rs:654-661 | The removal from DeckSearch panics exactly when a chosen position has no card, and then nothing has changed. Otherwise the deck loses exactly the chosen positions and the cards come out highest position first. No card is lost either way. |
| Transfer.RemovePositions | src/state.rs:659-661 | The pop-and-remove loop over ascending positions stops at a position past the end. Otherwise it removes exactly those positions and collects their cards, highest first. |
| Transfer.DeckLoopBound | src/state.rs:659-660 | Only the first position popped (the highest) can lie past the end of the deck. |
| Transfer.DeckPopStep | src/state.rs:659-660 | After the higher positions are gone, `remove` of the next one finds its original card and extends the removal. |
| Transfer.DeckTakenKeepsCards | src/state.rs:659-661 | The deck left plus the cards taken is the original deck, as a multiset. |
| Transfer.DeliverCards | src/state.rs:690-696 | Append puts the collected cards after the pile in collection order. Prepend leaves them reversed in front of the untouched pile. The multiset of cards is the pile's plus the collected cards. |
| Transfer.DeliveredKeepsCards | src/state.rs:690-696 | Delivery adds exactly the collected cards to the pile. |
| Transfer.WithPile | src/state.rs:669-688 | Only the destination pile is replaced. Every other pile, every damage counter and every prize stays as it was. |
| Transfer.WithPileKeepsCards | src/state.rs:669-696 | Replacing the destination pile changes the layout's cards by exactly the difference between the old and new pile. |
| Transfer.MovedFromSelecting | src/state.rs:628-697 | The destination pile is what the removal left of it, with the collected cards delivered. Every other pile is what the removal left, and the prizes lose exactly their selected positions. The deck is touched only as the destination, and no damage counter changes. |
| Transfer.MovedFromDeck | src/state.rs:654-697 | The destination receives the collected deck cards. The deck loses exactly the chosen positions (when it is not the destination), and every other pile, the prizes and the damage counters stay as they were. |
| Transfer.DeckMoving | src/state.rs:654-661 | One card is collected for every chosen deck position. |
| Transfer.MoveFromSelectingKeepsCards | src/state.rs:628-697 | A Move from Selecting neither loses nor creates a card, even when the destination itself loses cards. |
| Transfer.MoveFromDeckKeepsCards | src/state.rs:628-697 | A Move from DeckSearch that does not panic neither loses nor creates a card. |
| Transfer.MoveHandToDiscardExample | src/state.rs:637-650 | Moving hand cards 0 and 2 with the cursor on 4 to the discard pile leaves the hand as cards 1 and 3, and appends the cards as 4, 2, 0. |
| Transfer.MoveHandToBottomExample | src/state.rs:690-693 | The same Move to the bottom of the deck puts the cards in front of the deck as 0, 2, 4. |
| Steps.Opponent | src/state.rs:428-432 | SwitchSides always hands the screen to the other player. |
| Steps.WithLayout | src/state.rs:258-264 | Writing the viewed layout changes that player's layout only. |
| Steps.FreshLayout | src/state.rs:215-232 | A layout built around a deck has six empty slots with no damage, nothing outside the deck, and exactly the deck's cards. |
| Steps.Made | src/state.rs:215-232 | `make` from two 60-card decks gives a valid game in which each player holds exactly their deck's cards, in the deck, with six empty undamaged slots and every other pile empty. Player 1 is on screen, in default Selecting, with no alert. |
| Steps.SetUp | src/state.rs:235-248 | `setup` keeps the viewed player, the mode and the alert. Each player whose shuffle is a rearrangement of their deck keeps exactly their cards. |
| Steps.SetUpKeepsValid | src/state.rs:235-248 | `setup` in Selecting mode keeps the game valid. |
| Steps.MadeThenSetUp | src/state.rs:215-248 | After `make` and `setup`, each deck holds 54 cards and each player has 6 face-down prizes. Each player still holds exactly their own cards, and the game is valid. |
| Steps.PanicOf | src/state.rs:307-666 | Selecting, DeckSearch and Swap never panic. Deck panics exactly on Observe, and Look always panics, both unimplemented. A Move panics as unimplemented exactly when it would transfer out of Look. It panics out of bounds exactly when a DeckSearch move set names a position past the deck. |
| Steps.NextLayout | src/state.rs:325-698 | DeckSearch and Look never change the layout. Selecting changes only prize flags and damage counters, and only on Flip, Increment or Decrement. Deck changes only the deck and hand, keeping their cards. Swap only permutes the slots. A Move that does not transfer leaves the layout alone. |
| Steps.TransferFromSelecting | src/state.rs:628-651 | A transferring Move from Selecting never panics; its destination exists, and the step leaves `Transfer.MovedFromSelecting`. |
| Steps.TransferFromDeck | src/state.rs:654-661 | A transferring Move from DeckSearch panics out of bounds exactly when a chosen position is past the deck. Otherwise the step leaves `Transfer.MovedFromDeck`. |
| Steps.NextMode | src/state.rs:325-582 | A completed transfer returns to the default Selecting or DeckSearch cursor, whichever mode the Move started from. Cancel in a Move restores the saved mode, and Deck mode follows `DeckNext`. |
| Steps.AlertOf | src/state.rs:307-476 | The alert is cleared on every step. It becomes Shuffled exactly on Shuffle in Deck mode, and the die roll exactly on Roll in Selecting mode. |
| Steps.Step | src/state.rs:307-583 | A step panics exactly in the panic cases, and a panicking step changes nothing but the cleared alert. The layout of the player off screen is never touched. |
| Steps.StepKeepsValid | src/state.rs:307-583 | Every completed step keeps both players at six slots and every cursor inside the viewed layout. |
| Steps.NextModeValid | src/state.rs:325-582 | Except for SwitchSides, the next mode is valid in the next layout. |
| Steps.StepKeepsCards | src/state.rs:307-698 | No step creates, destroys or hands over a card: each player's multiset of cards is unchanged. |
| Steps.NextLayoutKeepsCards | src/state.rs:325-698 | Every step that does not panic leaves the viewed layout with the same cards. |
| Steps.MoveThenCancel | src/state.rs:593-599 | Move then Cancel from Selecting gives back the game as it was, with the alert cleared. |
| Steps.MoveFromSearchThenCancel | src/state.rs:593-599 | Move then Cancel from DeckSearch gives back the game, search state included, with the alert cleared. |
| Steps.SearchPastEndPanics | src/state.rs:527-660 | Right from the last deck position, then Move, then Top, ends in `Vec::remove`'s out-of-bounds panic with nothing changed. |
| Steps.SwitchSidesTwice | src/state.rs:428-434 | SwitchSides twice puts the first player back on screen in default Selecting with both layouts untouched. |
| Steps.SwapSecondSlot | src/state.rs:559-577 | The second valid slot number in Swap mode exchanges the two slots wholesale and changes nothing else. It returns to default Selecting. |
| Steps.MoveIgnoresOtherInput | src/state.rs:601-626 | In Move mode, an input the awaited input does not accept changes nothing but the cleared alert. |
| Steps.SelectingEditsKeepMode | src/state.rs:372-441 | Flip, Increment, Decrement and Roll keep the mode, cursor and selection. Flip changes only the prizes and the damage keys only the slots. Roll alone raises the die alert. |
| GameState.State.CurrentLayout | src/state.rs:250-256 | The layout of the player on screen. |
| GameState.State.constructor | src/state.rs:215-232 | A new state is the game `make` builds, and it is valid. |
| GameState.State.Setup | src/state.rs:235-248 | The fields become `setup` of the old state. A valid state in Selecting mode stays valid. |
| GameState.State.CardAt | src/state.rs:279-299 | `card_at` shows nothing exactly for an empty-slot address or a face-down prize. Otherwise it shows the card under the address. |
| GameState.State.DeckCardAt | src/state.rs:301-305 | `deck_card_at` shows the deck card at a position exactly when the position is below the deck length. |
| GameState.State.SetCurrentLayout | src/state.rs:258-264 | Only the viewed player's layout field is rewritten. |
| GameState.State.Update | src/state.rs:307-583 | The new fields and the outcome are those of `Step`. A completed update is valid, and both players keep their cards. |
| GameState.NewLayout | src/state.rs:325-581 | The branch on the mode panics exactly as `Step` does, and otherwise yields the layout `Step` gives. |
| GameState.SelectingLayout | src/state.rs:372-411 | Flip, Increment and Decrement rewrite the layout as `Step` does. |
| GameState.DeckLayout | src/state.rs:451-476 | Deck draws and Shuffle replaces the deck with its shuffle, as `Step` does. |
| GameState.SwapLayout | src/state.rs:559-577 | The second valid slot exchanges the slots as `Step` does. |
| GameState.MoveOutOfLayout | src/state.rs:628-697 | The removal loop and the delivery from Selecting leave exactly `Transfer.MovedFromSelecting`. |
| GameState.MoveOutOfDeck | src/state.rs:654-697 | The deck removal panics exactly when a chosen position is past the deck. Otherwise removal and delivery leave exactly `Transfer.MovedFromDeck`. |
| GameState.MoveLayout | src/state.rs:585-698 | `handle_move` panics exactly as `Step` does, and otherwise takes out and delivers the cards as `Step` does. |

## Left out

- SDL drawing, texture loading, the window and the event loop (`src/draw_board.rs`, `src/load_cards.rs`, `src/main.rs`, `src/display_constants.rs`) are I/O with no game state. The key table of `src/input.rs` is left out too; only the `Input` enum is modelled.
- `thread_rng`: the shuffles of `setup` and Shuffle are parameters, any rearrangement of the deck, and the die roll is a parameter in 1..6. The model says nothing about their distribution.
- The `todo!()` paths (Observe in Deck mode, Look mode, a Move out of Look) are modelled as an `Unimplemented` panic that changes nothing but the cleared alert. What these inputs were meant to do is unknown.
- Steps.StepAllowed: Increment that would push a `u8` damage counter past 255 is excluded by precondition (`Layouts.DamageFits`). The source panics in a debug build and wraps in a release build; neither is modelled.
- GameState.State.Update: a Shuffle in Deck mode needs the supplied shuffle to be a rearrangement of the deck, since it stands in for `thread_rng`.
- Selections.ChangeDeepestIndex: accepts only changes of at least -1, the two values the source passes (+1 and -1). The `i32` round trip for other changes is not modelled.
- Ordering.SortedSet: `sort()` is the library's and is modelled by its result (the unique ascending enumeration), not by its algorithm. The removal loops that follow it are modelled.
- Steps.Made: `make`'s `assert_eq!` on the deck lengths is a precondition (60 cards each). The panic for other lengths is not modelled.
- GameState.State.Setup: validity is promised only from Selecting mode. `setup` shortens the deck, which could leave a DeckSearch cursor past the end; the source only calls `setup` right after `make`.
- Modes.DeckNext: Observe is excluded by precondition because it panics (`PanicOf`) before any next mode exists.
- Aliasing and in-place mutation of the `Vec`s inside a layout are modelled as value updates of the layout. The `State` object is a class and its fields are updated in place.
