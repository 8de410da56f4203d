/**
  The input modes of the game state (Rust `InputMode`, `MoveAwaitedInput` and
  `PreviousMovingState`, src/state.rs:150-186), the invariant that keeps every
  cursor inside the viewed layout, and the mode transitions `update` computes
  for the Selecting, Deck, DeckSearch and Swap branches and for the
  resolution step of `handle_move`.
 */
module Modes {
  import opened Options
  import opened Selections
  import opened Layouts
  import I = Inputs

  datatype MoveAwaitedInput = Any | SlotSpecific(slot: nat)

  /** The mode a Move was started from, kept so that Cancel can return to it. */
  datatype PreviousMovingState =
    | FromSelecting(selecting: LayoutSelectingState)
    | FromDeckSearch(search: PileSelectingState)
    | FromLook(look: PileSelectingState)

  datatype InputMode =
    | Selecting(selecting: LayoutSelectingState)
    | Deck
    | DeckSearch(search: PileSelectingState)
    | Look(look: PileSelectingState)
    | Move(awaitedInput: MoveAwaitedInput, previousState: PreviousMovingState)
    | Swap(firstSlot: Option<nat>)

  /** The cursor and every selected address name an existing card or slot. */
  predicate SelectingValid(l: CardLayout, st: LayoutSelectingState)
  {
    ValidAddress(l, st.currentHighlight) && forall sel :: sel in st.selected ==> ValidAddress(l, sel)
  }

  /**
    A deck-search cursor may stand one past the last card (see `Right` in
    DeckSearch), so its bound is the deck length inclusive.
   */
  predicate SearchValid(l: CardLayout, st: PileSelectingState)
  {
    st.currentHighlight <= |l.deck| && forall i :: i in st.selected ==> i <= |l.deck|
  }

  predicate ModeValid(l: CardLayout, m: InputMode)
  {
    match m
    case Selecting(st) => SelectingValid(l, st)
    case Deck => true
    case DeckSearch(st) => SearchValid(l, st)
    case Look(_) => true
    case Move(awaited, previous) =>
      && (awaited.SlotSpecific? ==> awaited.slot < |l.slots|)
      && (previous.FromSelecting? ==> SelectingValid(l, previous.selecting))
      && (previous.FromDeckSearch? ==> SearchValid(l, previous.search))
    case Swap(firstSlot) => firstSlot.Some? ==> 1 <= firstSlot.value <= |l.slots|
  }

  /** The zone keys: a slot number or one of the five piles. */
  predicate IsZoneKey(input: I.Input)
  {
    input.Slot? || input.Hand? || input.Discard? || input.Prizes? || input.LostZone? || input.Stadium?
  }

  /**
    The cursor a zone key moves to, shared by Selecting and Deck mode: a slot
    number must lie in 1..slot count and yields the slot's first card, or the
    bare slot when it is empty; a pile key yields index 0 of that pile only
    when the pile is not empty. `None` means the key is ignored.
   */
  function ZoneEntry(l: CardLayout, input: I.Input): (r: Option<Selection>)
    ensures r.Some? ==> IsZoneKey(input) && ValidAddress(l, r.value)
    ensures r.Some? ==> DeepestIndex(r.value).None? || DeepestIndex(r.value) == Some(0)
    ensures r.Some? && r.value.Slot? ==>
      input == I.Slot(r.value.slotIndex + 1) && (r.value.pokemonIndex.None? <==> l.slots[r.value.slotIndex].cards == [])
    ensures input.Slot? ==> (r.Some? <==> 1 <= input.n <= |l.slots|)
    ensures input.Slot? && r.Some? ==>
      r.value == Slot(input.n - 1, if l.slots[input.n - 1].cards == [] then None else Some(0))
    ensures input.Hand? ==> (r.Some? <==> l.hand != []) && (r.Some? ==> r.value.Hand?)
    ensures input.Discard? ==> (r.Some? <==> l.discard != []) && (r.Some? ==> r.value.Discard?)
    ensures input.Prizes? ==> (r.Some? <==> l.prizes != []) && (r.Some? ==> r.value.Prize?)
    ensures input.LostZone? ==> (r.Some? <==> l.lostZone != []) && (r.Some? ==> r.value.LostZone?)
    ensures input.Stadium? ==> (r.Some? <==> l.stadium != []) && (r.Some? ==> r.value.Stadium?)
  {
    match input
    case Slot(u) =>
      if u > |l.slots| || u == 0 then None
      else
        var adjusted := u - 1;
        Some(Slot(adjusted, if |l.slots[adjusted].cards| == 0 then None else Some(0)))
    case Hand => if |l.hand| > 0 then Some(Hand(0)) else None
    case Discard => if |l.discard| > 0 then Some(Discard(0)) else None
    case Prizes => if |l.prizes| > 0 then Some(Prize(0)) else None
    case LostZone => if |l.lostZone| > 0 then Some(LostZone(0)) else None
    case Stadium => if |l.stadium| > 0 then Some(Stadium(0)) else None
    case _ => None
  }

  /**
    `Right` in Selecting: step the innermost index forward only while it
    stays inside the pile it points into.
   */
  function StepRight(l: CardLayout, h: Selection): (r: Selection)
    requires h.Slot? ==> h.slotIndex < |l.slots|
    ensures ValidAddress(l, h) ==> ValidAddress(l, r)
    ensures r != h <==> DeepestIndex(h).Some? && DeepestIndex(h).value + 1 < HighlightedListLength(l, h).value
    ensures r != h ==> DeepestIndex(r) == Some(DeepestIndex(h).value + 1) && Rank(r) == Rank(h)
    ensures DeepestIndex(h).Some? ==> (r != h <==> ValidAddress(l, ChangeDeepestIndex(h, 1)))
  {
    var len := HighlightedListLength(l, h);
    var i := DeepestIndex(h);
    if i.Some? && i.value + 1 < len.value then ChangeDeepestIndex(h, 1) else h
  }

  /**
    The next mode of the Selecting branch of `update`. Flip, Increment,
    Decrement and Roll keep the mode and act on the layout or the alert
    instead; SwitchSides also changes which layout is viewed.
   */
  function SelectingNext(l: CardLayout, st: LayoutSelectingState, input: I.Input): (r: InputMode)
    requires st.currentHighlight.Slot? ==> st.currentHighlight.slotIndex < |l.slots|
    ensures input.Left? ==> r == Selecting(SelectingState(st.selected, ChangeDeepestIndex(st.currentHighlight, -1)))
    ensures input.Right? ==> r == Selecting(SelectingState(st.selected, StepRight(l, st.currentHighlight)))
    ensures input.Select? ==> r == Selecting(SelectingState(st.selected + {st.currentHighlight}, st.currentHighlight))
    ensures input.Cancel? ==> r == Selecting(SelectingState({}, st.currentHighlight))
    ensures input.Move? ==> r == Move(Any, FromSelecting(st))
    ensures input.Swap? ==> r == Swap(None)
    ensures input.Deck? ==> r == Deck
    ensures input.SwitchSides? ==> r == Selecting(DefaultLayoutSelecting)
    ensures IsZoneKey(input) ==> r == Selecting(
      if ZoneEntry(l, input).Some? then SelectingState(st.selected, ZoneEntry(l, input).value) else st)
    ensures (!IsZoneKey(input) && !input.Left? && !input.Right? && !input.Select? && !input.Cancel?
      && !input.Move? && !input.Swap? && !input.Deck? && !input.SwitchSides?) ==> r == Selecting(st)
  {
    if input.Left? then Selecting(st.ChangeHighlight(ChangeDeepestIndex(st.currentHighlight, -1)))
    else if input.Right? then Selecting(st.ChangeHighlight(StepRight(l, st.currentHighlight)))
    else if input.Select? then Selecting(st.AddToSelection())
    else if input.Cancel? then Selecting(st.ClearSelected())
    else if input.Move? then Move(Any, FromSelecting(st))
    else if input.Swap? then Swap(None)
    else if input.Deck? then Deck
    else if input.SwitchSides? then Selecting(DefaultLayoutSelecting)
    else
      match ZoneEntry(l, input)
      case Some(h) => Selecting(st.ChangeHighlight(h))
      case None => Selecting(st)
  }

  /** Selecting keeps a valid cursor and selection on every input but SwitchSides. */
  lemma SelectingNextValid(l: CardLayout, st: LayoutSelectingState, input: I.Input)
    requires SelectingValid(l, st)
    requires !input.SwitchSides?
    ensures ModeValid(l, SelectingNext(l, st, input))
  {
    var h := st.currentHighlight;
    match input
    case Left =>
      var h' := ChangeDeepestIndex(h, -1);
      assert ValidAddress(l, h') by {
        if h.Slot? {
          assert h'.Slot? && h'.slotIndex == h.slotIndex;
        }
      }
    case _ =>
  }

  /**
    Left stops at index 0 and Right at the last card; Left undoes a Right
    that moved; the selection is never touched by either.
   */
  lemma LeftRightInSelecting(l: CardLayout, st: LayoutSelectingState)
    requires SelectingValid(l, st)
    ensures var h := st.currentHighlight;
      DeepestIndex(h) == Some(0) ==> SelectingNext(l, st, I.Left) == Selecting(st)
    ensures var h := st.currentHighlight;
      (DeepestIndex(h).None? || DeepestIndex(h).value + 1 >= HighlightedListLength(l, h).value)
        ==> SelectingNext(l, st, I.Right) == Selecting(st)
    ensures var next := SelectingNext(l, st, I.Right).selecting;
      && next.selected == st.selected
      && (next.currentHighlight != st.currentHighlight ==> SelectingNext(l, next, I.Left) == Selecting(st))
  {
    var h := st.currentHighlight;
    RightThenLeft(h);
  }

  /** Selecting the cursor twice is selecting it once; Cancel empties the selection. */
  lemma SelectThenCancel(l: CardLayout, st: LayoutSelectingState)
    requires SelectingValid(l, st)
    ensures var once := SelectingNext(l, st, I.Select).selecting;
      SelectingNext(l, once, I.Select) == Selecting(once) && st.currentHighlight in once.selected
    ensures SelectingNext(l, st, I.Cancel) == Selecting(SelectingState({}, st.currentHighlight))
  {
    AddToSelectionIdempotent(st);
  }

  /**
    The next mode of the Deck branch of `update`. Observe is not implemented
    in the source and is excluded here; Deck (draw) and Shuffle keep the mode
    and act on the deck.
   */
  function DeckNext(l: CardLayout, input: I.Input): (r: InputMode)
    requires !input.Observe?
    ensures r.Selecting? ==> r.selecting.selected == {} && (|l.slots| > 0 ==> SelectingValid(l, r.selecting))
    ensures r.Selecting? && input != I.Cancel ==> Some(r.selecting.currentHighlight) == ZoneEntry(l, input)
    ensures IsZoneKey(input) && ZoneEntry(l, input).None? ==> r == Deck
    ensures r.DeckSearch? ==> r.search == DefaultPileSelecting
    ensures input.Cancel? ==> r == Selecting(DefaultLayoutSelecting)
    ensures input.Select? ==> r == DeckSearch(DefaultPileSelecting)
    ensures IsZoneKey(input) && ZoneEntry(l, input).Some? ==>
      r == Selecting(DefaultLayoutSelecting.ChangeHighlight(ZoneEntry(l, input).value))
    ensures !input.Cancel? && !input.Select? && !IsZoneKey(input) ==> r == Deck
  {
    match input
    case Cancel => Selecting(DefaultLayoutSelecting)
    case Select => DeckSearch(DefaultPileSelecting)
    case _ =>
      match ZoneEntry(l, input)
      case Some(h) => Selecting(DefaultLayoutSelecting.ChangeHighlight(h))
      case None => Deck
  }

  /**
    The next mode of the DeckSearch branch of `update`: Left stops at 0,
    Right stops at the deck length, one past the last card.
   */
  function DeckSearchNext(l: CardLayout, st: PileSelectingState, input: I.Input): (r: InputMode)
    ensures SearchValid(l, st) ==> ModeValid(l, r)
    ensures input.Left? ==>
      && r.DeckSearch? && r.search.selected == st.selected
      && r.search.currentHighlight == (if st.currentHighlight == 0 then 0 else st.currentHighlight - 1)
    ensures input.Right? ==>
      && r.DeckSearch? && r.search.selected == st.selected
      && r.search.currentHighlight == (if st.currentHighlight >= |l.deck| then st.currentHighlight else st.currentHighlight + 1)
    ensures input.Cancel? ==> r == Deck
    ensures input.Select? ==> r == DeckSearch(SelectingState(st.selected + {st.currentHighlight}, st.currentHighlight))
    ensures input.Move? ==> r == Move(Any, FromDeckSearch(st))
    ensures (!input.Cancel? && !input.Left? && !input.Right? && !input.Select? && !input.Move?) ==> r == DeckSearch(st)
  {
    if input.Cancel? then Deck
    else if input.Left? then
      var newHighlight := if st.currentHighlight == 0 then 0 else st.currentHighlight - 1;
      DeckSearch(st.ChangeHighlight(newHighlight))
    else if input.Right? then
      var newHighlight := if st.currentHighlight >= |l.deck| then st.currentHighlight else st.currentHighlight + 1;
      DeckSearch(st.ChangeHighlight(newHighlight))
    else if input.Select? then DeckSearch(st.AddToSelection())
    else if input.Move? then Move(Any, FromDeckSearch(st))
    else DeckSearch(st)
  }

  /**
    Right can take the deck-search cursor to the deck length, an index with
    no card under it.
   */
  lemma SearchRightReachesPastEnd(l: CardLayout)
    requires |l.deck| > 0
    ensures var last := SelectingState({}, |l.deck| - 1);
      DeckSearchNext(l, last, I.Right) == DeckSearch(SelectingState({}, |l.deck|))
  {
  }

  /** Where a Move sends the cards: a pile of the viewed layout and whether they go in front. */
  datatype Target = SlotCards(slot: nat) | DeckCards | HandCards | DiscardCards | LostZoneCards | StadiumCards

  datatype Destination = Destination(target: Target, prepend: bool)

  /** What one input does in Move mode before any card is touched. */
  datatype MoveStep =
    | Restore(mode: InputMode)
    | Await(mode: InputMode)
    | Transfer(destination: Destination)

  /**
    The resolution part of `handle_move`: Cancel restores the saved mode; a
    valid slot number makes the Move wait for Append or Prepend into that
    slot; otherwise, under `SlotSpecific` only Append and Prepend, and under
    `Any` only Top, Bottom, Hand, Discard, LostZone and Stadium go on to a
    transfer. Every other input keeps the Move as it is.
   */
  function ResolveMove(l: CardLayout, awaited: MoveAwaitedInput, previous: PreviousMovingState, input: I.Input)
    : (r: MoveStep)
    ensures input.Cancel? ==> r == Restore(match previous
      case FromSelecting(st) => Selecting(st)
      case FromDeckSearch(st) => DeckSearch(st)
      case FromLook(st) => Look(st))
    ensures input.Slot? ==> r == Await(Move(if 1 <= input.n <= |l.slots| then SlotSpecific(input.n - 1) else awaited, previous))
    ensures r.Transfer? && awaited.SlotSpecific? ==>
      r.destination == Destination(SlotCards(awaited.slot), input.Prepend?) && (input.Append? || input.Prepend?)
    ensures r.Transfer? && awaited.Any? ==>
      && !r.destination.target.SlotCards?
      && (r.destination.prepend <==> input.Bottom?)
      && (input.Top? || input.Bottom? || input.Hand? || input.Discard? || input.LostZone? || input.Stadium?)
    ensures awaited.Any? && input.Top? ==> r == Transfer(Destination(DeckCards, false))
    ensures awaited.Any? && input.Bottom? ==> r == Transfer(Destination(DeckCards, true))
    ensures awaited.Any? && input.Hand? ==> r == Transfer(Destination(HandCards, false))
    ensures awaited.Any? && input.Discard? ==> r == Transfer(Destination(DiscardCards, false))
    ensures awaited.Any? && input.LostZone? ==> r == Transfer(Destination(LostZoneCards, false))
    ensures awaited.Any? && input.Stadium? ==> r == Transfer(Destination(StadiumCards, false))
    ensures r.Await? && !input.Slot? ==> r.mode == Move(awaited, previous)
    ensures !input.Cancel? && !input.Slot? && awaited.SlotSpecific? ==> (r.Transfer? <==> input.Append? || input.Prepend?)
    ensures !input.Cancel? && !input.Slot? && awaited.Any? ==>
      (r.Transfer? <==> input.Top? || input.Bottom? || input.Hand? || input.Discard? || input.LostZone? || input.Stadium?)
  {
    var leaveUnchanged := Await(Move(awaited, previous));
    if input.Cancel? then
      Restore(match previous
        case FromSelecting(st) => Selecting(st)
        case FromDeckSearch(st) => DeckSearch(st)
        case FromLook(st) => Look(st))
    else if input.Slot? then
      if input.n == 0 || input.n > |l.slots| then leaveUnchanged
      else Await(Move(SlotSpecific(input.n - 1), previous))
    else if awaited.SlotSpecific? then
      if input.Append? then Transfer(Destination(SlotCards(awaited.slot), false))
      else if input.Prepend? then Transfer(Destination(SlotCards(awaited.slot), true))
      else leaveUnchanged
    else if input.Top? then Transfer(Destination(DeckCards, false))
    else if input.Bottom? then Transfer(Destination(DeckCards, true))
    else if input.Hand? then Transfer(Destination(HandCards, false))
    else if input.Discard? then Transfer(Destination(DiscardCards, false))
    else if input.LostZone? then Transfer(Destination(LostZoneCards, false))
    else if input.Stadium? then Transfer(Destination(StadiumCards, false))
    else leaveUnchanged
  }

  /** Cancel out of a Move started from Selecting or DeckSearch gives back exactly the mode it started from. */
  lemma CancelUndoesMove(l: CardLayout, st: LayoutSelectingState, search: PileSelectingState)
    requires st.currentHighlight.Slot? ==> st.currentHighlight.slotIndex < |l.slots|
    ensures match SelectingNext(l, st, I.Move)
      case Move(a, p) => ResolveMove(l, a, p, I.Cancel) == Restore(Selecting(st))
      case _ => false
    ensures match DeckSearchNext(l, search, I.Move)
      case Move(a, p) => ResolveMove(l, a, p, I.Cancel) == Restore(DeckSearch(search))
      case _ => false
  {
  }

  /** A Move that is still waiting keeps a valid mode valid. */
  lemma ResolveMoveValid(l: CardLayout, awaited: MoveAwaitedInput, previous: PreviousMovingState, input: I.Input)
    requires ModeValid(l, Move(awaited, previous))
    ensures match ResolveMove(l, awaited, previous, input)
      case Restore(m) => ModeValid(l, m)
      case Await(m) => ModeValid(l, m)
      case Transfer(d) => d.target.SlotCards? ==> d.target.slot < |l.slots|
  {
  }

  /**
    The Swap branch of `update` for the mode alone: a slot number outside
    1..slot count is ignored, the first valid one is recorded, the second
    (handled with the exchange itself) and Cancel return to default Selecting.
   */
  function SwapNext(l: CardLayout, firstSlot: Option<nat>, input: I.Input): (r: InputMode)
    ensures input.Cancel? ==> r == Selecting(DefaultLayoutSelecting)
    ensures input.Slot? && (input.n == 0 || input.n > |l.slots|) ==> r == Swap(firstSlot)
    ensures input.Slot? && 1 <= input.n <= |l.slots| ==>
      r == if firstSlot.Some? then Selecting(DefaultLayoutSelecting) else Swap(Some(input.n))
    ensures !input.Slot? && !input.Cancel? ==> r == Swap(firstSlot)
  {
    match input
    case Cancel => Selecting(DefaultLayoutSelecting)
    case Slot(slot) =>
      if slot == 0 || slot > |l.slots| then Swap(firstSlot)
      else if firstSlot.Some? then Selecting(DefaultLayoutSelecting)
      else Swap(Some(slot))
    case _ => Swap(firstSlot)
  }

  /** Swap mode stays valid in a layout that has at least one slot. */
  lemma SwapNextValid(l: CardLayout, firstSlot: Option<nat>, input: I.Input)
    requires ModeValid(l, Swap(firstSlot)) && |l.slots| > 0
    ensures ModeValid(l, SwapNext(l, firstSlot, input))
  {
  }
}
