/**
  The game state object (Rust `State`, src/state.rs:200-699). Its methods
  rewrite the fields in place as the source does; each is proved to leave
  exactly the state the functions of module `Steps` describe, so what those
  lemmas prove about `Step` holds of every `update`.
 */
module GameState {
  import opened Options
  import opened Piles
  import opened Selections
  import opened Layouts
  import opened Modes
  import opened Transfer
  import opened Steps
  import I = Inputs

  class State {
    var player1Layout: CardLayout
    var player2Layout: CardLayout
    var currentlyViewing: Player
    var inputMode: InputMode
    var uiAlert: Option<UIAlert>

    /** The state as a value. */
    function Value(): Game
      reads this
    {
      Game(player1Layout, player2Layout, currentlyViewing, inputMode, uiAlert)
    }

    ghost predicate Valid()
      reads this
    {
      GameValid(Value())
    }

    /** `current_layout`. */
    function CurrentLayout(): (r: CardLayout)
      reads this
      ensures currentlyViewing == Player1 ==> r == player1Layout
      ensures currentlyViewing == Player2 ==> r == player2Layout
    {
      Current(Value())
    }

    /** `make`: two 60-card decks, six empty slots each, default Selecting mode. */
    constructor (deck1: seq<Card>, deck2: seq<Card>)
      requires |deck1| == DeckSize && |deck2| == DeckSize
      ensures Value() == Made(deck1, deck2)
      ensures Valid()
    {
      player1Layout := FreshLayout(deck1);
      player2Layout := FreshLayout(deck2);
      currentlyViewing := Player1;
      inputMode := Selecting(DefaultLayoutSelecting);
      uiAlert := None;
    }

    /**
      `setup`: shuffle each deck (the rearrangements `thread_rng` produced are
      `shuffled1` and `shuffled2`) and lay out six face-down prizes from its top.
     */
    method Setup(shuffled1: seq<Card>, shuffled2: seq<Card>)
      requires multiset(shuffled1) == multiset(player1Layout.deck)
      requires multiset(shuffled2) == multiset(player2Layout.deck)
      modifies this
      ensures Value() == SetUp(old(Value()), shuffled1, shuffled2)
      ensures old(Valid()) && old(inputMode).Selecting? ==> Valid()
    {
      ghost var before := Value();
      player1Layout := SetupLayout(player1Layout, shuffled1);
      player2Layout := SetupLayout(player2Layout, shuffled2);
      if GameValid(before) && before.inputMode.Selecting? {
        SetUpKeepsValid(before, shuffled1, shuffled2);
      }
    }

    /**
      `card_at`: the card under a cursor as the screen shows it; an empty-slot
      address and a face-down prize show no card.
     */
    function CardAt(selection: Selection): (r: Option<Card>)
      reads this
      requires ValidAddress(CurrentLayout(), selection)
      ensures r.None? <==>
        || (selection.Slot? && selection.pokemonIndex.None?)
        || (selection.Prize? && !CurrentLayout().prizes[selection.index].isFaceUp)
      ensures r.Some? ==> r == CardUnder(CurrentLayout(), selection)
    {
      var layout := CurrentLayout();
      match selection
      case Hand(index) => Some(layout.hand[index])
      case Slot(slotIndex, pokemonIndex) =>
        if pokemonIndex.Some? then Some(layout.slots[slotIndex].cards[pokemonIndex.value]) else None
      case Discard(index) => Some(layout.discard[index])
      case Prize(index) =>
        var prize := layout.prizes[index];
        if prize.isFaceUp then Some(prize.card) else None
      case LostZone(index) => Some(layout.lostZone[index])
      case Stadium(index) => Some(layout.stadium[index])
    }

    /** `deck_card_at`: the deck card at a position, if the deck reaches that far. */
    function DeckCardAt(selection: nat): (r: Option<Card>)
      reads this
      ensures r.Some? <==> selection < |CurrentLayout().deck|
      ensures r.Some? ==> r.value == CurrentLayout().deck[selection]
    {
      var layout := CurrentLayout();
      if selection < |layout.deck| then Some(layout.deck[selection]) else None
    }

    method SetCurrentLayout(l: CardLayout)
      modifies this
      ensures Value() == WithLayout(old(Value()), old(currentlyViewing), l)
    {
      match currentlyViewing
      case Player1 => player1Layout := l;
      case Player2 => player2Layout := l;
    }

    /**
      `update`: clear the alert, then act on the input according to the mode:
      the viewed layout is rewritten, the mode moves on, SwitchSides in
      Selecting mode puts the other player on screen, Roll and Shuffle raise
      an alert. The shuffle of Shuffle and the die of Roll come in as
      `shuffled` and `roll`. The new state is the one `Step` gives, so no
      card changes hands, the layout off screen is untouched and a completed
      step is valid.
     */
    method Update(input: I.Input, shuffled: seq<Card>, roll: DieRoll) returns (outcome: Outcome)
      requires Valid() && StepAllowed(CurrentLayout(), inputMode, input, shuffled)
      modifies this
      ensures (outcome, Value()) == Step(old(Value()), input, shuffled, roll)
      ensures outcome.Completed? ==> Valid()
      ensures CardsIn(player1Layout) == old(CardsIn(player1Layout))
      ensures CardsIn(player2Layout) == old(CardsIn(player2Layout))
    {
      ghost var before := Value();
      uiAlert := None;
      var layout, mode := CurrentLayout(), inputMode;
      var panic, next := NewLayout(layout, mode, input, shuffled);
      if panic.Some? {
        outcome := Panicked(panic.value);
      } else {
        SetCurrentLayout(next);
        inputMode := NextMode(layout, mode, input);
        if mode.Selecting? && input.SwitchSides? {
          currentlyViewing := Opponent(currentlyViewing);
        }
        uiAlert := AlertOf(mode, input, roll);
        outcome := Completed;
      }
      StepKeeps(before, input, shuffled, roll, outcome, Value());
    }
  }

  /**
    The layout half of `update` for the viewed layout: which panic the input
    reaches, and otherwise the layout after it.
   */
  method NewLayout(l: CardLayout, m: InputMode, input: I.Input, shuffled: seq<Card>)
    returns (panic: Option<PanicReason>, r: CardLayout)
    requires ModeValid(l, m) && StepAllowed(l, m, input, shuffled)
    ensures panic == PanicOf(l, m, input)
    ensures panic.None? ==> r == NextLayout(l, m, input, shuffled)
  {
    panic, r := None, l;
    match m
    case Selecting(st) => r := SelectingLayout(l, st, input);
    case Deck =>
      if input.Observe? {
        panic := Some(Unimplemented);
      } else {
        r := DeckLayout(l, input, shuffled);
      }
    case DeckSearch(_) =>
    case Look(_) => panic := Some(Unimplemented);
    case Swap(firstSlot) => r := SwapLayout(l, firstSlot, input);
    case Move(awaited, previous) => panic, r := MoveLayout(l, awaited, previous, input);
  }

  /** Selecting mode: Flip turns the selected prizes over, Increment and Decrement change the damage counters. */
  method SelectingLayout(l: CardLayout, st: LayoutSelectingState, input: I.Input) returns (r: CardLayout)
    requires SelectingValid(l, st) && (input.Increment? ==> DamageFits(l.slots, st.selected))
    ensures r == NextLayout(l, Selecting(st), input, [])
  {
    r := l;
    match input
    case Flip =>
      var prizes := FlipPrizes(l.prizes, st.selected);
      r := l.(prizes := prizes);
    case Increment =>
      var slots := AdjustDamage(l.slots, st.selected, true);
      r := l.(slots := slots);
    case Decrement =>
      var slots := AdjustDamage(l.slots, st.selected, false);
      r := l.(slots := slots);
    case _ =>
  }

  /** Deck mode: Deck draws the top card into the hand, Shuffle replaces the deck by its shuffle. */
  method DeckLayout(l: CardLayout, input: I.Input, shuffled: seq<Card>) returns (r: CardLayout)
    requires !input.Observe? && (input.Shuffle? ==> multiset(shuffled) == multiset(l.deck))
    ensures r == NextLayout(l, Deck, input, shuffled)
  {
    r := l;
    match input
    case Deck => r := Drawn(l);
    case Shuffle => r := l.(deck := shuffled);
    case _ =>
  }

  /** Swap mode: the second valid slot number exchanges the two slots wholesale. */
  method SwapLayout(l: CardLayout, firstSlot: Option<nat>, input: I.Input) returns (r: CardLayout)
    requires firstSlot.Some? ==> 1 <= firstSlot.value <= |l.slots|
    ensures r == NextLayout(l, Swap(firstSlot), input, [])
  {
    r := l;
    if input.Slot? && 1 <= input.n <= |l.slots| && firstSlot.Some? {
      var slots := l.slots;
      slots := slots[firstSlot.value - 1 := l.slots[input.n - 1]][input.n - 1 := l.slots[firstSlot.value - 1]];
      r := l.(slots := slots);
    }
  }

  /**
    `handle_move`: resolve the input; on a transfer take the cards out (from
    the layout or from the deck, a deck position past the end panicking) and
    deliver them to the destination.
   */
  method MoveLayout(l: CardLayout, awaited: MoveAwaitedInput, previous: PreviousMovingState, input: I.Input)
    returns (panic: Option<PanicReason>, r: CardLayout)
    requires ModeValid(l, Move(awaited, previous))
    ensures panic == PanicOf(l, Move(awaited, previous), input)
    ensures panic.None? ==> r == NextLayout(l, Move(awaited, previous), input, [])
  {
    ResolveMoveValid(l, awaited, previous, input);
    panic, r := None, l;
    match ResolveMove(l, awaited, previous, input)
    case Restore(_) =>
    case Await(_) =>
    case Transfer(d) =>
      match previous
      case FromSelecting(st) =>
        TransferFromSelecting(l, awaited, st, input, []);
        r := MoveOutOfLayout(l, st, d);
      case FromDeckSearch(st) =>
        TransferFromDeck(l, awaited, st, input, []);
        panic, r := MoveOutOfDeck(l, st, d);
      case FromLook(_) =>
        panic := Some(Unimplemented);
  }

  /** The transfer of a Move from Selecting: take out the move set, then deliver the cards. */
  method MoveOutOfLayout(l: CardLayout, st: LayoutSelectingState, d: Destination) returns (r: CardLayout)
    requires SelectingValid(l, st)
    requires d.target.SlotCards? ==> d.target.slot < |l.slots|
    ensures r == MovedFromSelecting(l, st, d)
  {
    var removed, movingCards := TakeMoveSet(l, st);
    var delivered := DeliverCards(PileAt(removed, d.target), movingCards, d.prepend);
    r := WithPile(removed, d.target, delivered);
  }

  /** The transfer of a Move from DeckSearch: a chosen position past the deck panics, otherwise the cards are taken and delivered. */
  method MoveOutOfDeck(l: CardLayout, st: PileSelectingState, d: Destination) returns (panic: Option<PanicReason>, r: CardLayout)
    requires d.target.SlotCards? ==> d.target.slot < |l.slots|
    ensures panic == if OutOfRange(l.deck, st) then Some(IndexOutOfBounds) else None
    ensures panic.None? ==> r == MovedFromDeck(l, st, d)
  {
    panic, r := None, l;
    var deck, movingCards, outOfRange := TakeDeckIndices(l.deck, st);
    if outOfRange {
      panic := Some(IndexOutOfBounds);
    } else {
      var removed := l.(deck := deck);
      var delivered := DeliverCards(PileAt(removed, d.target), movingCards, d.prepend);
      r := WithPile(removed, d.target, delivered);
    }
  }
}
