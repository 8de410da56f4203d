/**
  The whole game state (Rust `State`, src/state.rs:200-211) as a value, and
  one call of `update` (src/state.rs:307-583, with `handle_move`, 585-698)
  as a function on it. The class `GameState.State` is proved against these
  functions; the lemmas here state what every step keeps: the cards of each
  player, the layout that is not on screen, and the invariant that every
  cursor stays inside the viewed layout.
 */
module Steps {
  import opened Options
  import opened Piles
  import opened Selections
  import opened Layouts
  import opened Modes
  import opened Transfer
  import I = Inputs

  datatype Player = Player1 | Player2

  /** A message for the screen: the deck was shuffled, or a die came up `value`. */
  datatype UIAlert = Shuffled | Roll(value: U8)

  /** `gen_range(1..=6)`. */
  type DieRoll = n: nat | 1 <= n <= 6 witness 1

  /** Why a step stopped: a `todo!()` was reached, or `Vec::remove` was given a position past the end. */
  datatype PanicReason = Unimplemented | IndexOutOfBounds

  datatype Outcome = Completed | Panicked(reason: PanicReason)

  datatype Game = Game(
    player1Layout: CardLayout,
    player2Layout: CardLayout,
    currentlyViewing: Player,
    inputMode: InputMode,
    uiAlert: Option<UIAlert>)

  /** The number of cards `make` demands in each deck. */
  const DeckSize: nat := 60

  function Opponent(p: Player): (r: Player)
    ensures r != p
  {
    match p
    case Player1 => Player2
    case Player2 => Player1
  }

  function LayoutOf(g: Game, p: Player): CardLayout
  {
    match p
    case Player1 => g.player1Layout
    case Player2 => g.player2Layout
  }

  /** `current_layout`: the layout of the player on screen. */
  function Current(g: Game): CardLayout
  {
    LayoutOf(g, g.currentlyViewing)
  }

  /** The game with the layout of `p` replaced; the other layout and every other field kept. */
  function WithLayout(g: Game, p: Player, l: CardLayout): (r: Game)
    ensures LayoutOf(r, p) == l && LayoutOf(r, Opponent(p)) == LayoutOf(g, Opponent(p))
    ensures r.currentlyViewing == g.currentlyViewing && r.inputMode == g.inputMode && r.uiAlert == g.uiAlert
  {
    match p
    case Player1 => g.(player1Layout := l)
    case Player2 => g.(player2Layout := l)
  }

  /** Both players have the six slots `make` creates, and the mode's cursors lie inside the viewed layout. */
  predicate GameValid(g: Game)
  {
    && |g.player1Layout.slots| == SlotCount
    && |g.player2Layout.slots| == SlotCount
    && ModeValid(Current(g), g.inputMode)
  }

  /** The layout `make` builds around a deck: six empty slots with no damage, every other pile empty. */
  function FreshLayout(deck: seq<Card>): (r: CardLayout)
    ensures EmptyAroundDeck(r) && r.deck == deck
    ensures CardsIn(r) == multiset(deck)
  {
    EmptySlotsHoldNothing(SlotCount);
    CardLayout(seq(SlotCount, _ => PokemonSlot([], 0)), [], [], deck, [], [], [])
  }

  /** Six slots with no cards and no damage, and nothing outside the deck. */
  predicate EmptyAroundDeck(l: CardLayout)
  {
    && |l.slots| == SlotCount
    && (forall s :: 0 <= s < |l.slots| ==> l.slots[s] == PokemonSlot([], 0))
    && l.hand == [] && l.discard == [] && l.lostZone == [] && l.prizes == [] && l.stadium == []
  }

  /**
    `make`: both decks must hold exactly 60 cards (an `assert_eq!`); player 1
    is on screen, in Selecting mode with the default cursor and no alert.
   */
  function Made(deck1: seq<Card>, deck2: seq<Card>): (g: Game)
    requires |deck1| == DeckSize && |deck2| == DeckSize
    ensures GameValid(g)
    ensures CardsIn(g.player1Layout) == multiset(deck1) && CardsIn(g.player2Layout) == multiset(deck2)
    ensures g.player1Layout.deck == deck1 && g.player2Layout.deck == deck2
    ensures EmptyAroundDeck(g.player1Layout) && EmptyAroundDeck(g.player2Layout)
    ensures g.currentlyViewing == Player1 && g.inputMode == Selecting(DefaultLayoutSelecting) && g.uiAlert == None
  {
    Game(FreshLayout(deck1), FreshLayout(deck2), Player1, Selecting(DefaultLayoutSelecting), None)
  }

  lemma {:induction false} EmptySlotsHoldNothing(n: nat)
    ensures SlotsCards(seq(n, _ => PokemonSlot([], 0))) == multiset{}
  {
    if n > 0 {
      var slots := seq(n, _ => PokemonSlot([], 0));
      assert slots[..n - 1] == seq(n - 1, _ => PokemonSlot([], 0));
      EmptySlotsHoldNothing(n - 1);
    }
  }

  /** `setup` on both layouts, each deck's shuffle given as the rearrangement it produced. */
  function SetUp(g: Game, shuffled1: seq<Card>, shuffled2: seq<Card>): (r: Game)
    ensures r.currentlyViewing == g.currentlyViewing && r.inputMode == g.inputMode && r.uiAlert == g.uiAlert
    ensures multiset(shuffled1) == multiset(g.player1Layout.deck) ==> CardsIn(r.player1Layout) == CardsIn(g.player1Layout)
    ensures multiset(shuffled2) == multiset(g.player2Layout.deck) ==> CardsIn(r.player2Layout) == CardsIn(g.player2Layout)
  {
    var l1, l2 := g.player1Layout, g.player2Layout;
    SetUpKeepsCards(l1, shuffled1);
    SetUpKeepsCards(l2, shuffled2);
    g.(player1Layout := SetUpLayout(l1, shuffled1), player2Layout := SetUpLayout(l2, shuffled2))
  }

  /** `setup` only lengthens the prizes, so a Selecting cursor stays valid (the deck is not addressable there). */
  lemma SetUpKeepsValid(g: Game, shuffled1: seq<Card>, shuffled2: seq<Card>)
    requires GameValid(g) && g.inputMode.Selecting?
    ensures GameValid(SetUp(g, shuffled1, shuffled2))
  {
    var g' := SetUp(g, shuffled1, shuffled2);
    forall sel | ValidAddress(Current(g), sel) ensures ValidAddress(Current(g'), sel) {
    }
  }

  /**
    A fresh game after `setup`: each deck has lost six cards to six
    face-down prizes, every card is still its owner's, and the invariant holds.
   */
  lemma MadeThenSetUp(deck1: seq<Card>, deck2: seq<Card>, shuffled1: seq<Card>, shuffled2: seq<Card>)
    requires |deck1| == DeckSize && |deck2| == DeckSize
    requires multiset(shuffled1) == multiset(deck1) && multiset(shuffled2) == multiset(deck2)
    ensures var g := SetUp(Made(deck1, deck2), shuffled1, shuffled2);
      && GameValid(g)
      && |g.player1Layout.deck| == DeckSize - PrizeCount && |g.player2Layout.deck| == DeckSize - PrizeCount
      && |g.player1Layout.prizes| == PrizeCount && |g.player2Layout.prizes| == PrizeCount
      && (forall j :: 0 <= j < PrizeCount ==> !g.player1Layout.prizes[j].isFaceUp && !g.player2Layout.prizes[j].isFaceUp)
      && CardsIn(g.player1Layout) == multiset(deck1) && CardsIn(g.player2Layout) == multiset(deck2)
  {
    var g0 := Made(deck1, deck2);
    assert |shuffled1| == |multiset(shuffled1)| == |deck1|;
    assert |shuffled2| == |multiset(shuffled2)| == |deck2|;
    SetUpKeepsCards(g0.player1Layout, shuffled1);
    SetUpKeepsCards(g0.player2Layout, shuffled2);
  }

  /**
    The panics of `update`: Observe in Deck mode, anything in Look mode and a
    Move out of Look reach a `todo!()`; a Move out of DeckSearch whose chosen
    positions include one with no card makes `Vec::remove` panic. In every
    case nothing has changed yet but the cleared alert.
   */
  function PanicOf(l: CardLayout, m: InputMode, input: I.Input): (r: Option<PanicReason>)
    ensures m.Selecting? || m.DeckSearch? || m.Swap? ==> r.None?
    ensures m.Deck? ==> (r.Some? <==> input.Observe?) && (r.Some? ==> r.value == Unimplemented)
    ensures m.Look? ==> r == Some(Unimplemented)
    ensures m.Move? ==>
      (r == Some(Unimplemented) <==> ResolveMove(l, m.awaitedInput, m.previousState, input).Transfer? && m.previousState.FromLook?)
    ensures r == Some(IndexOutOfBounds) <==>
      && m.Move? && m.previousState.FromDeckSearch?
      && ResolveMove(l, m.awaitedInput, m.previousState, input).Transfer?
      && exists i :: i in MoveSet(m.previousState.search) && i >= |l.deck|
  {
    match m
    case Deck => if input.Observe? then Some(Unimplemented) else None
    case Look(_) => Some(Unimplemented)
    case Move(awaited, previous) =>
      (match ResolveMove(l, awaited, previous, input)
       case Transfer(_) =>
         (match previous
          case FromLook(_) => Some(Unimplemented)
          case FromDeckSearch(st) => if OutOfRange(l.deck, st) then Some(IndexOutOfBounds) else None
          case FromSelecting(_) => None)
       case _ => None)
    case _ => None
  }

  /**
    What a step needs from outside the state: the shuffle of Shuffle is a
    rearrangement of the deck, and Increment does not push a `u8` damage
    counter past 255.
   */
  predicate StepAllowed(l: CardLayout, m: InputMode, input: I.Input, shuffled: seq<Card>)
  {
    && (m.Deck? && input.Shuffle? ==> multiset(shuffled) == multiset(l.deck))
    && (m.Selecting? && input.Increment? ==> DamageFits(l.slots, m.selecting.selected))
  }

  /** The viewed layout after a step that does not panic. */
  function NextLayout(l: CardLayout, m: InputMode, input: I.Input, shuffled: seq<Card>): (r: CardLayout)
    requires ModeValid(l, m) && PanicOf(l, m, input).None? && StepAllowed(l, m, input, shuffled)
    ensures |r.slots| == |l.slots|
    ensures m.DeckSearch? || m.Look? ==> r == l
    ensures m.Selecting? && !input.Flip? && !input.Increment? && !input.Decrement? ==> r == l
    ensures m.Selecting? ==>
      && r.(slots := l.slots, prizes := l.prizes) == l
      && (forall s :: 0 <= s < |l.slots| ==> r.slots[s].cards == l.slots[s].cards)
      && |r.prizes| == |l.prizes|
      && (forall i :: 0 <= i < |l.prizes| ==> r.prizes[i].card == l.prizes[i].card)
    ensures m.Deck? ==> r.(deck := l.deck, hand := l.hand) == l && multiset(r.deck + r.hand) == multiset(l.deck + l.hand)
    ensures m.Swap? ==> r.(slots := l.slots) == l && multiset(r.slots) == multiset(l.slots)
    ensures m.Move? && !ResolveMove(l, m.awaitedInput, m.previousState, input).Transfer? ==> r == l
  {
    match m
    case Selecting(st) =>
      if input.Flip? then l.(prizes := Flipped(l.prizes, st.selected))
      else if input.Increment? then l.(slots := Damaged(l.slots, st.selected, true))
      else if input.Decrement? then l.(slots := Damaged(l.slots, st.selected, false))
      else l
    case Deck =>
      if input.Deck? then Drawn(l)
      else if input.Shuffle? then l.(deck := shuffled)
      else l
    case Swap(firstSlot) =>
      if input.Slot? && 1 <= input.n <= |l.slots| && firstSlot.Some? then
        l.(slots := SwapAt(l.slots, firstSlot.value - 1, input.n - 1))
      else l
    case Move(awaited, previous) =>
      (match ResolveMove(l, awaited, previous, input)
       case Transfer(d) =>
         (match previous
          case FromSelecting(st) => MovedFromSelecting(l, st, d)
          case FromDeckSearch(st) => MovedFromDeck(l, st, d)
          case FromLook(_) => l)
       case _ => l)
    case _ => l
  }

  /** A Move from Selecting that transfers never panics, and it leaves `MovedFromSelecting`. */
  lemma TransferFromSelecting(l: CardLayout, awaited: MoveAwaitedInput, st: LayoutSelectingState, input: I.Input, shuffled: seq<Card>)
    requires ModeValid(l, Move(awaited, FromSelecting(st)))
    requires ResolveMove(l, awaited, FromSelecting(st), input).Transfer?
    ensures PanicOf(l, Move(awaited, FromSelecting(st)), input).None?
    ensures var d := ResolveMove(l, awaited, FromSelecting(st), input).destination;
      && (d.target.SlotCards? ==> d.target.slot < |l.slots|)
      && NextLayout(l, Move(awaited, FromSelecting(st)), input, shuffled) == MovedFromSelecting(l, st, d)
  {
    ResolveMoveValid(l, awaited, FromSelecting(st), input);
  }

  /** A Move from DeckSearch that transfers panics exactly when a chosen position is past the deck, and otherwise leaves `MovedFromDeck`. */
  lemma TransferFromDeck(l: CardLayout, awaited: MoveAwaitedInput, st: PileSelectingState, input: I.Input, shuffled: seq<Card>)
    requires ModeValid(l, Move(awaited, FromDeckSearch(st)))
    requires ResolveMove(l, awaited, FromDeckSearch(st), input).Transfer?
    ensures PanicOf(l, Move(awaited, FromDeckSearch(st)), input) ==
      if OutOfRange(l.deck, st) then Some(IndexOutOfBounds) else None
    ensures var d := ResolveMove(l, awaited, FromDeckSearch(st), input).destination;
      && (d.target.SlotCards? ==> d.target.slot < |l.slots|)
      && (!OutOfRange(l.deck, st) ==> NextLayout(l, Move(awaited, FromDeckSearch(st)), input, shuffled) == MovedFromDeck(l, st, d))
  {
    ResolveMoveValid(l, awaited, FromDeckSearch(st), input);
  }

  /** The mode after a step that does not panic, read off the layout as it was before the step. */
  function NextMode(l: CardLayout, m: InputMode, input: I.Input): (r: InputMode)
    requires ModeValid(l, m) && PanicOf(l, m, input).None?
    ensures m.Move? && ResolveMove(l, m.awaitedInput, m.previousState, input).Transfer? ==>
      r == if m.previousState.FromSelecting? then Selecting(DefaultLayoutSelecting) else DeckSearch(DefaultPileSelecting)
    ensures m.Move? && input.Cancel? ==> r == ResolveMove(l, m.awaitedInput, m.previousState, input).mode
    ensures m.Deck? ==> r == DeckNext(l, input)
  {
    match m
    case Selecting(st) => SelectingNext(l, st, input)
    case Deck => DeckNext(l, input)
    case DeckSearch(st) => DeckSearchNext(l, st, input)
    case Look(_) => m
    case Swap(firstSlot) => SwapNext(l, firstSlot, input)
    case Move(awaited, previous) =>
      match ResolveMove(l, awaited, previous, input)
      case Restore(next) => next
      case Await(next) => next
      case Transfer(_) =>
        if previous.FromSelecting? then Selecting(DefaultLayoutSelecting) else DeckSearch(DefaultPileSelecting)
  }

  /** The alert a step raises: a die roll in Selecting mode, a shuffle in Deck mode. */
  function AlertOf(m: InputMode, input: I.Input, roll: DieRoll): (r: Option<UIAlert>)
    ensures r == Some(Shuffled) <==> m.Deck? && input.Shuffle?
    ensures r == Some(Roll(roll)) <==> m.Selecting? && input.Roll?
    ensures r.Some? ==> r == Some(Shuffled) || r == Some(Roll(roll))
  {
    if m.Selecting? && input.Roll? then Some(Roll(roll))
    else if m.Deck? && input.Shuffle? then Some(Shuffled)
    else None
  }

  /**
    One call of `update`. The alert is cleared first; a panicking step stops
    there. Otherwise the viewed layout and the mode move on, SwitchSides in
    Selecting mode puts the opponent on screen, and the alert is raised.
   */
  function Step(g: Game, input: I.Input, shuffled: seq<Card>, roll: DieRoll): (r: (Outcome, Game))
    requires GameValid(g) && StepAllowed(Current(g), g.inputMode, input, shuffled)
    ensures r.0.Panicked? ==> r.1 == g.(uiAlert := None)
    ensures r.0.Panicked? <==> PanicOf(Current(g), g.inputMode, input).Some?
    ensures LayoutOf(r.1, Opponent(g.currentlyViewing)) == LayoutOf(g, Opponent(g.currentlyViewing))
  {
    var l, m := Current(g), g.inputMode;
    var cleared := g.(uiAlert := None);
    match PanicOf(l, m, input)
    case Some(reason) => (Panicked(reason), cleared)
    case None =>
      var moved := WithLayout(cleared, g.currentlyViewing, NextLayout(l, m, input, shuffled));
      var viewing := if m.Selecting? && input.SwitchSides? then Opponent(g.currentlyViewing) else g.currentlyViewing;
      (Completed, moved.(currentlyViewing := viewing, inputMode := NextMode(l, m, input), uiAlert := AlertOf(m, input, roll)))
  }

  /** Two layouts whose piles have the same lengths accept the same cursors. */
  predicate SameShape(a: CardLayout, b: CardLayout)
  {
    && |a.slots| == |b.slots|
    && (forall s :: 0 <= s < |a.slots| ==> |a.slots[s].cards| == |b.slots[s].cards|)
    && |a.hand| == |b.hand| && |a.discard| == |b.discard| && |a.deck| == |b.deck|
    && |a.lostZone| == |b.lostZone| && |a.prizes| == |b.prizes| && |a.stadium| == |b.stadium|
  }

  lemma SameShapeModeValid(a: CardLayout, b: CardLayout, m: InputMode)
    requires SameShape(a, b) && ModeValid(a, m)
    ensures ModeValid(b, m)
  {
    forall sel | ValidAddress(a, sel) ensures ValidAddress(b, sel) {
    }
  }

  /** Every step that completes keeps the invariant. */
  lemma StepKeepsValid(g: Game, input: I.Input, shuffled: seq<Card>, roll: DieRoll)
    requires GameValid(g) && StepAllowed(Current(g), g.inputMode, input, shuffled)
    ensures Step(g, input, shuffled, roll).0.Completed? ==> GameValid(Step(g, input, shuffled, roll).1)
  {
    var l, m := Current(g), g.inputMode;
    if PanicOf(l, m, input).None? {
      var r := Step(g, input, shuffled, roll).1;
      var l' := NextLayout(l, m, input, shuffled);
      assert LayoutOf(r, g.currentlyViewing) == l';
      if m.Selecting? && input.SwitchSides? {
        assert Current(r) == LayoutOf(g, Opponent(g.currentlyViewing));
        assert ValidAddress(Current(r), DefaultSelection);
      } else {
        NextModeValid(l, m, input, shuffled);
        assert Current(r) == l';
      }
    }
  }

  /** Away from SwitchSides, the next mode is valid in the next layout. */
  lemma NextModeValid(l: CardLayout, m: InputMode, input: I.Input, shuffled: seq<Card>)
    requires ModeValid(l, m) && PanicOf(l, m, input).None? && StepAllowed(l, m, input, shuffled)
    requires |l.slots| > 0
    requires !(m.Selecting? && input.SwitchSides?)
    ensures ModeValid(NextLayout(l, m, input, shuffled), NextMode(l, m, input))
  {
    match m
    case Selecting(st) => SelectingModeValid(l, st, input, shuffled);
    case Deck =>
    case DeckSearch(st) =>
    case Look(_) =>
    case Swap(firstSlot) => SwapModeValid(l, firstSlot, input, shuffled);
    case Move(awaited, previous) => MoveModeValid(l, awaited, previous, input, shuffled);
  }

  lemma SelectingModeValid(l: CardLayout, st: LayoutSelectingState, input: I.Input, shuffled: seq<Card>)
    requires SelectingValid(l, st) && StepAllowed(l, Selecting(st), input, shuffled)
    requires |l.slots| > 0 && !input.SwitchSides?
    ensures ModeValid(NextLayout(l, Selecting(st), input, shuffled), SelectingNext(l, st, input))
  {
    var l' := NextLayout(l, Selecting(st), input, shuffled);
    SelectingNextValid(l, st, input);
    if input.Flip? || input.Increment? || input.Decrement? {
      assert SameShape(l, l');
      SameShapeModeValid(l, l', SelectingNext(l, st, input));
    } else {
      assert l' == l;
    }
  }

  lemma SwapModeValid(l: CardLayout, firstSlot: Option<nat>, input: I.Input, shuffled: seq<Card>)
    requires ModeValid(l, Swap(firstSlot)) && |l.slots| > 0
    ensures ModeValid(NextLayout(l, Swap(firstSlot), input, shuffled), SwapNext(l, firstSlot, input))
  {
    var l' := NextLayout(l, Swap(firstSlot), input, shuffled);
    SwapNextValid(l, firstSlot, input);
    if input.Slot? && 1 <= input.n <= |l.slots| && firstSlot.Some? {
      assert ValidAddress(l', DefaultSelection);
    }
  }

  lemma MoveModeValid(l: CardLayout, awaited: MoveAwaitedInput, previous: PreviousMovingState, input: I.Input,
                      shuffled: seq<Card>)
    requires ModeValid(l, Move(awaited, previous)) && PanicOf(l, Move(awaited, previous), input).None?
    requires |l.slots| > 0
    ensures ModeValid(NextLayout(l, Move(awaited, previous), input, shuffled), NextMode(l, Move(awaited, previous), input))
  {
    var l' := NextLayout(l, Move(awaited, previous), input, shuffled);
    ResolveMoveValid(l, awaited, previous, input);
    if ResolveMove(l, awaited, previous, input).Transfer? {
      assert ValidAddress(l', DefaultSelection);
    } else {
      assert l' == l;
    }
  }

  lemma {:induction false} SlotsCardsSameCards(a: seq<PokemonSlot>, b: seq<PokemonSlot>)
    requires |a| == |b| && forall s :: 0 <= s < |a| ==> a[s].cards == b[s].cards
    ensures SlotsCards(a) == SlotsCards(b)
    decreases |a|
  {
    if a != [] {
      SlotsCardsSameCards(a[..|a| - 1], b[..|b| - 1]);
    }
  }

  /** No step creates, destroys or hands over a card: each player keeps exactly their cards. */
  lemma StepKeepsCards(g: Game, input: I.Input, shuffled: seq<Card>, roll: DieRoll, p: Player)
    requires GameValid(g) && StepAllowed(Current(g), g.inputMode, input, shuffled)
    ensures CardsIn(LayoutOf(Step(g, input, shuffled, roll).1, p)) == CardsIn(LayoutOf(g, p))
  {
    var l, m := Current(g), g.inputMode;
    if PanicOf(l, m, input).None? && p == g.currentlyViewing {
      assert LayoutOf(Step(g, input, shuffled, roll).1, p) == NextLayout(l, m, input, shuffled);
      NextLayoutKeepsCards(l, m, input, shuffled);
    }
  }

  /** The viewed layout holds the same cards after every step that does not panic. */
  lemma NextLayoutKeepsCards(l: CardLayout, m: InputMode, input: I.Input, shuffled: seq<Card>)
    requires ModeValid(l, m) && PanicOf(l, m, input).None? && StepAllowed(l, m, input, shuffled)
    ensures CardsIn(NextLayout(l, m, input, shuffled)) == CardsIn(l)
  {
    match m
    case Selecting(st) => SelectingKeepsCards(l, st, input, shuffled);
    case Deck => DeckKeepsCards(l, input, shuffled);
    case DeckSearch(_) =>
    case Look(_) =>
    case Swap(firstSlot) => SwapKeepsCards(l, firstSlot, input, shuffled);
    case Move(awaited, previous) => MoveKeepsCards(l, awaited, previous, input, shuffled);
  }

  lemma SelectingKeepsCards(l: CardLayout, st: LayoutSelectingState, input: I.Input, shuffled: seq<Card>)
    requires ModeValid(l, Selecting(st)) && StepAllowed(l, Selecting(st), input, shuffled)
    ensures CardsIn(NextLayout(l, Selecting(st), input, shuffled)) == CardsIn(l)
  {
    if input.Flip? {
      FlipTwice(l.prizes, st.selected);
      PileByPileKeepsCards(l.(prizes := Flipped(l.prizes, st.selected)), l);
    } else if input.Increment? || input.Decrement? {
      DamageKeepsCards(l, st.selected, input.Increment?);
    }
  }

  lemma DeckKeepsCards(l: CardLayout, input: I.Input, shuffled: seq<Card>)
    requires !input.Observe? && StepAllowed(l, Deck, input, shuffled)
    ensures CardsIn(NextLayout(l, Deck, input, shuffled)) == CardsIn(l)
  {
    var r := NextLayout(l, Deck, input, shuffled);
    if input.Shuffle? {
      assert r == l.(deck := shuffled);
      PileByPileKeepsCards(r, l);
    } else if input.Deck? {
      assert r == Drawn(l);
    } else {
      assert r == l;
    }
  }

  lemma SwapKeepsCards(l: CardLayout, firstSlot: Option<nat>, input: I.Input, shuffled: seq<Card>)
    requires ModeValid(l, Swap(firstSlot))
    ensures CardsIn(NextLayout(l, Swap(firstSlot), input, shuffled)) == CardsIn(l)
  {
    if input.Slot? && 1 <= input.n <= |l.slots| && firstSlot.Some? {
      SlotsCardsSwap(l.slots, firstSlot.value - 1, input.n - 1);
      PileByPileKeepsCards(l.(slots := SwapAt(l.slots, firstSlot.value - 1, input.n - 1)), l);
    }
  }

  lemma MoveKeepsCards(l: CardLayout, awaited: MoveAwaitedInput, previous: PreviousMovingState, input: I.Input, shuffled: seq<Card>)
    requires ModeValid(l, Move(awaited, previous)) && PanicOf(l, Move(awaited, previous), input).None?
    ensures CardsIn(NextLayout(l, Move(awaited, previous), input, shuffled)) == CardsIn(l)
  {
    var step := ResolveMove(l, awaited, previous, input);
    ResolveMoveValid(l, awaited, previous, input);
    if step.Transfer? && previous.FromSelecting? {
      MoveFromSelectingKeepsCards(l, previous.selecting, step.destination);
    } else if step.Transfer? && previous.FromDeckSearch? {
      MoveFromDeckKeepsCards(l, previous.search, step.destination);
    }
  }

  /** Two layouts holding the same cards pile by pile hold the same cards. */
  lemma PileByPileKeepsCards(a: CardLayout, b: CardLayout)
    requires SlotsCards(a.slots) == SlotsCards(b.slots)
    requires a.hand == b.hand && a.discard == b.discard && a.lostZone == b.lostZone && a.stadium == b.stadium
    requires multiset(a.deck) == multiset(b.deck) && multiset(PrizeCards(a.prizes)) == multiset(PrizeCards(b.prizes))
    ensures CardsIn(a) == CardsIn(b)
  {
  }

  /** Changing damage counters moves no card. */
  lemma DamageKeepsCards(l: CardLayout, selected: set<Selection>, increment: bool)
    requires increment ==> DamageFits(l.slots, selected)
    ensures CardsIn(l.(slots := Damaged(l.slots, selected, increment))) == CardsIn(l)
  {
    SlotsCardsSameCards(Damaged(l.slots, selected, increment), l.slots);
    PileByPileKeepsCards(l.(slots := Damaged(l.slots, selected, increment)), l);
  }

  /** The invariant and the cards of both players, for a step given by its result. */
  lemma StepKeeps(g: Game, input: I.Input, shuffled: seq<Card>, roll: DieRoll, outcome: Outcome, g': Game)
    requires GameValid(g) && StepAllowed(Current(g), g.inputMode, input, shuffled)
    requires (outcome, g') == Step(g, input, shuffled, roll)
    ensures outcome.Completed? ==> GameValid(g')
    ensures CardsIn(g'.player1Layout) == CardsIn(g.player1Layout)
    ensures CardsIn(g'.player2Layout) == CardsIn(g.player2Layout)
  {
    StepKeepsValid(g, input, shuffled, roll);
    StepKeepsCards(g, input, shuffled, roll, Player1);
    StepKeepsCards(g, input, shuffled, roll, Player2);
  }

  /** A Move started from Selecting and then cancelled gives back the game as it was, alert cleared. */
  lemma MoveThenCancel(g: Game, shuffled: seq<Card>, roll: DieRoll)
    requires GameValid(g) && g.inputMode.Selecting?
    ensures var moving := Step(g, I.Move, shuffled, roll);
      && moving.0 == Completed
      && GameValid(moving.1)
      && Step(moving.1, I.Cancel, shuffled, roll) == (Completed, g.(uiAlert := None))
  {
    StepKeepsValid(g, I.Move, shuffled, roll);
  }

  /** A Move started from DeckSearch and then cancelled gives back the search as it was, alert cleared. */
  lemma MoveFromSearchThenCancel(g: Game, shuffled: seq<Card>, roll: DieRoll)
    requires GameValid(g) && g.inputMode.DeckSearch?
    ensures var moving := Step(g, I.Move, shuffled, roll);
      && moving.0 == Completed
      && GameValid(moving.1)
      && Step(moving.1, I.Cancel, shuffled, roll) == (Completed, g.(uiAlert := None))
  {
    StepKeepsValid(g, I.Move, shuffled, roll);
  }

  /**
    Pressing Right from the last deck position in DeckSearch puts the cursor
    one past the end; a Move to the top of the deck from there panics in
    `Vec::remove` and changes nothing.
   */
  lemma SearchPastEndPanics(g: Game, shuffled: seq<Card>, roll: DieRoll)
    requires GameValid(g) && Current(g).deck != []
    requires g.inputMode == DeckSearch(SelectingState({}, |Current(g).deck| - 1))
    ensures var g1 := Step(g, I.Right, shuffled, roll).1;
      var g2 := Step(g1, I.Move, shuffled, roll).1;
      && GameValid(g1) && GameValid(g2)
      && Step(g2, I.Top, shuffled, roll) == (Panicked(IndexOutOfBounds), g2)
  {
    var g1 := Step(g, I.Right, shuffled, roll).1;
    StepKeepsValid(g, I.Right, shuffled, roll);
    var g2 := Step(g1, I.Move, shuffled, roll).1;
    StepKeepsValid(g1, I.Move, shuffled, roll);
    var past: PileSelectingState := SelectingState({}, |Current(g).deck|);
    assert g1.inputMode == DeckSearch(past) && Current(g1) == Current(g);
    assert g2.inputMode == Move(Any, FromDeckSearch(past)) && Current(g2) == Current(g);
    var n := |Current(g).deck|;
    assert n in MoveSet(past) && n >= |Current(g2).deck|;
    assert OutOfRange(Current(g2).deck, past);
  }

  /** SwitchSides twice puts the first player back on screen, in default Selecting mode, with both layouts untouched. */
  lemma SwitchSidesTwice(g: Game, shuffled: seq<Card>, roll: DieRoll)
    requires GameValid(g) && g.inputMode.Selecting?
    ensures var once := Step(g, I.SwitchSides, shuffled, roll).1;
      && GameValid(once)
      && once.currentlyViewing == Opponent(g.currentlyViewing)
      && Step(once, I.SwitchSides, shuffled, roll).1
        == g.(inputMode := Selecting(DefaultLayoutSelecting), uiAlert := None)
  {
    StepKeepsValid(g, I.SwitchSides, shuffled, roll);
    var once := Step(g, I.SwitchSides, shuffled, roll).1;
    assert once.player1Layout == g.player1Layout && once.player2Layout == g.player2Layout;
  }

  /**
    The second valid slot number in Swap mode exchanges the two slots
    wholesale (cards and damage), touches nothing else and returns to
    default Selecting.
   */
  lemma SwapSecondSlot(g: Game, first: nat, n: nat, shuffled: seq<Card>, roll: DieRoll)
    requires GameValid(g) && g.inputMode == Swap(Some(first))
    requires 1 <= n <= |Current(g).slots|
    ensures Step(g, I.Slot(n), shuffled, roll) ==
      (Completed,
       WithLayout(g, g.currentlyViewing, Current(g).(slots := SwapAt(Current(g).slots, first - 1, n - 1)))
         .(inputMode := Selecting(DefaultLayoutSelecting), uiAlert := None))
  {
    var l := Current(g);
    SwapSecondSlotNoPanic(l, first, n, shuffled, roll);
    SwapSecondSlotLayout(l, first, n, shuffled);
    SwapSecondSlotMode(l, first, n);
    StepCompletes(g, I.Slot(n), shuffled, roll);
  }

  lemma SwapSecondSlotNoPanic(l: CardLayout, first: nat, n: nat, shuffled: seq<Card>, roll: DieRoll)
    requires ModeValid(l, Swap(Some(first))) && 1 <= n <= |l.slots|
    ensures PanicOf(l, Swap(Some(first)), I.Slot(n)).None?
    ensures StepAllowed(l, Swap(Some(first)), I.Slot(n), shuffled)
    ensures AlertOf(Swap(Some(first)), I.Slot(n), roll) == None
  {
  }

  lemma SwapSecondSlotLayout(l: CardLayout, first: nat, n: nat, shuffled: seq<Card>)
    requires ModeValid(l, Swap(Some(first))) && 1 <= n <= |l.slots|
    requires PanicOf(l, Swap(Some(first)), I.Slot(n)).None?
    requires StepAllowed(l, Swap(Some(first)), I.Slot(n), shuffled)
    ensures NextLayout(l, Swap(Some(first)), I.Slot(n), shuffled) == l.(slots := SwapAt(l.slots, first - 1, n - 1))
  {
  }

  lemma SwapSecondSlotMode(l: CardLayout, first: nat, n: nat)
    requires ModeValid(l, Swap(Some(first))) && 1 <= n <= |l.slots|
    requires PanicOf(l, Swap(Some(first)), I.Slot(n)).None?
    ensures NextMode(l, Swap(Some(first)), I.Slot(n)) == Selecting(DefaultLayoutSelecting)
  {
  }

  /** A step that does not panic is assembled from the next layout, the next mode and the alert. */
  lemma StepCompletes(g: Game, input: I.Input, shuffled: seq<Card>, roll: DieRoll)
    requires GameValid(g) && StepAllowed(Current(g), g.inputMode, input, shuffled)
    requires PanicOf(Current(g), g.inputMode, input).None?
    requires !(g.inputMode.Selecting? && input.SwitchSides?)
    ensures Step(g, input, shuffled, roll) == (Completed,
      WithLayout(g, g.currentlyViewing, NextLayout(Current(g), g.inputMode, input, shuffled))
        .(inputMode := NextMode(Current(g), g.inputMode, input), uiAlert := AlertOf(g.inputMode, input, roll)))
  {
  }

  /**
    In Move mode an input that is neither Cancel, nor a slot number, nor a
    key the awaited input accepts, changes nothing but the cleared alert.
   */
  lemma MoveIgnoresOtherInput(g: Game, input: I.Input, shuffled: seq<Card>, roll: DieRoll)
    requires GameValid(g) && g.inputMode.Move?
    requires !input.Cancel? && !input.Slot?
    requires g.inputMode.awaitedInput.SlotSpecific? ==> !input.Append? && !input.Prepend?
    requires g.inputMode.awaitedInput.Any? ==>
      !(input.Top? || input.Bottom? || input.Hand? || input.Discard? || input.LostZone? || input.Stadium?)
    ensures Step(g, input, shuffled, roll) == (Completed, g.(uiAlert := None))
  {
    var m := g.inputMode;
    var resolved := ResolveMove(Current(g), m.awaitedInput, m.previousState, input);
    assert resolved == Await(m);
    assert WithLayout(g.(uiAlert := None), g.currentlyViewing, Current(g)) == g.(uiAlert := None);
  }

  /**
    Flip, Increment, Decrement and Roll in Selecting mode leave the mode,
    cursor and selection included, as it was; Flip and the damage keys
    change only the prizes or the damage counters of the viewed layout.
   */
  lemma SelectingEditsKeepMode(g: Game, input: I.Input, shuffled: seq<Card>, roll: DieRoll)
    requires GameValid(g) && g.inputMode.Selecting?
    requires input.Flip? || input.Increment? || input.Decrement? || input.Roll?
    requires StepAllowed(Current(g), g.inputMode, input, shuffled)
    ensures var (outcome, g') := Step(g, input, shuffled, roll);
      && outcome == Completed && g'.inputMode == g.inputMode && g'.currentlyViewing == g.currentlyViewing
      && Current(g').(prizes := Current(g).prizes, slots := Current(g).slots) == Current(g)
      && (input.Flip? ==> Current(g').slots == Current(g).slots)
      && (!input.Flip? ==> Current(g').prizes == Current(g).prizes)
      && (input.Roll? <==> g'.uiAlert == Some(Roll(roll)))
  {
  }
}
