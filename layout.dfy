/**
  One player's card layout (Rust `CardLayout`, src/state.rs:8-42): the
  piles, the six slots with their damage counters and the prizes, together
  with the loops of the source that rewrite a layout in place: the prize
  loop of `setup`, drawing a card, flipping prizes and changing damage.
 */
module Layouts {
  import opened Options
  import opened Selections
  import opened Piles

  /** A card is an opaque index into the card catalogue (`usize`). */
  type Card = nat

  /** The damage counter is a `u8`. */
  type U8 = n: nat | n < 256

  datatype PokemonSlot = PokemonSlot(cards: seq<Card>, damage: U8)

  datatype PrizeCard = PrizeCard(card: Card, isFaceUp: bool)

  /** The last card of `deck` is the top of the deck. */
  datatype CardLayout = CardLayout(
    slots: seq<PokemonSlot>,
    hand: seq<Card>,
    discard: seq<Card>,
    deck: seq<Card>,
    lostZone: seq<Card>,
    prizes: seq<PrizeCard>,
    stadium: seq<Card>)

  /** The number of board slots `make` creates. */
  const SlotCount: nat := 6

  /** The number of prizes `setup` lays out. */
  const PrizeCount: nat := 6

  /** An address that names an existing card, or an existing slot with no card index. */
  predicate ValidAddress(l: CardLayout, sel: Selection)
  {
    match sel
    case Slot(s, None) => s < |l.slots|
    case Slot(s, Some(k)) => s < |l.slots| && k < |l.slots[s].cards|
    case Hand(i) => i < |l.hand|
    case Discard(i) => i < |l.discard|
    case LostZone(i) => i < |l.lostZone|
    case Prize(i) => i < |l.prizes|
    case Stadium(i) => i < |l.stadium|
  }

  /**
    `highlighted_list_length`: the length of the pile the address points
    into. It is always `Some`; the source matches on it anyway.
   */
  function HighlightedListLength(l: CardLayout, h: Selection): (r: Option<nat>)
    requires h.Slot? ==> h.slotIndex < |l.slots|
    ensures r.Some?
    ensures h.Slot? ==> r.value == |l.slots[h.slotIndex].cards|
    ensures h.Hand? ==> r.value == |l.hand|
    ensures h.Discard? ==> r.value == |l.discard|
    ensures h.LostZone? ==> r.value == |l.lostZone|
    ensures h.Prize? ==> r.value == |l.prizes|
    ensures h.Stadium? ==> r.value == |l.stadium|
    ensures DeepestIndex(h).Some? ==> (ValidAddress(l, h) <==> DeepestIndex(h).value < r.value)
  {
    match h
    case Slot(s, _) => Some(|l.slots[s].cards|)
    case Hand(_) => Some(|l.hand|)
    case Discard(_) => Some(|l.discard|)
    case LostZone(_) => Some(|l.lostZone|)
    case Prize(_) => Some(|l.prizes|)
    case Stadium(_) => Some(|l.stadium|)
  }

  /**
    The card an address takes when it is moved: `None` only for an empty-slot
    address; a prize yields its card whether or not it is face up.
   */
  function CardUnder(l: CardLayout, sel: Selection): (r: Option<Card>)
    requires ValidAddress(l, sel)
    ensures r.None? <==> (sel.Slot? && sel.pokemonIndex.None?)
  {
    match sel
    case Slot(s, None) => None
    case Slot(s, Some(k)) => Some(l.slots[s].cards[k])
    case Hand(i) => Some(l.hand[i])
    case Discard(i) => Some(l.discard[i])
    case LostZone(i) => Some(l.lostZone[i])
    case Prize(i) => Some(l.prizes[i].card)
    case Stadium(i) => Some(l.stadium[i])
  }

  /** The cards held by a run of slots. */
  function SlotsCards(slots: seq<PokemonSlot>): multiset<Card>
    decreases |slots|
  {
    if slots == [] then multiset{}
    else SlotsCards(slots[..|slots| - 1]) + multiset(slots[|slots| - 1].cards)
  }

  /** The cards of a run of prizes, without their face-up flags. */
  function PrizeCards(prizes: seq<PrizeCard>): (r: seq<Card>)
    ensures |r| == |prizes|
    ensures forall i :: 0 <= i < |prizes| ==> r[i] == prizes[i].card
  {
    seq(|prizes|, i requires 0 <= i < |prizes| => prizes[i].card)
  }

  /** Every card of the layout, wherever it lies. */
  function CardsIn(l: CardLayout): multiset<Card>
  {
    SlotsCards(l.slots) + multiset(l.hand) + multiset(l.discard) + multiset(l.deck)
      + multiset(l.lostZone) + multiset(PrizeCards(l.prizes)) + multiset(l.stadium)
  }

  /** Replacing one slot changes the slot cards by exactly that slot's cards. */
  lemma {:induction false} SlotsCardsUpdate(slots: seq<PokemonSlot>, i: nat, x: PokemonSlot)
    requires i < |slots|
    ensures SlotsCards(slots[i := x]) + multiset(slots[i].cards) == SlotsCards(slots) + multiset(x.cards)
    decreases |slots|
  {
    var n := |slots| - 1;
    var updated := slots[i := x];
    assert SlotsCards(updated) == SlotsCards(updated[..n]) + multiset(updated[n].cards);
    assert SlotsCards(slots) == SlotsCards(slots[..n]) + multiset(slots[n].cards);
    if i == n {
      assert updated[..n] == slots[..n];
    } else {
      assert updated[..n] == slots[..n][i := x];
      assert updated[n] == slots[n] && slots[..n][i] == slots[i];
      SlotsCardsUpdate(slots[..n], i, x);
      MultisetShift(SlotsCards(slots[..n][i := x]), SlotsCards(slots[..n]),
        multiset(slots[i].cards), multiset(x.cards), multiset(slots[n].cards));
    }
  }

  lemma MultisetShift<T>(p: multiset<T>, q: multiset<T>, a: multiset<T>, b: multiset<T>, c: multiset<T>)
    requires p + a == q + b
    ensures (p + c) + a == (q + c) + b
  {
    assert forall x :: ((p + c) + a)[x] == (p + a)[x] + c[x];
    assert forall x :: ((q + c) + b)[x] == (q + b)[x] + c[x];
  }

  /** Exchanging two slots wholesale keeps the cards on the board. */
  lemma SlotsCardsSwap(slots: seq<PokemonSlot>, i: nat, j: nat)
    requires i < |slots| && j < |slots|
    ensures SlotsCards(slots[i := slots[j]][j := slots[i]]) == SlotsCards(slots)
  {
    if i == j {
      assert slots[i := slots[j]][j := slots[i]] == slots;
    } else {
      var once := slots[i := slots[j]];
      var twice := once[j := slots[i]];
      SlotsCardsUpdate(slots, i, slots[j]);
      assert once[j] == slots[j];
      SlotsCardsUpdate(once, j, slots[i]);
      var a, b := SlotsCards(twice), SlotsCards(slots);
      var mi, mj := multiset(slots[i].cards), multiset(slots[j].cards);
      assert SlotsCards(once) + mi == b + mj;
      assert a + mj == SlotsCards(once) + mi;
      assert a + mj == b + mj;
      MultisetCancel(a, b, mj);
    }
  }

  lemma MultisetCancel<T>(a: multiset<T>, b: multiset<T>, c: multiset<T>)
    requires a + c == b + c
    ensures a == b
  {
    assert forall x :: a[x] == (a + c)[x] - c[x];
    assert forall x :: b[x] == (b + c)[x] - c[x];
  }

  /** The first `k` prizes laid out from the top of `d`, face down, top card first. */
  function TopFaceDown(d: seq<Card>, k: nat): (r: seq<PrizeCard>)
    requires k <= |d|
    ensures |r| == k
    ensures forall j :: 0 <= j < k ==> r[j] == PrizeCard(d[|d| - 1 - j], false)
  {
    seq(k, j requires 0 <= j < k => PrizeCard(d[|d| - 1 - j], false))
  }

  /**
    The layout `setup` leaves: the deck rearranged as `shuffled`, then up to
    six cards taken from its top and laid out, top card first, as face-down
    prizes after the existing ones.
   */
  function SetUpLayout(layout: CardLayout, shuffled: seq<Card>): (r: CardLayout)
    ensures |shuffled| >= PrizeCount ==> |r.deck| == |shuffled| - PrizeCount && |r.prizes| == |layout.prizes| + PrizeCount
    ensures |shuffled| < PrizeCount ==> r.deck == [] && |r.prizes| == |layout.prizes| + |shuffled|
    ensures r.(deck := layout.deck, prizes := layout.prizes) == layout
  {
    var k := if |shuffled| < PrizeCount then |shuffled| else PrizeCount;
    layout.(deck := shuffled[..|shuffled| - k], prizes := layout.prizes + TopFaceDown(shuffled, k))
  }

  /**
    What `setup` deals: the deck that is left is the bottom of the shuffled
    deck, the old prizes stay in front, and the j-th new prize is the j-th card
    from the top, face down.
   */
  lemma SetUpDealsFromTop(layout: CardLayout, shuffled: seq<Card>)
    ensures var r := SetUpLayout(layout, shuffled);
      && r.deck == shuffled[..|r.deck|]
      && r.prizes[..|layout.prizes|] == layout.prizes
      && forall j :: |layout.prizes| <= j < |r.prizes| ==>
        r.prizes[j] == PrizeCard(shuffled[|shuffled| - 1 - (j - |layout.prizes|)], false)
  {
    var r := SetUpLayout(layout, shuffled);
    var k := if |shuffled| < PrizeCount then |shuffled| else PrizeCount;
    assert r.prizes == layout.prizes + TopFaceDown(shuffled, k);
  }

  /**
    `setup` for one layout: shuffle the deck, then six times pop the top card
    (if there is one) onto the end of the prizes, face down. The shuffle
    draws on `thread_rng`; its outcome is the parameter `shuffled`, any
    rearrangement of the deck.
   */
  method SetupLayout(layout: CardLayout, shuffled: seq<Card>) returns (r: CardLayout)
    requires multiset(shuffled) == multiset(layout.deck)
    ensures r == SetUpLayout(layout, shuffled)
    ensures |layout.deck| >= PrizeCount ==>
      |r.deck| == |layout.deck| - PrizeCount && |r.prizes| == |layout.prizes| + PrizeCount
    ensures forall j :: |layout.prizes| <= j < |r.prizes| ==> !r.prizes[j].isFaceUp
    ensures CardsIn(r) == CardsIn(layout)
  {
    assert |shuffled| == |multiset(shuffled)| == |multiset(layout.deck)| == |layout.deck|;
    r := layout.(deck := shuffled);
    ghost var taken: nat := 0;
    for i := 0 to PrizeCount
      invariant taken <= i && taken <= |shuffled| && (taken < i ==> taken == |shuffled|)
      invariant r.deck == shuffled[..|shuffled| - taken]
      invariant r.prizes == layout.prizes + TopFaceDown(shuffled, taken)
      invariant r.(deck := layout.deck, prizes := layout.prizes) == layout
    {
      if r.deck != [] {
        var topCard := r.deck[|r.deck| - 1];
        TopFaceDownStep(shuffled, taken);
        r := r.(deck := r.deck[..|r.deck| - 1], prizes := r.prizes + [PrizeCard(topCard, false)]);
        taken := taken + 1;
      }
    }
    SetUpKeepsCards(layout, shuffled);
  }

  /** The prizes laid out from the top of a deck hold exactly the cards taken off it. */
  lemma SetUpKeepsCards(l: CardLayout, shuffled: seq<Card>)
    ensures multiset(shuffled) == multiset(l.deck) ==> CardsIn(SetUpLayout(l, shuffled)) == CardsIn(l)
  {
    if multiset(shuffled) == multiset(l.deck) {
      var k := if |shuffled| < PrizeCount then |shuffled| else PrizeCount;
      TopFaceDownCards(shuffled, k);
      var r := SetUpLayout(l, shuffled);
      assert PrizeCards(r.prizes) == PrizeCards(l.prizes) + PrizeCards(TopFaceDown(shuffled, k));
      assert DeckAndPrizeCards(r) == DeckAndPrizeCards(l);
      SameElsewhereKeepsCards(r, l);
    }
  }

  lemma TopFaceDownCards(d: seq<Card>, k: nat)
    requires k <= |d|
    ensures multiset(d[..|d| - k]) + multiset(PrizeCards(TopFaceDown(d, k))) == multiset(d)
  {
    var n := |d| - k;
    var top := TopFaceDown(d, k);
    assert PrizeCards(top) == Reversed(d[n..]) by {
      forall j | 0 <= j < k ensures PrizeCards(top)[j] == Reversed(d[n..])[j] {
        ReversedIndex(d[n..], j);
      }
    }
    ReversedMultiset(d[n..]);
    assert d == d[..n] + d[n..];
  }

  lemma TopFaceDownStep(d: seq<Card>, k: nat)
    requires k < |d|
    ensures TopFaceDown(d, k + 1) == TopFaceDown(d, k) + [PrizeCard(d[|d| - 1 - k], false)]
  {
  }

  /** The cards of the deck and the prizes together. */
  function DeckAndPrizeCards(l: CardLayout): multiset<Card>
  {
    multiset(l.deck) + multiset(PrizeCards(l.prizes))
  }

  /** Two layouts that differ only in deck and prizes, with the same cards there, hold the same cards. */
  lemma SameElsewhereKeepsCards(a: CardLayout, b: CardLayout)
    requires a.(deck := b.deck, prizes := b.prizes) == b
    requires DeckAndPrizeCards(a) == DeckAndPrizeCards(b)
    ensures CardsIn(a) == CardsIn(b)
  {
    var rest := SlotsCards(b.slots) + multiset(b.hand) + multiset(b.discard) + multiset(b.lostZone) + multiset(b.stadium);
    assert CardsIn(a) == rest + DeckAndPrizeCards(a);
    assert CardsIn(b) == rest + DeckAndPrizeCards(b);
  }

  /**
    Drawing in Deck mode: pop the top of the deck and push it onto the end of
    the hand; an empty deck draws nothing.
   */
  function Drawn(layout: CardLayout): (r: CardLayout)
    ensures layout.deck == [] ==> r == layout
    ensures layout.deck != [] ==>
      && r.deck + [layout.deck[|layout.deck| - 1]] == layout.deck
      && r.hand == layout.hand + [layout.deck[|layout.deck| - 1]]
    ensures r.(deck := layout.deck, hand := layout.hand) == layout
    ensures CardsIn(r) == CardsIn(layout)
  {
    if layout.deck == [] then layout
    else
      var topCard := layout.deck[|layout.deck| - 1];
      assert layout.deck == layout.deck[..|layout.deck| - 1] + [topCard];
      layout.(deck := layout.deck[..|layout.deck| - 1], hand := layout.hand + [topCard])
  }

  /**
    `Flip`: toggle the face-up flag of every prize whose address is selected.
    Collects the prize indices from the selection, then toggles each.
   */
  method FlipPrizes(prizes: seq<PrizeCard>, selected: set<Selection>) returns (r: seq<PrizeCard>)
    requires forall sel :: sel in selected && sel.Prize? ==> sel.index < |prizes|
    ensures r == Flipped(prizes, selected)
    ensures |r| == |prizes|
    ensures forall i :: 0 <= i < |r| ==>
      r[i].card == prizes[i].card && (r[i].isFaceUp <==> (prizes[i].isFaceUp != (Prize(i) in selected)))
  {
    var indicesToFlip: seq<nat> := [];
    var rest := selected;
    while rest != {}
      invariant rest <= selected
      invariant forall k :: 0 <= k < |indicesToFlip| ==> indicesToFlip[k] < |prizes|
      invariant forall i :: i in indicesToFlip <==> Prize(i) in selected - rest
      invariant forall a, b :: 0 <= a < b < |indicesToFlip| ==> indicesToFlip[a] != indicesToFlip[b]
      decreases rest
    {
      var selection :| selection in rest;
      if selection.Prize? {
        indicesToFlip := indicesToFlip + [selection.index];
      }
      rest := rest - {selection};
    }
    r := prizes;
    for j := 0 to |indicesToFlip|
      invariant |r| == |prizes|
      invariant forall i :: 0 <= i < |r| ==>
        r[i].card == prizes[i].card && (r[i].isFaceUp <==> (prizes[i].isFaceUp != (i in indicesToFlip[..j])))
    {
      var index := indicesToFlip[j];
      assert indicesToFlip[..j + 1] == indicesToFlip[..j] + [index];
      r := r[index := r[index].(isFaceUp := !r[index].isFaceUp)];
    }
    assert indicesToFlip[..|indicesToFlip|] == indicesToFlip;
  }

  /** The prizes with the face-up flag of every selected prize toggled. */
  function Flipped(prizes: seq<PrizeCard>, selected: set<Selection>): seq<PrizeCard>
  {
    seq(|prizes|, i requires 0 <= i < |prizes| => prizes[i].(isFaceUp := prizes[i].isFaceUp != (Prize(i) in selected)))
  }

  /** Flipping the same selection twice puts every prize back as it was, and flipping keeps the prize cards. */
  lemma FlipTwice(prizes: seq<PrizeCard>, selected: set<Selection>)
    ensures Flipped(Flipped(prizes, selected), selected) == prizes
    ensures PrizeCards(Flipped(prizes, selected)) == PrizeCards(prizes)
  {
    var once := Flipped(prizes, selected);
    assert forall i :: 0 <= i < |prizes| ==> Flipped(once, selected)[i] == prizes[i];
    assert forall i :: 0 <= i < |prizes| ==> PrizeCards(once)[i] == PrizeCards(prizes)[i];
  }

  /** The selected card addresses that lie in slot `s`. */
  function SelectedInSlot(selected: set<Selection>, s: nat): set<Selection>
  {
    set sel | sel in selected && sel.Slot? && sel.slotIndex == s && sel.pokemonIndex.Some?
  }

  /** Damage after `n` increments, or after `n` decrements that stop at zero. */
  function Adjusted(d: nat, n: nat, increment: bool): nat
  {
    if increment then d + n else if d >= n then d - n else 0
  }

  /** No slot's damage passes 255 when every selected card of it adds one. */
  predicate DamageFits(slots: seq<PokemonSlot>, selected: set<Selection>)
  {
    forall s :: 0 <= s < |slots| ==> slots[s].damage + |SelectedInSlot(selected, s)| < 256
  }

  /** The slots with every damage counter adjusted by its slot's number of selected cards. */
  function Damaged(slots: seq<PokemonSlot>, selected: set<Selection>, increment: bool): seq<PokemonSlot>
    requires increment ==> DamageFits(slots, selected)
  {
    seq(|slots|, s requires 0 <= s < |slots| =>
      slots[s].(damage := Adjusted(slots[s].damage, |SelectedInSlot(selected, s)|, increment)))
  }

  /**
    Decrement undoes Increment for the same selection; the other order only
    when no selected slot's damage would stop at zero.
   */
  lemma IncrementThenDecrement(slots: seq<PokemonSlot>, selected: set<Selection>)
    requires DamageFits(slots, selected)
    ensures Damaged(Damaged(slots, selected, true), selected, false) == slots
    ensures (forall s :: 0 <= s < |slots| ==> |SelectedInSlot(selected, s)| <= slots[s].damage) ==>
      Damaged(Damaged(slots, selected, false), selected, true) == slots
  {
    var up := Damaged(slots, selected, true);
    assert forall s :: 0 <= s < |slots| ==> Damaged(up, selected, false)[s] == slots[s];
    if forall s :: 0 <= s < |slots| ==> |SelectedInSlot(selected, s)| <= slots[s].damage {
      var down := Damaged(slots, selected, false);
      assert DamageFits(down, selected);
      assert forall s :: 0 <= s < |slots| ==> Damaged(down, selected, true)[s] == slots[s];
    }
  }

  lemma SelectedInSlotStep(done: set<Selection>, sel: Selection, s: nat)
    requires sel !in done
    ensures |SelectedInSlot(done + {sel}, s)| ==
      |SelectedInSlot(done, s)| + (if sel.Slot? && sel.slotIndex == s && sel.pokemonIndex.Some? then 1 else 0)
  {
    if sel.Slot? && sel.slotIndex == s && sel.pokemonIndex.Some? {
      assert SelectedInSlot(done + {sel}, s) == SelectedInSlot(done, s) + {sel};
    } else {
      assert SelectedInSlot(done + {sel}, s) == SelectedInSlot(done, s);
    }
  }

  /**
    The first loop of `Increment` / `Decrement`: every selected address that
    names a card in a slot pushes that slot once onto the list to affect.
   */
  method CollectSlotsToAffect(slots: seq<PokemonSlot>, selected: set<Selection>)
    returns (slotsToAffect: seq<nat>)
    requires forall sel :: sel in selected && sel.Slot? && sel.pokemonIndex.Some? ==> sel.slotIndex < |slots|
    ensures forall k :: 0 <= k < |slotsToAffect| ==> slotsToAffect[k] < |slots|
    ensures forall s :: multiset(slotsToAffect)[s] == |SelectedInSlot(selected, s)|
  {
    slotsToAffect := [];
    var rest := selected;
    while rest != {}
      invariant rest <= selected
      invariant forall k :: 0 <= k < |slotsToAffect| ==> slotsToAffect[k] < |slots|
      invariant forall s :: multiset(slotsToAffect)[s] == |SelectedInSlot(selected - rest, s)|
      decreases rest
    {
      var selection :| selection in rest;
      ghost var done := selected - rest;
      forall s ensures |SelectedInSlot(done + {selection}, s)| ==
        |SelectedInSlot(done, s)| + (if selection.Slot? && selection.slotIndex == s && selection.pokemonIndex.Some? then 1 else 0)
      {
        SelectedInSlotStep(done, selection, s);
      }
      if selection.Slot? && selection.pokemonIndex.Some? {
        slotsToAffect := slotsToAffect + [selection.slotIndex];
      }
      rest := rest - {selection};
      assert selected - rest == done + {selection};
    }
    assert selected - rest == selected;
  }

  /** The closure `f` of `Increment` / `Decrement`: add one, or take one off unless already zero. */
  function Bump(u: nat, increment: bool): nat
  {
    if increment then u + 1 else if u > 0 then u - 1 else u
  }

  /** `r` is `slots` with each damage adjusted by the number of times its slot occurs in `w`. */
  predicate Tally(slots: seq<PokemonSlot>, r: seq<PokemonSlot>, w: seq<nat>, increment: bool)
  {
    && |r| == |slots|
    && forall s :: 0 <= s < |r| ==>
      && r[s].cards == slots[s].cards
      && r[s].damage == Adjusted(slots[s].damage, multiset(w)[s], increment)
  }

  /** One pass of the second loop: applying `f` to slot `v[j]` counts that occurrence. */
  lemma AdjustStep(slots: seq<PokemonSlot>, r: seq<PokemonSlot>, v: seq<nat>, j: nat, increment: bool)
    requires j < |v| && v[j] < |slots|
    requires Tally(slots, r, v[..j], increment)
    requires increment ==> slots[v[j]].damage + multiset(v)[v[j]] < 256
    ensures Bump(r[v[j]].damage, increment) < 256
    ensures Tally(slots, r[v[j] := r[v[j]].(damage := Bump(r[v[j]].damage, increment))], v[..j + 1], increment)
  {
    var slot := v[j];
    assert v[..j + 1] == v[..j] + [slot];
    assert v == v[..j + 1] + v[j + 1..];
    assert multiset(v[..j + 1])[slot] <= multiset(v)[slot];
  }

  /**
    `Increment` / `Decrement`: a slot changes by one for each of its selected
    cards; decrement stops at zero.
   */
  method AdjustDamage(slots: seq<PokemonSlot>, selected: set<Selection>, increment: bool)
    returns (r: seq<PokemonSlot>)
    requires forall sel :: sel in selected && sel.Slot? && sel.pokemonIndex.Some? ==> sel.slotIndex < |slots|
    requires increment ==> DamageFits(slots, selected)
    ensures r == Damaged(slots, selected, increment)
    ensures |r| == |slots|
    ensures forall s :: 0 <= s < |r| ==>
      && r[s].cards == slots[s].cards
      && r[s].damage == Adjusted(slots[s].damage, |SelectedInSlot(selected, s)|, increment)
  {
    var slotsToAffect := CollectSlotsToAffect(slots, selected);
    r := slots;
    assert slotsToAffect[..0] == [];
    for j := 0 to |slotsToAffect|
      invariant Tally(slots, r, slotsToAffect[..j], increment)
    {
      var slot := slotsToAffect[j];
      AdjustStep(slots, r, slotsToAffect, j, increment);
      r := r[slot := r[slot].(damage := Bump(r[slot].damage, increment))];
    }
    assert slotsToAffect[..|slotsToAffect|] == slotsToAffect;
  }
}
