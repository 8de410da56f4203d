/**
  Addresses into one player's layout (Rust `Selection`, src/state.rs:44-113)
  and the generic cursor-plus-multiselect record (`SelectingState<T>`,
  src/state.rs:115-148).
 */
module Selections {
  import opened Options
  import Ordering

  /**
    A card position in the viewed layout. A `Slot` address carries the slot
    and, when the slot is not empty, the position of a card inside its stack.
   */
  datatype Selection =
    | Slot(slotIndex: nat, pokemonIndex: Option<nat>)
    | Hand(index: nat)
    | Discard(index: nat)
    | LostZone(index: nat)
    | Prize(index: nat)
    | Stadium(index: nat)

  /** `Selection::default()`: the active slot, no card inside it. */
  const DefaultSelection: Selection := Slot(0, None)

  /** The innermost index: the position inside the slot, or the plain index. */
  function DeepestIndex(sel: Selection): (r: Option<nat>)
    ensures sel.Slot? ==> r == sel.pokemonIndex
    ensures !sel.Slot? ==> r == Some(sel.index)
  {
    match sel
    case Slot(_, pokemonIndex) => pokemonIndex
    case Hand(index) => Some(index)
    case Discard(index) => Some(index)
    case LostZone(index) => Some(index)
    case Prize(index) => Some(index)
    case Stadium(index) => Some(index)
  }

  /**
    Position of the variant in the declaration, which is what the derived
    `Ord` of a Rust enum compares first.
   */
  function Rank(sel: Selection): (r: nat)
    ensures r < 6
    ensures (r == 0 <==> sel.Slot?) && (r == 1 <==> sel.Hand?) && (r == 2 <==> sel.Discard?)
    ensures (r == 3 <==> sel.LostZone?) && (r == 4 <==> sel.Prize?) && (r == 5 <==> sel.Stadium?)
  {
    match sel
    case Slot(_, _) => 0
    case Hand(_) => 1
    case Discard(_) => 2
    case LostZone(_) => 3
    case Prize(_) => 4
    case Stadium(_) => 5
  }

  /**
    `change_deepest_index`: shift the innermost index by `change`, leaving an
    index of 0 as it is when the change is negative. An empty-slot address
    has no innermost index and is returned unchanged.
   */
  function ChangeDeepestIndex(sel: Selection, change: int): (r: Selection)
    requires change >= -1
    ensures Rank(r) == Rank(sel)
    ensures sel.Slot? ==> r.slotIndex == sel.slotIndex
    ensures DeepestIndex(sel).None? ==> r == sel
    ensures DeepestIndex(sel) == Some(0) && change < 0 ==> r == sel
    ensures DeepestIndex(sel).Some? && (DeepestIndex(sel).value > 0 || change >= 0) ==>
      DeepestIndex(r) == Some(DeepestIndex(sel).value + change)
  {
    var apply := (u: nat) => if u == 0 && change < 0 then u else u + change;
    match sel
    case Slot(slotIndex, Some(u)) => Slot(slotIndex, Some(apply(u)))
    case Slot(_, None) => sel
    case Hand(index) => Hand(apply(index))
    case Discard(index) => Discard(apply(index))
    case LostZone(index) => LostZone(apply(index))
    case Prize(index) => Prize(apply(index))
    case Stadium(index) => Stadium(apply(index))
  }

  /** A step right followed by a step left returns to the same address. */
  lemma {:induction false} RightThenLeft(sel: Selection)
    ensures ChangeDeepestIndex(ChangeDeepestIndex(sel, 1), -1) == sel
  {
    match sel
    case Slot(_, _) =>
    case Hand(_) =>
    case Discard(_) =>
    case LostZone(_) =>
    case Prize(_) =>
    case Stadium(_) =>
  }

  /** `None < Some(_)`, and `Some` values by their contents (derived `Ord` of `Option`). */
  predicate OptionLess(a: Option<nat>, b: Option<nat>)
  {
    match (a, b)
    case (None, Some(_)) => true
    case (Some(x), Some(y)) => x < y
    case _ => false
  }

  /**
    The derived `Ord` of `Selection`: by variant first, then field by field
    (`slot_index` before `pokemon_index`).
   */
  predicate SelectionLess(a: Selection, b: Selection)
  {
    if Rank(a) != Rank(b) then Rank(a) < Rank(b)
    else if a.Slot? then
      a.slotIndex < b.slotIndex || (a.slotIndex == b.slotIndex && OptionLess(a.pokemonIndex, b.pokemonIndex))
    else a.index < b.index
  }

  lemma SelectionLessIsStrictTotalOrder()
    ensures Ordering.StrictTotalOrder(SelectionLess)
  {
    forall a, b | a != b
      ensures SelectionLess(a, b) || SelectionLess(b, a)
    {
      if Rank(a) == Rank(b) && a.Slot? && a.slotIndex == b.slotIndex {
        assert a.pokemonIndex != b.pokemonIndex;
      }
    }
  }

  /**
    Within one zone the order of addresses is the order of their innermost
    indices, so a descending walk over addresses is a descending walk over
    each zone's positions.
   */
  lemma SameZoneOrder(a: Selection, b: Selection)
    requires SelectionLess(a, b)
    requires Rank(a) == Rank(b) && (a.Slot? ==> a.slotIndex == b.slotIndex)
    requires DeepestIndex(a).Some? && DeepestIndex(b).Some?
    ensures DeepestIndex(a).value < DeepestIndex(b).value
  {
  }

  /** A cursor and the set of addresses selected so far. */
  datatype SelectingState<T> = SelectingState(selected: set<T>, currentHighlight: T)
  {
    /** Move the cursor; the selection is kept. */
    function ChangeHighlight(newHighlight: T): (r: SelectingState<T>)
      ensures r.currentHighlight == newHighlight && r.selected == selected
    {
      this.(currentHighlight := newHighlight)
    }

    /** Drop every selected address; the cursor stays where it is. */
    function ClearSelected(): (r: SelectingState<T>)
      ensures r.selected == {} && r.currentHighlight == currentHighlight
    {
      this.(selected := {})
    }

    /** Add the cursor's address to the selection (a set: adding twice is adding once). */
    function AddToSelection(): (r: SelectingState<T>)
      ensures r.currentHighlight == currentHighlight
      ensures currentHighlight in r.selected && selected <= r.selected
      ensures forall x :: x in r.selected ==> x in selected || x == currentHighlight
    {
      this.(selected := selected + {currentHighlight})
    }
  }

  lemma AddToSelectionIdempotent<T>(st: SelectingState<T>)
    ensures st.AddToSelection().AddToSelection() == st.AddToSelection()
  {
  }

  type LayoutSelectingState = SelectingState<Selection>

  type PileSelectingState = SelectingState<nat>

  /** `LayoutSelectingState::default()`: nothing selected, cursor on the empty-handed active slot. */
  const DefaultLayoutSelecting: LayoutSelectingState := SelectingState({}, DefaultSelection)

  /** `PileSelectingState::default()`: nothing selected, cursor at deck position 0. */
  const DefaultPileSelecting: PileSelectingState := SelectingState({}, 0)
}
