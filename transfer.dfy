/**
  The card transfer of `handle_move` (src/state.rs:628-697): the move set is
  the selection plus the cursor; it is sorted, then popped from the back, so
  addresses are removed in descending order and no removal shifts a position
  still to be removed. The removed cards are then appended to, or inserted one
  by one at the front of, the destination pile.

  `RemoveAll` is the declarative meaning of the removal loop: every pile with
  the addressed positions taken out, everything else in place.
 */
module Transfer {
  import opened Options
  import opened Piles
  import Ordering
  import opened Selections
  import opened Layouts
  import opened Modes

  /** `x` addresses a card of the zone of variant `rank` (and, for slots, of slot `s`). */
  predicate InZone(x: Selection, rank: nat, s: nat)
  {
    Rank(x) == rank && DeepestIndex(x).Some? && (x.Slot? ==> x.slotIndex == s)
  }

  /** The positions the addresses of `P` name in one zone. */
  function ZoneIndices(P: set<Selection>, rank: nat, s: nat): set<nat>
  {
    set x | x in P && InZone(x, rank, s) :: DeepestIndex(x).value
  }

  /** The layout with every card addressed by `P` taken out; the deck is not addressed by a `Selection`. */
  function RemoveAll(l: CardLayout, P: set<Selection>): (r: CardLayout)
    ensures |r.slots| == |l.slots|
    ensures forall s :: 0 <= s < |l.slots| ==>
      r.slots[s] == l.slots[s].(cards := Without(l.slots[s].cards, ZoneIndices(P, 0, s)))
  {
    CardLayout(
      seq(|l.slots|, s requires 0 <= s < |l.slots| =>
        l.slots[s].(cards := Without(l.slots[s].cards, ZoneIndices(P, 0, s)))),
      Without(l.hand, ZoneIndices(P, 1, 0)),
      Without(l.discard, ZoneIndices(P, 2, 0)),
      l.deck,
      Without(l.lostZone, ZoneIndices(P, 3, 0)),
      Without(l.prizes, ZoneIndices(P, 4, 0)),
      Without(l.stadium, ZoneIndices(P, 5, 0)))
  }

  /** The cards an optional card stands for. */
  function OptCards(c: Option<Card>): multiset<Card>
  {
    if c.Some? then multiset{c.value} else multiset{}
  }

  /**
    One step of the removal loop: take the card at `sel` out of its pile (a
    prize gives up its card and drops its flag); an empty-slot address takes
    nothing.
   */
  function RemoveAddress(l: CardLayout, sel: Selection): (r: (CardLayout, Option<Card>))
    requires ValidAddress(l, sel)
    ensures r.1 == CardUnder(l, sel)
    ensures |r.0.slots| == |l.slots| && r.0.deck == l.deck
  {
    match sel
    case Slot(s, None) => (l, None)
    case Slot(s, Some(k)) =>
      var slot := l.slots[s];
      (l.(slots := l.slots[s := slot.(cards := RemoveAt(slot.cards, k))]), Some(slot.cards[k]))
    case Hand(i) => (l.(hand := RemoveAt(l.hand, i)), Some(l.hand[i]))
    case Prize(i) => (l.(prizes := RemoveAt(l.prizes, i)), Some(l.prizes[i].card))
    case Discard(i) => (l.(discard := RemoveAt(l.discard, i)), Some(l.discard[i]))
    case LostZone(i) => (l.(lostZone := RemoveAt(l.lostZone, i)), Some(l.lostZone[i]))
    case Stadium(i) => (l.(stadium := RemoveAt(l.stadium, i)), Some(l.stadium[i]))
  }

  /** A removal step loses no card: what leaves the layout is exactly the card it yields. */
  lemma RemoveAddressKeepsCards(l: CardLayout, sel: Selection)
    requires ValidAddress(l, sel)
    ensures CardsIn(RemoveAddress(l, sel).0) + OptCards(RemoveAddress(l, sel).1) == CardsIn(l)
  {
    match sel
    case Slot(s, None) =>
    case Slot(s, Some(k)) => RemoveSlotCardKeepsCards(l, sel);
    case Prize(i) => RemovePrizeKeepsCards(l, sel);
    case _ => RemovePileCardKeepsCards(l, sel);
  }

  lemma RemoveSlotCardKeepsCards(l: CardLayout, sel: Selection)
    requires ValidAddress(l, sel) && sel.Slot? && sel.pokemonIndex.Some?
    ensures CardsIn(RemoveAddress(l, sel).0) + OptCards(RemoveAddress(l, sel).1) == CardsIn(l)
  {
    var (r, card) := RemoveAddress(l, sel);
    SlotRemoveKeepsCards(l.slots, sel.slotIndex, sel.pokemonIndex.value);
    PileChangeKeepsCards(l, r, OptCards(card));
  }

  lemma RemovePrizeKeepsCards(l: CardLayout, sel: Selection)
    requires ValidAddress(l, sel) && sel.Prize?
    ensures CardsIn(RemoveAddress(l, sel).0) + OptCards(RemoveAddress(l, sel).1) == CardsIn(l)
  {
    var (r, card) := RemoveAddress(l, sel);
    PrizeRemoveKeepsCards(l.prizes, sel.index);
    PileChangeKeepsCards(l, r, OptCards(card));
  }

  /** Hand, discard, lost zone and stadium: the pile loses exactly the card at the index. */
  lemma RemovePileCardKeepsCards(l: CardLayout, sel: Selection)
    requires ValidAddress(l, sel) && (sel.Hand? || sel.Discard? || sel.LostZone? || sel.Stadium?)
    ensures CardsIn(RemoveAddress(l, sel).0) + OptCards(RemoveAddress(l, sel).1) == CardsIn(l)
  {
    var (r, card) := RemoveAddress(l, sel);
    var x := OptCards(card);
    if sel.Hand? {
      assert forall c :: multiset(r.hand)[c] + x[c] == multiset(l.hand)[c];
    } else if sel.Discard? {
      assert forall c :: multiset(r.discard)[c] + x[c] == multiset(l.discard)[c];
    } else if sel.LostZone? {
      assert forall c :: multiset(r.lostZone)[c] + x[c] == multiset(l.lostZone)[c];
    } else {
      assert forall c :: multiset(r.stadium)[c] + x[c] == multiset(l.stadium)[c];
    }
    PileChangeKeepsCards(l, r, x);
  }

  lemma SlotRemoveKeepsCards(slots: seq<PokemonSlot>, s: nat, k: nat)
    requires s < |slots| && k < |slots[s].cards|
    ensures var slot := slots[s];
      forall c ::
        SlotsCards(slots[s := slot.(cards := RemoveAt(slot.cards, k))])[c] + multiset{slot.cards[k]}[c] == SlotsCards(slots)[c]
  {
    var slot := slots[s];
    var updated := slot.(cards := RemoveAt(slot.cards, k));
    SlotsCardsUpdate(slots, s, updated);
    var a, b := SlotsCards(slots[s := updated]), SlotsCards(slots);
    var o, n := multiset(slot.cards), multiset(updated.cards);
    assert a + o == b + n;
    assert n + multiset{slot.cards[k]} == o;
    forall c ensures a[c] + multiset{slot.cards[k]}[c] == b[c] {
      assert (a + o)[c] == (b + n)[c];
      assert (n + multiset{slot.cards[k]})[c] == o[c];
    }
  }

  lemma PrizeRemoveKeepsCards(prizes: seq<PrizeCard>, i: nat)
    requires i < |prizes|
    ensures forall c ::
      multiset(PrizeCards(RemoveAt(prizes, i)))[c] + multiset{prizes[i].card}[c] == multiset(PrizeCards(prizes))[c]
  {
    var cards := PrizeCards(prizes);
    assert PrizeCards(RemoveAt(prizes, i)) == RemoveAt(cards, i);
    var m := multiset(RemoveAt(cards, i));
    assert m + multiset{cards[i]} == multiset(cards);
  }

  /**
    If the piles of `r` together with `x` hold what the piles of `l` hold,
    pile by pile, then so do the layouts.
   */
  lemma PileChangeKeepsCards(l: CardLayout, r: CardLayout, x: multiset<Card>)
    requires forall c ::
      SlotsCards(r.slots)[c] + multiset(r.hand)[c] + multiset(r.discard)[c] + multiset(r.deck)[c]
        + multiset(r.lostZone)[c] + multiset(PrizeCards(r.prizes))[c] + multiset(r.stadium)[c] + x[c]
      == SlotsCards(l.slots)[c] + multiset(l.hand)[c] + multiset(l.discard)[c] + multiset(l.deck)[c]
        + multiset(l.lostZone)[c] + multiset(PrizeCards(l.prizes))[c] + multiset(l.stadium)[c]
    ensures CardsIn(r) + x == CardsIn(l)
  {
    assert forall c :: (CardsIn(r) + x)[c] == CardsIn(l)[c];
  }

  lemma ZoneIndicesAdd(P: set<Selection>, x: Selection, rank: nat, s: nat)
    ensures ZoneIndices(P + {x}, rank, s) ==
      ZoneIndices(P, rank, s) + (if InZone(x, rank, s) then {DeepestIndex(x).value} else {})
  {
  }

  /** Every address of `P` lies above `x`, so in `x`'s zone every position taken so far is above `x`'s. */
  lemma ZoneAbove(P: set<Selection>, x: Selection, rank: nat, s: nat)
    requires InZone(x, rank, s)
    requires forall y :: y in P ==> SelectionLess(x, y)
    ensures forall j :: j in ZoneIndices(P, rank, s) ==> j > DeepestIndex(x).value
  {
    forall j | j in ZoneIndices(P, rank, s)
      ensures j > DeepestIndex(x).value
    {
      var y :| y in P && InZone(y, rank, s) && DeepestIndex(y).value == j;
      SameZoneOrder(x, y);
    }
  }

  /** Removing nothing leaves the layout as it is. */
  lemma RemoveNothing(l: CardLayout)
    ensures RemoveAll(l, {}) == l
  {
    forall rank, s ensures ZoneIndices({}, rank, s) == {} {
    }
    WithoutNothing(l.hand, {});
    WithoutNothing(l.discard, {});
    WithoutNothing(l.lostZone, {});
    WithoutNothing(l.prizes, {});
    WithoutNothing(l.stadium, {});
    forall s | 0 <= s < |l.slots| ensures RemoveAll(l, {}).slots[s] == l.slots[s] {
      WithoutNothing(l.slots[s].cards, {});
    }
    assert RemoveAll(l, {}).slots == l.slots;
  }

  /**
    The heart of the descending order: when every address removed so far lies
    above `x`, the card still found at `x` is the original one, and removing
    it leaves exactly the layout with `P + {x}` taken out.
   */
  lemma RemoveStep(l: CardLayout, P: set<Selection>, x: Selection)
    requires ValidAddress(l, x)
    requires forall y :: y in P ==> SelectionLess(x, y)
    ensures ValidAddress(RemoveAll(l, P), x)
    ensures RemoveAddress(RemoveAll(l, P), x) == (RemoveAll(l, P + {x}), CardUnder(l, x))
  {
    if x.Slot? && x.pokemonIndex.Some? {
      RemoveStepSlot(l, P, x);
    } else if x.Slot? {
      PilesAfterAdd(l, P, x);
      assert RemoveAll(l, P + {x}).slots == RemoveAll(l, P).slots;
    } else {
      RemoveStepPile(l, P, x);
    }
  }

  /** `RemoveStep` for a card in a Pokémon slot. */
  lemma RemoveStepSlot(l: CardLayout, P: set<Selection>, x: Selection)
    requires x.Slot? && x.pokemonIndex.Some? && ValidAddress(l, x)
    requires forall y :: y in P ==> SelectionLess(x, y)
    ensures ValidAddress(RemoveAll(l, P), x)
    ensures RemoveAddress(RemoveAll(l, P), x) == (RemoveAll(l, P + {x}), CardUnder(l, x))
  {
    var r, r' := RemoveAll(l, P), RemoveAll(l, P + {x});
    var s, k := x.slotIndex, x.pokemonIndex.value;
    PilesAfterAdd(l, P, x);
    ZoneAbove(P, x, 0, s);
    WithoutThenRemove(l.slots[s].cards, ZoneIndices(P, 0, s), k);
    assert r'.slots == r.slots[s := r.slots[s].(cards := RemoveAt(r.slots[s].cards, k))];
  }

  /** `RemoveStep` for a card in one of the five piles. */
  lemma RemoveStepPile(l: CardLayout, P: set<Selection>, x: Selection)
    requires !x.Slot? && ValidAddress(l, x)
    requires forall y :: y in P ==> SelectionLess(x, y)
    ensures ValidAddress(RemoveAll(l, P), x)
    ensures RemoveAddress(RemoveAll(l, P), x) == (RemoveAll(l, P + {x}), CardUnder(l, x))
  {
    var r, r' := RemoveAll(l, P), RemoveAll(l, P + {x});
    PilesAfterAdd(l, P, x);
    assert r'.slots == r.slots;
    ZoneAbove(P, x, Rank(x), 0);
    match x
    case Hand(i) => WithoutThenRemove(l.hand, ZoneIndices(P, 1, 0), i);
    case Discard(i) => WithoutThenRemove(l.discard, ZoneIndices(P, 2, 0), i);
    case LostZone(i) => WithoutThenRemove(l.lostZone, ZoneIndices(P, 3, 0), i);
    case Prize(i) => WithoutThenRemove(l.prizes, ZoneIndices(P, 4, 0), i);
    case Stadium(i) => WithoutThenRemove(l.stadium, ZoneIndices(P, 5, 0), i);
  }

  /** Adding `x` to the removed set changes the piles of `x`'s own zone only. */
  lemma PilesAfterAdd(l: CardLayout, P: set<Selection>, x: Selection)
    ensures !x.Hand? ==> RemoveAll(l, P + {x}).hand == RemoveAll(l, P).hand
    ensures !x.Discard? ==> RemoveAll(l, P + {x}).discard == RemoveAll(l, P).discard
    ensures !x.LostZone? ==> RemoveAll(l, P + {x}).lostZone == RemoveAll(l, P).lostZone
    ensures !x.Prize? ==> RemoveAll(l, P + {x}).prizes == RemoveAll(l, P).prizes
    ensures !x.Stadium? ==> RemoveAll(l, P + {x}).stadium == RemoveAll(l, P).stadium
    ensures forall s :: 0 <= s < |l.slots| && !InZone(x, 0, s) ==> RemoveAll(l, P + {x}).slots[s] == RemoveAll(l, P).slots[s]
    ensures x.Hand? ==> RemoveAll(l, P + {x}).hand == Without(l.hand, ZoneIndices(P, 1, 0) + {x.index})
    ensures x.Discard? ==> RemoveAll(l, P + {x}).discard == Without(l.discard, ZoneIndices(P, 2, 0) + {x.index})
    ensures x.LostZone? ==> RemoveAll(l, P + {x}).lostZone == Without(l.lostZone, ZoneIndices(P, 3, 0) + {x.index})
    ensures x.Prize? ==> RemoveAll(l, P + {x}).prizes == Without(l.prizes, ZoneIndices(P, 4, 0) + {x.index})
    ensures x.Stadium? ==> RemoveAll(l, P + {x}).stadium == Without(l.stadium, ZoneIndices(P, 5, 0) + {x.index})
    ensures x.Slot? && x.pokemonIndex.Some? && x.slotIndex < |l.slots| ==>
      RemoveAll(l, P + {x}).slots[x.slotIndex].cards
        == Without(l.slots[x.slotIndex].cards, ZoneIndices(P, 0, x.slotIndex) + {x.pokemonIndex.value})
  {
    ZoneIndicesAdd(P, x, 1, 0);
    ZoneIndicesAdd(P, x, 2, 0);
    ZoneIndicesAdd(P, x, 3, 0);
    ZoneIndicesAdd(P, x, 4, 0);
    ZoneIndicesAdd(P, x, 5, 0);
    if !x.Hand? {
      assert ZoneIndices(P + {x}, 1, 0) == ZoneIndices(P, 1, 0);
    }
    if !x.Discard? {
      assert ZoneIndices(P + {x}, 2, 0) == ZoneIndices(P, 2, 0);
    }
    if !x.LostZone? {
      assert ZoneIndices(P + {x}, 3, 0) == ZoneIndices(P, 3, 0);
    }
    if !x.Prize? {
      assert ZoneIndices(P + {x}, 4, 0) == ZoneIndices(P, 4, 0);
    }
    if !x.Stadium? {
      assert ZoneIndices(P + {x}, 5, 0) == ZoneIndices(P, 5, 0);
    }
    forall s | 0 <= s < |l.slots|
      ensures ZoneIndices(P + {x}, 0, s) == ZoneIndices(P, 0, s) + (if InZone(x, 0, s) then {DeepestIndex(x).value} else {})
      ensures !InZone(x, 0, s) ==> RemoveAll(l, P + {x}).slots[s] == RemoveAll(l, P).slots[s]
    {
      ZoneIndicesAdd(P, x, 0, s);
      if !InZone(x, 0, s) {
        assert ZoneIndices(P + {x}, 0, s) == ZoneIndices(P, 0, s);
      }
    }
  }

  /** The elements of a sequence, as a set. */
  function Elements<T(!new)>(v: seq<T>): (r: set<T>)
    ensures forall x :: x in r <==> x in v
  {
    set x | x in v
  }

  /**
    The cards the removal loop collects from the ascending address list `v`:
    it pops from the back, so the card of the last address comes first; an
    empty-slot address contributes nothing.
   */
  function TakenCards(l: CardLayout, v: seq<Selection>): (r: seq<Card>)
    requires forall x :: x in v ==> ValidAddress(l, x)
    ensures |r| <= |v|
  {
    if v == [] then []
    else
      var c := CardUnder(l, v[0]);
      TakenCards(l, v[1..]) + (if c.Some? then [c.value] else [])
  }

  /** `sort()` on a collected set of addresses: ascending in the derived order of `Selection`. */
  function SortedAddresses(P: set<Selection>): (v: seq<Selection>)
    ensures |v| == |P| && forall x :: x in v <==> x in P
    ensures Ordering.StrictlySorted(v, SelectionLess)
  {
    SelectionLessIsStrictTotalOrder();
    Ordering.SortedSet(P, SelectionLess)
  }

  /** `sort()` on a collected set of deck positions. */
  function SortedIndices(P: set<nat>): (v: seq<nat>)
    ensures |v| == |P| && forall x :: x in v <==> x in P
    ensures Ordering.StrictlySorted(v, Ordering.NatLess)
  {
    Ordering.NatLessIsStrictTotalOrder();
    Ordering.SortedSet(P, Ordering.NatLess)
  }

  /** The addresses a Move takes: the selection plus the cursor. */
  function MoveSet<T>(st: SelectingState<T>): (r: set<T>)
    ensures st.currentHighlight in r && st.selected <= r
    ensures forall x :: x in r ==> x in st.selected || x == st.currentHighlight
  {
    st.selected + {st.currentHighlight}
  }

  /**
    The removal half of `handle_move` from Selecting: sort the move set, pop
    addresses from the back and take each card out where it lies. Every
    `remove` finds its position (the address is still valid), the result is
    the layout with the move set taken out, the collected cards are those of
    `TakenCards` in descending address order, and no card is lost.
   */
  method TakeMoveSet(layout: CardLayout, st: LayoutSelectingState) returns (r: CardLayout, movingCards: seq<Card>)
    requires SelectingValid(layout, st)
    ensures r == RemoveAll(layout, MoveSet(st))
    ensures movingCards == TakenCards(layout, SortedAddresses(MoveSet(st)))
    ensures CardsIn(r) + multiset(movingCards) == CardsIn(layout)
  {
    var moveSet := MoveSet(st);
    var selectionsToMove := SortedAddresses(moveSet);
    r := layout;
    movingCards := [];
    RemoveNothing(layout);
    // `pop` reads the last element and shortens the vector: `remaining` is its length.
    var remaining := |selectionsToMove|;
    assert Elements(selectionsToMove[remaining..]) == {};
    while remaining > 0
      invariant remaining <= |selectionsToMove|
      invariant r == RemoveAll(layout, Elements(selectionsToMove[remaining..]))
      invariant movingCards == TakenCards(layout, selectionsToMove[remaining..])
    {
      remaining := remaining - 1;
      var selection := selectionsToMove[remaining];
      PopStep(layout, selectionsToMove, remaining);
      var (rest, cardOpt) := RemoveAddress(r, selection);
      if cardOpt.Some? {
        movingCards := movingCards + [cardOpt.value];
      }
      r := rest;
    }
    assert selectionsToMove[0..] == selectionsToMove;
    assert Elements(selectionsToMove) == moveSet;
    RemoveAllKeepsCards(layout, selectionsToMove);
  }

  /**
    Popping address `v[i]` after the higher ones `v[i + 1..]` have been
    removed completes the removal of `v[i..]`.
   */
  lemma PopStep(l: CardLayout, v: seq<Selection>, i: nat)
    requires i < |v|
    requires forall x :: x in v ==> ValidAddress(l, x)
    requires Ordering.StrictlySorted(v, SelectionLess)
    ensures ValidAddress(RemoveAll(l, Elements(v[i + 1..])), v[i])
    ensures RemoveAddress(RemoveAll(l, Elements(v[i + 1..])), v[i]) == (RemoveAll(l, Elements(v[i..])), CardUnder(l, v[i]))
    ensures TakenCards(l, v[i..]) == TakenCards(l, v[i + 1..]) + (if CardUnder(l, v[i]).Some? then [CardUnder(l, v[i]).value] else [])
  {
    var x, tail := v[i], v[i + 1..];
    var P := Elements(tail);
    forall y | y in P ensures SelectionLess(x, y) {
      var j :| 0 <= j < |tail| && tail[j] == y;
      assert v[i + 1 + j] == y;
    }
    assert x in v;
    RemoveStep(l, P, x);
    assert v[i..] == [x] + tail;
    assert Elements(v[i..]) == P + {x};
  }

  /**
    Conservation for the whole removal: the cards left in the layout and the
    cards collected are together the cards the layout held.
   */
  lemma {:induction false} RemoveAllKeepsCards(l: CardLayout, v: seq<Selection>)
    requires forall x :: x in v ==> ValidAddress(l, x)
    requires Ordering.StrictlySorted(v, SelectionLess)
    ensures CardsIn(RemoveAll(l, Elements(v))) + multiset(TakenCards(l, v)) == CardsIn(l)
    decreases |v|
  {
    if v == [] {
      RemoveNothing(l);
      assert Elements(v) == {};
    } else {
      var tail := v[1..];
      SortedTail(v);
      RemoveAllKeepsCards(l, tail);
      KeepsCardsStep(l, v);
      MultisetChain(CardsIn(RemoveAll(l, Elements(v))), CardsIn(RemoveAll(l, Elements(tail))),
        multiset(TakenCards(l, tail)), OptCards(CardUnder(l, v[0])), CardsIn(l));
    }
  }

  lemma SortedTail(v: seq<Selection>)
    requires v != []
    requires Ordering.StrictlySorted(v, SelectionLess)
    ensures Ordering.StrictlySorted(v[1..], SelectionLess)
  {
    assert forall j, k :: 0 <= j < k < |v| - 1 ==> v[1..][j] == v[j + 1] && v[1..][k] == v[k + 1];
  }

  /** One step of the conservation argument: removing `v[0]` gives up exactly the card `TakenCards` adds. */
  lemma KeepsCardsStep(l: CardLayout, v: seq<Selection>)
    requires v != []
    requires forall x :: x in v ==> ValidAddress(l, x)
    requires Ordering.StrictlySorted(v, SelectionLess)
    ensures CardsIn(RemoveAll(l, Elements(v))) + OptCards(CardUnder(l, v[0])) == CardsIn(RemoveAll(l, Elements(v[1..])))
    ensures multiset(TakenCards(l, v)) == multiset(TakenCards(l, v[1..])) + OptCards(CardUnder(l, v[0]))
  {
    PopFirst(l, v);
    RemoveAddressKeepsCards(RemoveAll(l, Elements(v[1..])), v[0]);
  }

  /** `PopStep` for the lowest address. */
  lemma PopFirst(l: CardLayout, v: seq<Selection>)
    requires v != []
    requires forall x :: x in v ==> ValidAddress(l, x)
    requires Ordering.StrictlySorted(v, SelectionLess)
    ensures ValidAddress(RemoveAll(l, Elements(v[1..])), v[0])
    ensures RemoveAddress(RemoveAll(l, Elements(v[1..])), v[0]) == (RemoveAll(l, Elements(v)), CardUnder(l, v[0]))
  {
    PopStep(l, v, 0);
    assert v[0..] == v;
  }

  lemma MultisetChain<T>(a: multiset<T>, b: multiset<T>, t: multiset<T>, c: multiset<T>, total: multiset<T>)
    requires a + c == b && b + t == total
    ensures a + (t + c) == total
  {
    assert forall x :: (a + (t + c))[x] == total[x];
  }

  /** A strictly ascending run of positions climbs by at least one per step. */
  lemma {:induction false} SortedGap(v: seq<nat>, k: nat, j: nat)
    requires k <= j < |v|
    requires Ordering.StrictlySorted(v, Ordering.NatLess)
    ensures v[k] + (j - k) <= v[j]
    decreases j - k
  {
    if k < j {
      SortedGap(v, k + 1, j);
      assert Ordering.NatLess(v[k], v[k + 1]);
    }
  }

  /** The deck cards the removal loop collects from ascending positions `v`, highest position first. */
  function DeckTaken(deck: seq<Card>, v: seq<nat>): (r: seq<Card>)
    requires forall k :: 0 <= k < |v| ==> v[k] < |deck|
    ensures |r| == |v|
  {
    if v == [] then [] else DeckTaken(deck, v[1..]) + [deck[v[0]]]
  }

  /**
    The removal half of `handle_move` from DeckSearch: sort the positions,
    pop from the back and `remove` each from the deck. The cursor may stand
    at the deck length, and then the first `remove`, of the highest position,
    panics before anything has changed: `outOfRange` reports exactly that
    case. Otherwise the deck loses exactly the chosen positions and the cards
    come out highest position first.
   */
  method TakeDeckIndices(deck: seq<Card>, st: PileSelectingState)
    returns (r: seq<Card>, movingCards: seq<Card>, outOfRange: bool)
    ensures outOfRange <==> exists i :: i in MoveSet(st) && i >= |deck|
    ensures outOfRange ==> r == deck && movingCards == []
    ensures !outOfRange ==>
      && r == Without(deck, MoveSet(st))
      && movingCards == DeckTaken(deck, SortedIndices(MoveSet(st)))
    ensures multiset(r) + multiset(movingCards) == multiset(deck)
  {
    var indicesToMove: seq<nat> := SortedIndices(MoveSet(st));
    r, movingCards, outOfRange := RemovePositions(deck, indicesToMove);
    assert Elements(indicesToMove) == MoveSet(st);
  }

  /**
    The loop of `TakeDeckIndices` over the ascending positions `v`: pop
    from the back and `remove` each position from the deck, stopping at the
    first position past the end (which can only be the first one popped).
   */
  method RemovePositions(deck: seq<Card>, v: seq<nat>)
    returns (r: seq<Card>, movingCards: seq<Card>, outOfRange: bool)
    requires Ordering.StrictlySorted(v, Ordering.NatLess)
    ensures outOfRange <==> exists k :: 0 <= k < |v| && v[k] >= |deck|
    ensures outOfRange ==> r == deck && movingCards == []
    ensures !outOfRange ==> r == Without(deck, Elements(v)) && movingCards == DeckTaken(deck, v)
    ensures multiset(r) + multiset(movingCards) == multiset(deck)
  {
    r := deck;
    movingCards := [];
    outOfRange := false;
    var remaining := |v|;
    WithoutNothing(deck, {});
    assert Elements(v[remaining..]) == {};
    while remaining > 0
      invariant remaining <= |v|
      invariant forall k :: remaining <= k < |v| ==> v[k] < |deck|
      invariant |r| == |deck| - (|v| - remaining)
      invariant r == Without(deck, Elements(v[remaining..]))
      invariant movingCards == DeckTaken(deck, v[remaining..])
    {
      remaining := remaining - 1;
      var index := v[remaining];
      DeckLoopBound(deck, v, remaining, |r|);
      if index >= |r| {
        outOfRange := true;
        assert v[remaining + 1..] == [];
        WithoutNothing(deck, {});
        return;
      }
      DeckPopStep(deck, v, remaining);
      movingCards := movingCards + [r[index]];
      r := RemoveAt(r, index);
    }
    assert v[0..] == v;
    DeckTakenKeepsCards(deck, v);
  }

  /**
    In the removal loop from DeckSearch only the first `remove`, of the
    highest position, can fall past the end of the deck: every lower
    position is below a position already removed.
   */
  lemma DeckLoopBound(deck: seq<Card>, v: seq<nat>, i: nat, n: nat)
    requires i < |v|
    requires Ordering.StrictlySorted(v, Ordering.NatLess)
    requires forall k :: i < k < |v| ==> v[k] < |deck|
    requires n == |deck| - (|v| - i - 1)
    ensures v[i] >= n ==> i == |v| - 1
  {
    if i < |v| - 1 {
      SortedGap(v, i, |v| - 1);
    }
  }

  /** The deck left and the cards taken are together the deck. */
  lemma {:induction false} DeckTakenKeepsCards(deck: seq<Card>, v: seq<nat>)
    requires Ordering.StrictlySorted(v, Ordering.NatLess)
    requires forall k :: 0 <= k < |v| ==> v[k] < |deck|
    ensures multiset(Without(deck, Elements(v))) + multiset(DeckTaken(deck, v)) == multiset(deck)
    decreases |v|
  {
    if v == [] {
      WithoutNothing(deck, {});
      assert Elements(v) == {};
    } else {
      var tail := v[1..];
      assert forall j, k :: 0 <= j < k < |tail| ==> tail[j] == v[j + 1] && tail[k] == v[k + 1];
      DeckTakenKeepsCards(deck, tail);
      AboveFirst(v);
      DeckPopFirst(deck, v);
      MultisetChain(multiset(Without(deck, Elements(v))), multiset(Without(deck, Elements(tail))),
        multiset(DeckTaken(deck, tail)), multiset{deck[v[0]]}, multiset(deck));
    }
  }

  /** `DeckPopStep` for the lowest position, as multisets. */
  lemma DeckPopFirst(deck: seq<Card>, v: seq<nat>)
    requires v != [] && v[0] < |deck|
    requires forall j :: j in Elements(v[1..]) ==> j > v[0]
    ensures multiset(Without(deck, Elements(v))) + multiset{deck[v[0]]} == multiset(Without(deck, Elements(v[1..])))
  {
    DeckRemoveFirst(deck, v);
    RemoveAtMultiset(Without(deck, Elements(v[1..])), v[0], Without(deck, Elements(v)), deck[v[0]]);
  }

  lemma DeckRemoveFirst(deck: seq<Card>, v: seq<nat>)
    requires v != [] && v[0] < |deck|
    requires forall j :: j in Elements(v[1..]) ==> j > v[0]
    ensures v[0] < |Without(deck, Elements(v[1..]))|
    ensures Without(deck, Elements(v[1..]))[v[0]] == deck[v[0]]
    ensures RemoveAt(Without(deck, Elements(v[1..])), v[0]) == Without(deck, Elements(v))
  {
    var done: set<nat> := Elements(v[1..]);
    WithoutThenRemove(deck, done, v[0]);
    assert v == [v[0]] + v[1..];
    assert Elements(v) == done + {v[0]};
  }

  lemma AboveFirst(v: seq<nat>)
    requires v != []
    requires Ordering.StrictlySorted(v, Ordering.NatLess)
    ensures forall j :: j in Elements(v[1..]) ==> j > v[0]
  {
    forall j | j in Elements(v[1..]) ensures j > v[0] {
      var k :| 1 <= k < |v| && v[k] == j;
      assert Ordering.NatLess(v[0], v[k]);
    }
  }

  lemma RemoveAtMultiset<T>(s: seq<T>, i: nat, r: seq<T>, x: T)
    requires i < |s| && r == RemoveAt(s, i) && x == s[i]
    ensures multiset(r) + multiset{x} == multiset(s)
  {
  }

  /**
    Removing position `v[i]` from a deck out of which the higher positions
    `v[i + 1..]` are gone finds the original card there and leaves the deck
    without `v[i..]`.
   */
  lemma DeckPopStep(deck: seq<Card>, v: seq<nat>, i: nat)
    requires i < |v|
    requires Ordering.StrictlySorted(v, Ordering.NatLess)
    requires forall k :: i <= k < |v| ==> v[k] < |deck|
    ensures v[i] < |Without(deck, Elements(v[i + 1..]))|
    ensures Without(deck, Elements(v[i + 1..]))[v[i]] == deck[v[i]]
    ensures RemoveAt(Without(deck, Elements(v[i + 1..])), v[i]) == Without(deck, Elements(v[i..]))
    ensures DeckTaken(deck, v[i..]) == DeckTaken(deck, v[i + 1..]) + [deck[v[i]]]
  {
    var done: set<nat> := Elements(v[i + 1..]);
    forall j | j in done ensures j > v[i] {
      var k :| i + 1 <= k < |v| && v[k] == j;
      SortedGap(v, i, k);
    }
    WithoutThenRemove(deck, done, v[i]);
    assert v[i..] == [v[i]] + v[i + 1..];
    assert Elements(v[i..]) == done + {v[i]};
  }

  /**
    The delivery half of `handle_move`: append the collected cards in the
    order they were collected, or insert each at index 0 in turn, which
    leaves them reversed in front of the pile.
   */
  method DeliverCards(pile: seq<Card>, movingCards: seq<Card>, prepend: bool) returns (r: seq<Card>)
    ensures r == Delivered(pile, movingCards, prepend)
    ensures !prepend ==> r == pile + movingCards
    ensures prepend ==> |r| == |pile| + |movingCards| && r[|movingCards|..] == pile
    ensures prepend ==> forall k :: 0 <= k < |movingCards| ==> r[k] == movingCards[|movingCards| - 1 - k]
    ensures multiset(r) == multiset(pile) + multiset(movingCards)
  {
    if prepend {
      r := pile;
      for j := 0 to |movingCards|
        invariant r == Reversed(movingCards[..j]) + pile
      {
        assert movingCards[..j + 1][..j] == movingCards[..j];
        r := [movingCards[j]] + r;
      }
      assert movingCards[..|movingCards|] == movingCards;
      ReversedMultiset(movingCards);
      forall k | 0 <= k < |movingCards| ensures r[k] == movingCards[|movingCards| - 1 - k] {
        ReversedIndex(movingCards, k);
      }
    } else {
      r := pile + movingCards;
    }
  }

  /** The destination pile after delivery (the meaning of `DeliverCards`). */
  function Delivered(pile: seq<Card>, movingCards: seq<Card>, prepend: bool): seq<Card>
  {
    if prepend then Reversed(movingCards) + pile else pile + movingCards
  }

  /** The destination pile a target names in a layout. */
  function PileAt(l: CardLayout, t: Target): seq<Card>
    requires t.SlotCards? ==> t.slot < |l.slots|
  {
    match t
    case SlotCards(s) => l.slots[s].cards
    case DeckCards => l.deck
    case HandCards => l.hand
    case DiscardCards => l.discard
    case LostZoneCards => l.lostZone
    case StadiumCards => l.stadium
  }

  /** The layout with the destination pile replaced and every other pile, damage and prize as it was. */
  function WithPile(l: CardLayout, t: Target, p: seq<Card>): (r: CardLayout)
    requires t.SlotCards? ==> t.slot < |l.slots|
    ensures |r.slots| == |l.slots| && r.prizes == l.prizes
    ensures PileAt(r, t) == p
    ensures forall s :: 0 <= s < |l.slots| ==> r.slots[s].damage == l.slots[s].damage
    ensures forall u: Target :: u != t && (u.SlotCards? ==> u.slot < |l.slots|) ==> PileAt(r, u) == PileAt(l, u)
  {
    match t
    case SlotCards(s) => l.(slots := l.slots[s := l.slots[s].(cards := p)])
    case DeckCards => l.(deck := p)
    case HandCards => l.(hand := p)
    case DiscardCards => l.(discard := p)
    case LostZoneCards => l.(lostZone := p)
    case StadiumCards => l.(stadium := p)
  }

  /** Replacing the destination pile changes the layout's cards by exactly the difference of the two piles. */
  lemma WithPileKeepsCards(l: CardLayout, t: Target, p: seq<Card>)
    requires t.SlotCards? ==> t.slot < |l.slots|
    ensures CardsIn(WithPile(l, t, p)) + multiset(PileAt(l, t)) == CardsIn(l) + multiset(p)
  {
    if t.SlotCards? {
      WithSlotKeepsCards(l, t.slot, p);
    } else {
      WithOwnPileKeepsCards(l, t, p);
    }
  }

  lemma WithSlotKeepsCards(l: CardLayout, s: nat, p: seq<Card>)
    requires s < |l.slots|
    ensures CardsIn(WithPile(l, SlotCards(s), p)) + multiset(PileAt(l, SlotCards(s))) == CardsIn(l) + multiset(p)
  {
    SlotReplaceKeepsCards(l.slots, s, p);
    PileReplaceKeepsCards(l, WithPile(l, SlotCards(s), p), multiset(PileAt(l, SlotCards(s))), multiset(p));
  }

  lemma WithOwnPileKeepsCards(l: CardLayout, t: Target, p: seq<Card>)
    requires !t.SlotCards?
    ensures CardsIn(WithPile(l, t, p)) + multiset(PileAt(l, t)) == CardsIn(l) + multiset(p)
  {
    var r := WithPile(l, t, p);
    var x, y := multiset(PileAt(l, t)), multiset(p);
    match t
    case DeckCards =>
      assert forall c :: multiset(r.deck)[c] + x[c] == multiset(l.deck)[c] + y[c];
      PileReplaceKeepsCards(l, r, x, y);
    case HandCards =>
      assert forall c :: multiset(r.hand)[c] + x[c] == multiset(l.hand)[c] + y[c];
      PileReplaceKeepsCards(l, r, x, y);
    case DiscardCards =>
      assert forall c :: multiset(r.discard)[c] + x[c] == multiset(l.discard)[c] + y[c];
      PileReplaceKeepsCards(l, r, x, y);
    case LostZoneCards =>
      assert forall c :: multiset(r.lostZone)[c] + x[c] == multiset(l.lostZone)[c] + y[c];
      PileReplaceKeepsCards(l, r, x, y);
    case StadiumCards =>
      assert forall c :: multiset(r.stadium)[c] + x[c] == multiset(l.stadium)[c] + y[c];
      PileReplaceKeepsCards(l, r, x, y);
  }

  lemma SlotReplaceKeepsCards(slots: seq<PokemonSlot>, s: nat, p: seq<Card>)
    requires s < |slots|
    ensures forall c ::
      SlotsCards(slots[s := slots[s].(cards := p)])[c] + multiset(slots[s].cards)[c] == SlotsCards(slots)[c] + multiset(p)[c]
  {
    SlotsCardsUpdate(slots, s, slots[s].(cards := p));
    var a, b := SlotsCards(slots[s := slots[s].(cards := p)]), SlotsCards(slots);
    forall c ensures a[c] + multiset(slots[s].cards)[c] == b[c] + multiset(p)[c] {
      assert (a + multiset(slots[s].cards))[c] == (b + multiset(p))[c];
    }
  }

  lemma PileReplaceKeepsCards(l: CardLayout, r: CardLayout, x: multiset<Card>, y: multiset<Card>)
    requires forall c ::
      SlotsCards(r.slots)[c] + multiset(r.hand)[c] + multiset(r.discard)[c] + multiset(r.deck)[c]
        + multiset(r.lostZone)[c] + multiset(PrizeCards(r.prizes))[c] + multiset(r.stadium)[c] + x[c]
      == SlotsCards(l.slots)[c] + multiset(l.hand)[c] + multiset(l.discard)[c] + multiset(l.deck)[c]
        + multiset(l.lostZone)[c] + multiset(PrizeCards(l.prizes))[c] + multiset(l.stadium)[c] + y[c]
    ensures CardsIn(r) + x == CardsIn(l) + y
  {
    assert forall c :: (CardsIn(r) + x)[c] == (CardsIn(l) + y)[c];
  }

  /** Some chosen deck position has no card: the cursor stood one past the last card. */
  predicate OutOfRange(deck: seq<Card>, st: PileSelectingState)
  {
    exists i :: i in MoveSet(st) && i >= |deck|
  }

  /**
    The layout after a Move from Selecting into `d`: the move set taken out,
    then the collected cards delivered into what is left of the destination
    pile (which may have lost cards of its own).
   */
  function MovedFromSelecting(l: CardLayout, st: LayoutSelectingState, d: Destination): (r: CardLayout)
    requires SelectingValid(l, st)
    requires d.target.SlotCards? ==> d.target.slot < |l.slots|
    ensures |r.slots| == |l.slots|
    ensures forall s :: 0 <= s < |l.slots| ==> r.slots[s].damage == l.slots[s].damage
    ensures r.prizes == Without(l.prizes, ZoneIndices(MoveSet(st), 4, 0))
    ensures !d.target.DeckCards? ==> r.deck == l.deck
    ensures var removed := RemoveAll(l, MoveSet(st));
      && PileAt(r, d.target) == Delivered(PileAt(removed, d.target), TakenCards(l, SortedAddresses(MoveSet(st))), d.prepend)
      && forall u: Target :: u != d.target && (u.SlotCards? ==> u.slot < |l.slots|) ==> PileAt(r, u) == PileAt(removed, u)
  {
    var removed := RemoveAll(l, MoveSet(st));
    var taken := TakenCards(l, SortedAddresses(MoveSet(st)));
    WithPile(removed, d.target, Delivered(PileAt(removed, d.target), taken, d.prepend))
  }

  /** The layout after a Move from DeckSearch into `d`, when every chosen position holds a card. */
  function MovedFromDeck(l: CardLayout, st: PileSelectingState, d: Destination): (r: CardLayout)
    requires !OutOfRange(l.deck, st)
    requires d.target.SlotCards? ==> d.target.slot < |l.slots|
    ensures |r.slots| == |l.slots|
    ensures forall s :: 0 <= s < |l.slots| ==> r.slots[s].damage == l.slots[s].damage
    ensures r.prizes == l.prizes
    ensures !d.target.DeckCards? ==> r.deck == Without(l.deck, MoveSet(st))
    ensures var removed := l.(deck := Without(l.deck, MoveSet(st)));
      PileAt(r, d.target) == Delivered(PileAt(removed, d.target), DeckMoving(l.deck, st), d.prepend)
    ensures forall u: Target :: u != d.target && !u.DeckCards? && (u.SlotCards? ==> u.slot < |l.slots|) ==> PileAt(r, u) == PileAt(l, u)
  {
    var removed := l.(deck := Without(l.deck, MoveSet(st)));
    WithPile(removed, d.target, Delivered(PileAt(removed, d.target), DeckMoving(l.deck, st), d.prepend))
  }

  /** The cards a Move from DeckSearch collects, in the order they are popped: highest position first. */
  function DeckMoving(deck: seq<Card>, st: PileSelectingState): (r: seq<Card>)
    requires !OutOfRange(deck, st)
    ensures |r| == |MoveSet(st)|
  {
    var indices := SortedIndices(MoveSet(st));
    assert forall k :: 0 <= k < |indices| ==> indices[k] in MoveSet(st);
    DeckTaken(deck, indices)
  }

  lemma DeliveredKeepsCards(pile: seq<Card>, movingCards: seq<Card>, prepend: bool)
    ensures multiset(Delivered(pile, movingCards, prepend)) == multiset(pile) + multiset(movingCards)
  {
    ReversedMultiset(movingCards);
  }

  /** A Move from Selecting neither loses nor creates a card. */
  lemma MoveFromSelectingKeepsCards(l: CardLayout, st: LayoutSelectingState, d: Destination)
    requires SelectingValid(l, st)
    requires d.target.SlotCards? ==> d.target.slot < |l.slots|
    ensures CardsIn(MovedFromSelecting(l, st, d)) == CardsIn(l)
  {
    var moveSet := MoveSet(st);
    var v := SortedAddresses(moveSet);
    assert Elements(v) == moveSet;
    RemoveAllKeepsCards(l, v);
    var removed := RemoveAll(l, moveSet);
    var taken := TakenCards(l, v);
    var pile := PileAt(removed, d.target);
    DeliveredKeepsCards(pile, taken, d.prepend);
    WithPileKeepsCards(removed, d.target, Delivered(pile, taken, d.prepend));
    MultisetSettle(CardsIn(MovedFromSelecting(l, st, d)), multiset(pile), CardsIn(removed), multiset(taken), CardsIn(l));
  }

  /** A Move from DeckSearch neither loses nor creates a card. */
  lemma MoveFromDeckKeepsCards(l: CardLayout, st: PileSelectingState, d: Destination)
    requires !OutOfRange(l.deck, st)
    requires d.target.SlotCards? ==> d.target.slot < |l.slots|
    ensures CardsIn(MovedFromDeck(l, st, d)) == CardsIn(l)
  {
    var moveSet := MoveSet(st);
    var v := SortedIndices(moveSet);
    assert forall k :: 0 <= k < |v| ==> v[k] in moveSet;
    assert Elements(v) == moveSet;
    DeckTakenKeepsCards(l.deck, v);
    var left := Without(l.deck, moveSet);
    var removed := l.(deck := left);
    var taken := DeckTaken(l.deck, v);
    WithPileKeepsCards(l, DeckCards, left);
    assert WithPile(l, DeckCards, left) == removed;
    MultisetExchange(CardsIn(removed), multiset(l.deck), CardsIn(l), multiset(left), multiset(taken));
    var pile := PileAt(removed, d.target);
    DeliveredKeepsCards(pile, taken, d.prepend);
    WithPileKeepsCards(removed, d.target, Delivered(pile, taken, d.prepend));
    MultisetSettle(CardsIn(MovedFromDeck(l, st, d)), multiset(pile), CardsIn(removed), multiset(taken), CardsIn(l));
  }

  /** If `a + m == r + (m + b)` and `r + b == total`, then `a == total`. */
  lemma MultisetSettle<T>(a: multiset<T>, m: multiset<T>, r: multiset<T>, b: multiset<T>, total: multiset<T>)
    requires a + m == r + (m + b)
    requires r + b == total
    ensures a == total
  {
    assert forall x :: a[x] == total[x] by {
      forall x ensures a[x] == total[x] {
        assert (a + m)[x] == (r + (m + b))[x];
      }
    }
  }

  /** If `r + d == total + k` and `k + t == d`, then `r + t == total`. */
  lemma MultisetExchange<T>(r: multiset<T>, d: multiset<T>, total: multiset<T>, k: multiset<T>, t: multiset<T>)
    requires r + d == total + k
    requires k + t == d
    ensures r + t == total
  {
    assert forall x :: (r + t)[x] == total[x] by {
      forall x ensures (r + t)[x] == total[x] {
        assert (r + d)[x] == (total + k)[x];
        assert (k + t)[x] == d[x];
      }
    }
  }

  /**
    A worked Move: hand cards 0 and 2 selected, the cursor on card 4. Moved
    to the discard pile the cards arrive highest position first; the hand
    keeps cards 1 and 3.
   */
  lemma MoveHandToDiscardExample(l: CardLayout, st: LayoutSelectingState)
    requires l.slots == [] && l.hand == [10, 11, 12, 13, 14] && l.discard == [7] && l.deck == [1, 2]
    requires st.selected == {Hand(0), Hand(2)} && st.currentHighlight == Hand(4)
    ensures MovedFromSelecting(l, st, Destination(DiscardCards, false)).hand == [11, 13]
    ensures MovedFromSelecting(l, st, Destination(DiscardCards, false)).discard == [7] + [14, 12, 10]
  {
    ExampleParts(l, st);
    var r := MovedFromSelecting(l, st, Destination(DiscardCards, false));
    assert PileAt(r, HandCards) == [11, 13];
    assert PileAt(r, DiscardCards) == [7] + [14, 12, 10];
  }

  /**
    The same Move to the bottom of the deck: each card is inserted at the
    front in turn, so they end up in their original order.
   */
  lemma MoveHandToBottomExample(l: CardLayout, st: LayoutSelectingState)
    requires l.slots == [] && l.hand == [10, 11, 12, 13, 14] && l.discard == [7] && l.deck == [1, 2]
    requires st.selected == {Hand(0), Hand(2)} && st.currentHighlight == Hand(4)
    ensures MovedFromSelecting(l, st, Destination(DeckCards, true)).hand == [11, 13]
    ensures MovedFromSelecting(l, st, Destination(DeckCards, true)).deck == [10, 12, 14] + [1, 2]
  {
    ExampleParts(l, st);
    var removed, taken := RemoveAll(l, MoveSet(st)), TakenCards(l, SortedAddresses(MoveSet(st)));
    var d := Destination(DeckCards, true);
    ExampleDelivered(removed, taken, d, [1, 2]);
    assert MovedFromSelecting(l, st, d) == WithPile(removed, d.target, Delivered(PileAt(removed, d.target), taken, d.prepend));
  }

  lemma ExampleParts(l: CardLayout, st: LayoutSelectingState)
    requires l.slots == [] && l.hand == [10, 11, 12, 13, 14] && l.discard == [7] && l.deck == [1, 2]
    requires st.selected == {Hand(0), Hand(2)} && st.currentHighlight == Hand(4)
    ensures SelectingValid(l, st)
    ensures TakenCards(l, SortedAddresses(MoveSet(st))) == [14, 12, 10]
    ensures Reversed(TakenCards(l, SortedAddresses(MoveSet(st)))) == [10, 12, 14]
    ensures RemoveAll(l, MoveSet(st)).hand == [11, 13]
    ensures RemoveAll(l, MoveSet(st)).discard == [7] && RemoveAll(l, MoveSet(st)).deck == [1, 2]
  {
    ExampleMoveSet(l, st);
    var P := MoveSet(st);
    ExampleOrder();
    ExampleTaken(l);
    ExampleRemoved(l, P);
    ExampleReversed(TakenCards(l, SortedAddresses(P)));
  }

  lemma ExampleMoveSet(l: CardLayout, st: LayoutSelectingState)
    requires l.hand == [10, 11, 12, 13, 14]
    requires st.selected == {Hand(0), Hand(2)} && st.currentHighlight == Hand(4)
    ensures MoveSet(st) == {Hand(0), Hand(2), Hand(4)}
    ensures SelectingValid(l, st)
  {
  }

  lemma ExampleDelivered(removed: CardLayout, taken: seq<Card>, d: Destination, before: seq<Card>)
    requires !d.target.SlotCards? && !d.target.HandCards?
    requires PileAt(removed, d.target) == before
    requires taken == [14, 12, 10] && Reversed(taken) == [10, 12, 14]
    ensures var r := WithPile(removed, d.target, Delivered(PileAt(removed, d.target), taken, d.prepend));
      && PileAt(r, d.target) == (if d.prepend then [10, 12, 14] + before else before + [14, 12, 10])
      && r.hand == removed.hand
  {
    var r := WithPile(removed, d.target, Delivered(PileAt(removed, d.target), taken, d.prepend));
    assert PileAt(r, HandCards) == removed.hand;
  }

  lemma ExampleRemoved(l: CardLayout, P: set<Selection>)
    requires l.hand == [10, 11, 12, 13, 14] && l.discard == [7]
    requires P == {Hand(0), Hand(2), Hand(4)}
    ensures RemoveAll(l, P).hand == [11, 13] && RemoveAll(l, P).discard == [7] && RemoveAll(l, P).deck == l.deck
  {
    ExampleZones(P);
    ExampleHand(l.hand, ZoneIndices(P, 1, 0));
    WithoutNothing(l.discard, ZoneIndices(P, 2, 0));
  }

  lemma ExampleOrder()
    ensures SortedAddresses({Hand(0), Hand(2), Hand(4)}) == [Hand(0), Hand(2), Hand(4)]
  {
    var w := [Hand(0), Hand(2), Hand(4)];
    SelectionLessIsStrictTotalOrder();
    assert Ordering.StrictlySorted(w, SelectionLess);
    Ordering.SortedUnique(SortedAddresses({Hand(0), Hand(2), Hand(4)}), w, SelectionLess);
  }

  lemma ExampleTaken(l: CardLayout)
    requires l.hand == [10, 11, 12, 13, 14]
    ensures TakenCards(l, [Hand(0), Hand(2), Hand(4)]) == [14, 12, 10]
  {
    var w := [Hand(0), Hand(2), Hand(4)];
    assert w[1..] == [Hand(2), Hand(4)] && w[1..][1..] == [Hand(4)] && w[1..][1..][1..] == [];
    assert TakenCards(l, [Hand(4)]) == [14];
    assert TakenCards(l, [Hand(2), Hand(4)]) == [14, 12];
  }

  lemma ExampleZones(P: set<Selection>)
    requires P == {Hand(0), Hand(2), Hand(4)}
    ensures ZoneIndices(P, 1, 0) == {0, 2, 4}
    ensures ZoneIndices(P, 2, 0) == {}
  {
    assert forall x :: x in P ==> InZone(x, 1, 0);
  }

  lemma ExampleHand(hand: seq<Card>, J: set<nat>)
    requires hand == [10, 11, 12, 13, 14] && J == {0, 2, 4}
    ensures Without(hand, J) == [11, 13]
  {
    assert [10][..0] == [];
    assert Without([10], J) == [];
    assert [10, 11][..1] == [10];
    assert Without([10, 11], J) == [11];
    assert [10, 11, 12][..2] == [10, 11];
    assert Without([10, 11, 12], J) == [11];
    assert [10, 11, 12, 13][..3] == [10, 11, 12];
    assert Without([10, 11, 12, 13], J) == [11, 13];
    assert [10, 11, 12, 13, 14][..4] == [10, 11, 12, 13];
  }

  lemma ExampleReversed(taken: seq<Card>)
    requires taken == [14, 12, 10]
    ensures Reversed(taken) == [10, 12, 14]
  {
    assert [14, 12, 10][..2] == [14, 12] && [14, 12][..1] == [14];
  }
}
