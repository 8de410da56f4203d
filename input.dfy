/**
  The abstract inputs the game state reacts to (Rust `Input`, src/input.rs:3-43).
  The SDL key table that produces them is not part of this model.
 */
module Inputs {
  datatype Input =
    | Left
    | Right
    | Slot(n: nat)
    | Hand
    | Discard
    | Stadium
    | LostZone
    | Prizes
    | Deck
    | Top
    | Bottom
    | Select
    | Cancel
    | Flip
    | Increment
    | Decrement
    | SwitchSides
    | Move
    | Swap
    | Append
    | Prepend
    | Observe
    | Shuffle
    | Roll
}
