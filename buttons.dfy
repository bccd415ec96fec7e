/**
  * The four physical buttons of the hub. Each `Button` object is a mutable
  * cell holding the last state the dispatcher wrote (last write wins, no
  * history); `ButtonStates` is the value of all four read together.
  */
module Buttons {

  datatype ButtonState = Released | Pressed

  /** The role of a button on the hub. */
  datatype Role = Up | Down | Select | Cancel

  /** The states of the four buttons, one per role. */
  datatype ButtonStates = ButtonStates(up: ButtonState, down: ButtonState, select: ButtonState, cancel: ButtonState)
  {
    function Get(r: Role): ButtonState {
      match r
      case Up => up
      case Down => down
      case Select => select
      case Cancel => cancel
    }

    /** The same states, except that the button with role `r` is in state `s`. */
    function With(r: Role, s: ButtonState): (b: ButtonStates)
      ensures b.Get(r) == s
      ensures forall other :: other != r ==> b.Get(other) == Get(other)
    {
      match r
      case Up => this.(up := s)
      case Down => this.(down := s)
      case Select => this.(select := s)
      case Cancel => this.(cancel := s)
    }
  }

  /** A button object whose `state` the dispatcher assigns in place. */
  class Button {
    var state: ButtonState

    constructor (initial: ButtonState)
      ensures state == initial
    {
      state := initial;
    }
  }
}
