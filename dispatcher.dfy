/**
  * What the hub's message handler does to the four buttons, as a table:
  * eight publication ids each set one button, every other catalogued id is
  * recognised and ignored, and an id outside the catalogue is an error.
  * This is the specification that `PiTop.PiTopModule.ClientMessageReceived`,
  * the statement-level switch, is proved against.
  */
module Dispatcher {
  import opened Results
  import opened Messages
  import opened Buttons

  /** The exception the switch's `default` branch throws (ArgumentOutOfRangeException). */
  datatype DispatchError = ArgumentOutOfRange

  /** A change of the button with one role to one state. */
  datatype ButtonChange = ButtonChange(role: Role, state: ButtonState)

  /** The button change a button publication asks for; `None` for every other id. */
  function ButtonEffect(id: MessageId): Option<ButtonChange> {
    match id
    case PubV3ButtonUpPressed => Some(ButtonChange(Up, Pressed))
    case PubV3ButtonUpReleased => Some(ButtonChange(Up, Released))
    case PubV3ButtonDownPressed => Some(ButtonChange(Down, Pressed))
    case PubV3ButtonDownReleased => Some(ButtonChange(Down, Released))
    case PubV3ButtonSelectPressed => Some(ButtonChange(Select, Pressed))
    case PubV3ButtonSelectReleased => Some(ButtonChange(Select, Released))
    case PubV3ButtonCancelPressed => Some(ButtonChange(Cancel, Pressed))
    case PubV3ButtonCancelReleased => Some(ButtonChange(Cancel, Released))
    case _ => None
  }

  /** The publication that asks for change `c`: every role has one id per state. */
  function Publication(c: ButtonChange): (id: MessageId)
    ensures IsCatalogued(id)
    ensures ButtonEffect(id) == Some(c)
  {
    match c
    case ButtonChange(Up, Pressed) => PubV3ButtonUpPressed
    case ButtonChange(Up, Released) => PubV3ButtonUpReleased
    case ButtonChange(Down, Pressed) => PubV3ButtonDownPressed
    case ButtonChange(Down, Released) => PubV3ButtonDownReleased
    case ButtonChange(Select, Pressed) => PubV3ButtonSelectPressed
    case ButtonChange(Select, Released) => PubV3ButtonSelectReleased
    case ButtonChange(Cancel, Pressed) => PubV3ButtonCancelPressed
    case ButtonChange(Cancel, Released) => PubV3ButtonCancelReleased
  }

  /** No two ids ask for the same change: `Publication` inverts `ButtonEffect`. */
  lemma PublicationIsUnique(id: MessageId)
    requires ButtonEffect(id).Some?
    ensures Publication(ButtonEffect(id).value) == id
  {
  }

  /** The new button states, or the error the handler throws. */
  function Dispatch(b: ButtonStates, id: MessageId): Result<ButtonStates, DispatchError> {
    if !IsCatalogued(id) then
      Failure(ArgumentOutOfRange)
    else
      match ButtonEffect(id)
      case Some(c) => Success(b.With(c.role, c.state))
      case None => Success(b)
  }

  /**
    * The button states once the handler has returned or thrown; the
    * `default` branch throws before it assigns anything.
    */
  function Settle(b: ButtonStates, id: MessageId): ButtonStates {
    match Dispatch(b, id)
    case Success(next) => next
    case Failure(_) => b
  }

  /** A button publication sets exactly its own button and no other. */
  lemma ButtonPublicationSetsOnlyItsButton(b: ButtonStates, id: MessageId, c: ButtonChange)
    requires ButtonEffect(id) == Some(c)
    ensures Dispatch(b, id).Success?
    ensures Dispatch(b, id).value.Get(c.role) == c.state
    ensures forall r :: r != c.role ==> Dispatch(b, id).value.Get(r) == b.Get(r)
  {
  }

  /** A catalogued id that is not a button publication changes nothing and is no error. */
  lemma KnownIdWithoutButtonIsIgnored(b: ButtonStates, id: MessageId)
    requires IsCatalogued(id)
    requires ButtonEffect(id).None?
    ensures Dispatch(b, id) == Success(b)
  {
  }

  /**
    * Exactly the ids outside the catalogue fail, with ArgumentOutOfRange, and
    * they change no button: the failure is distinguishable from a known no-op.
    */
  lemma UnknownIdIsRejected(b: ButtonStates, id: MessageId)
    ensures Dispatch(b, id).Failure? <==> !IsCatalogued(id)
    ensures Dispatch(b, id).Failure? ==> Dispatch(b, id).error == ArgumentOutOfRange
    ensures !IsCatalogued(id) ==> Settle(b, id) == b
  {
  }

  /** Delivering the same id twice has the effect of delivering it once. */
  lemma DispatchIsIdempotent(b: ButtonStates, id: MessageId)
    ensures Settle(Settle(b, id), id) == Settle(b, id)
  {
  }

  /** Press then release leaves the button released and the other three as they were. */
  lemma PressThenRelease(b: ButtonStates, r: Role)
    ensures Settle(Settle(b, Publication(ButtonChange(r, Pressed))), Publication(ButtonChange(r, Released)))
            == b.With(r, Released)
  {
  }

  /** The button states after the ids are delivered one after another. */
  function Replay(b: ButtonStates, ids: seq<MessageId>): ButtonStates
    decreases |ids|
  {
    if ids == [] then b else Replay(Settle(b, ids[0]), ids[1..])
  }

  /**
    * Reference for last-write-wins: the state named by the last publication
    * for role `r` among `ids`, or `initial` when there is none.
    */
  function LatestState(ids: seq<MessageId>, r: Role, initial: ButtonState): ButtonState
    decreases |ids|
  {
    if ids == [] then
      initial
    else
      var last := ids[|ids| - 1];
      if ButtonEffect(last).Some? && ButtonEffect(last).value.role == r then
        ButtonEffect(last).value.state
      else
        LatestState(ids[..|ids| - 1], r, initial)
  }

  /** One delivery moves a button exactly as the one-element history says. */
  lemma SettleIsLatestState(b: ButtonStates, id: MessageId, r: Role)
    ensures Settle(b, id).Get(r) == LatestState([id], r, b.Get(r))
  {
    assert [id][..0] == [];
  }

  /** The history before the first id acts as the initial state of the rest. */
  lemma {:induction false} LatestStateFromFront(id: MessageId, rest: seq<MessageId>, r: Role, initial: ButtonState)
    ensures LatestState([id] + rest, r, initial) == LatestState(rest, r, LatestState([id], r, initial))
    decreases |rest|
  {
    if rest == [] {
      assert [id] + rest == [id];
    } else {
      var front := rest[..|rest| - 1];
      assert ([id] + rest)[..|[id] + rest| - 1] == [id] + front;
      assert ([id] + rest)[|[id] + rest| - 1] == rest[|rest| - 1];
      LatestStateFromFront(id, front, r, initial);
    }
  }

  /** Each button ends in the state of its last publication: last write wins. */
  lemma {:induction false} ReplayIsLastWriteWins(b: ButtonStates, ids: seq<MessageId>, r: Role)
    ensures Replay(b, ids).Get(r) == LatestState(ids, r, b.Get(r))
    decreases |ids|
  {
    if ids != [] {
      ReplayIsLastWriteWins(Settle(b, ids[0]), ids[1..], r);
      SettleIsLatestState(b, ids[0], r);
      LatestStateFromFront(ids[0], ids[1..], r, b.Get(r));
      assert [ids[0]] + ids[1..] == ids;
    }
  }
}
