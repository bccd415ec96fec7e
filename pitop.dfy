/**
  * The hub (`PiTopModule` in src/PiTop/PiTop.cs): a plate registry keyed by
  * plate type, an I2C device cache keyed by address, the dispatcher that
  * turns client messages into button states, the single GPIO controller, and
  * the ordered teardown of all of them. Every construction of a plate or an
  * I2C handle, and every teardown step, is appended to `events`.
  */
module PiTop {
  import opened Results
  import opened Messages
  import opened Buttons
  import opened Dispatcher
  import opened Hardware
  import opened Lifecycle

  /** Every I2C device handle is opened on this bus. */
  const I2CBusId: int := 1

  /** A plate constructor or the I2C device factory threw. */
  datatype CreationError = ConstructionFailed

  class PiTopModule {
    const controller: GpioController
    const client: Client
    const upButton: Button
    const downButton: Button
    const selectButton: Button
    const cancelButton: Button

    /** The plate registry (`_plates`). */
    var plates: map<PlateType, Plate>
    /** The I2C device cache (`_i2cBusses`). */
    var i2cBusses: map<int, I2cDevice>
    /** Whether the message handler is attached to the client's event. */
    var subscribed: bool
    /** The disposed flag of the composite that owns the teardown action, the client and the controller. */
    var disposablesDisposed: bool
    /** Every construction of a plate or an I2C handle, and every teardown step, in order. */
    var events: seq<Event>

    ghost predicate ButtonsDistinct() {
      && upButton != downButton && upButton != selectButton && upButton != cancelButton
      && downButton != selectButton && downButton != cancelButton
      && selectButton != cancelButton
    }

    /**
      * The registry holds, under each type, a plate of that type built with
      * this hub whose callback removes that type; the cache holds, under each
      * address, a handle opened on bus 1 at that address.
      */
    ghost predicate Valid()
      reads this`plates, this`i2cBusses, plates.Values
    {
      && ButtonsDistinct()
      && (forall t :: t in plates ==>
            plates[t].kind == t && plates[t].hub == this && plates[t].deregistration == Some(t))
      && (forall a :: a in i2cBusses ==> i2cBusses[a].settings == I2cConnectionSettings(I2CBusId, a))
    }

    /** The four buttons' current states. */
    function Buttons(): ButtonStates
      reads upButton, downButton, selectButton, cancelButton
    {
      ButtonStates(upButton.state, downButton.state, selectButton.state, cancelButton.state)
    }

    /**
      * Creates the controller and the client and subscribes to the client's
      * messages. The starting state of a button is set by a class that is not
      * part of this model, so it is a parameter.
      */
    constructor (initial: ButtonState)
      ensures Valid()
      ensures fresh(controller) && fresh(client)
      ensures fresh(upButton) && fresh(downButton) && fresh(selectButton) && fresh(cancelButton)
      ensures Buttons() == ButtonStates(initial, initial, initial, initial)
      ensures plates == map[] && i2cBusses == map[]
      ensures subscribed && !disposablesDisposed && events == []
    {
      upButton := new Button(initial);
      downButton := new Button(initial);
      selectButton := new Button(initial);
      cancelButton := new Button(initial);
      controller := new GpioController();
      client := new Client();
      subscribed := true;
      disposablesDisposed := false;
      plates := map[];
      i2cBusses := map[];
      events := [];
    }

    /** The controller created with the hub, on every call. */
    method GetOrCreateController() returns (c: GpioController)
      ensures c == controller
    {
      c := controller;
    }

    /**
      * Returns the registered plate of type `t`, or constructs one with this
      * hub as its argument, registers its deregistration callback and stores
      * it under `t`. When the plate's constructor throws (`constructorThrows`),
      * the error propagates and the registry is left as it was.
      */
    method GetOrCreatePlate(t: PlateType, constructorThrows: bool) returns (r: Result<Plate, CreationError>)
      requires Valid()
      modifies this`plates, this`events
      ensures Valid()
      ensures t in old(plates) ==>
                r == Success(old(plates)[t]) && plates == old(plates) && events == old(events)
      ensures t !in old(plates) && constructorThrows ==>
                r == Failure(ConstructionFailed) && plates == old(plates) && events == old(events)
      ensures t !in old(plates) && !constructorThrows ==>
                && r.Success? && fresh(r.value)
                && r.value.kind == t && r.value.hub == this && r.value.deregistration == Some(t)
                && plates == old(plates)[t := r.value]
                && events == old(events) + [PlateConstructed(r.value)]
    {
      if t in plates {
        return Success(plates[t]);
      }
      if constructorThrows {
        return Failure(ConstructionFailed);
      }
      var plate := new Plate(t, this);
      plate.RegisterForDisposal(t);
      plates := plates[t := plate];
      events := events + [PlateConstructed(plate)];
      r := Success(plate);
    }

    /** A plate's deregistration callback: removes `key`, and is a no-op when `key` is gone. */
    method DeregisterPlate(key: PlateType)
      requires Valid()
      modifies this`plates
      ensures Valid()
      ensures plates == old(plates) - {key}
    {
      plates := plates - {key};
    }

    /** Two types never share a plate. */
    lemma DistinctTypesHaveDistinctPlates(t1: PlateType, t2: PlateType)
      requires Valid()
      requires t1 in plates && t2 in plates && t1 != t2
      ensures plates[t1] != plates[t2]
    {
    }

    /**
      * The message handler. Each button publication assigns one button's
      * state, every other catalogued id does nothing, and an id outside the
      * catalogue throws ArgumentOutOfRange before anything is assigned.
      */
    method ClientMessageReceived(id: MessageId) returns (r: Outcome<DispatchError>)
      requires ButtonsDistinct()
      modifies upButton, downButton, selectButton, cancelButton
      ensures r == if Dispatch(old(Buttons()), id).Success? then Pass else Fail(Dispatch(old(Buttons()), id).error)
      ensures Buttons() == Settle(old(Buttons()), id)
    {
      r := Pass;
      match id {
        case ReqPing =>
        case ReqGetDeviceId =>
        case ReqGetBrightness =>
        case ReqSetBrightness =>
        case ReqIncrementBrightness =>
        case ReqDecrementBrightness =>
        case ReqBlankScreen =>
        case ReqUnblankScreen =>
        case ReqGetBatteryState =>
        case ReqGetPeripheralEnabled =>
        case ReqGetScreenBlankingTimeout =>
        case ReqSetScreenBlankingTimeout =>
        case ReqGetLidOpenState =>
        case ReqGetScreenBacklightState =>
        case ReqSetScreenBacklightState =>
        case ReqGetOledControl =>
        case ReqSetOledControl =>
        case RspErrServer =>
        case RspErrMalformed =>
        case RspErrUnsupported =>
        case RspPing =>
        case RspGetDeviceId =>
        case RspGetBrightness =>
        case RspSetBrightness =>
        case RspIncrementBrightness =>
        case RspDecrementBrightness =>
        case RspGetBatteryState =>
        case RspGetPeripheralEnabled =>
        case RspGetScreenBlankingTimeout =>
        case RspSetScreenBlankingTimeout =>
        case RspGetLidOpenState =>
        case RspGetScreenBacklightState =>
        case RspSetScreenBacklightState =>
        case RspGetOledControl =>
        case RspSetOledControl =>
        case PubBrightnessChanged =>
        case PubPeripheralConnected =>
        case PubPeripheralDisconnected =>
        case PubShutdownRequested =>
        case PubRebootRequired =>
        case PubBatteryStateChanged =>
        case PubScreenBlanked =>
        case PubScreenUnblanked =>
        case PubLowBatteryWarning =>
        case PubCriticalBatteryWarning =>
        case PubLidClosed =>
        case PubLidOpened =>
        case PubUnsupportedHardware =>
        case PubV3ButtonUpPressed => upButton.state := Pressed;
        case PubV3ButtonUpReleased => upButton.state := Released;
        case PubV3ButtonDownPressed => downButton.state := Pressed;
        case PubV3ButtonDownReleased => downButton.state := Released;
        case PubV3ButtonSelectPressed => selectButton.state := Pressed;
        case PubV3ButtonSelectReleased => selectButton.state := Released;
        case PubV3ButtonCancelPressed => cancelButton.state := Pressed;
        case PubV3ButtonCancelReleased => cancelButton.state := Released;
        case PubKeyboardDocked =>
        case PubKeyboardUndocked =>
        case PubKeyboardConnected =>
        case PubFailedKeyboardConnect =>
        case PubOledControlChanged =>
        case PubNativeDisplayConnected =>
        case PubNativeDisplayDisconnected =>
        case PubExternalDisplayConnected =>
        case PubExternalDisplayDisconnected =>
        case Unknown(_) =>
          r := Fail(ArgumentOutOfRange);
      }
    }

    /**
      * Returns the cached handle for `deviceAddress`, or opens one on bus 1 at
      * that address and caches it. When opening throws (`createThrows`), the
      * error propagates and the cache is left as it was.
      */
    method GetOrCreateI2CDevice(deviceAddress: int, createThrows: bool) returns (r: Result<I2cDevice, CreationError>)
      requires Valid()
      modifies this`i2cBusses, this`events
      ensures Valid()
      ensures r.Success? ==> r.value.settings == I2cConnectionSettings(I2CBusId, deviceAddress)
      ensures deviceAddress in old(i2cBusses) ==>
                r == Success(old(i2cBusses)[deviceAddress]) && i2cBusses == old(i2cBusses) && events == old(events)
      ensures deviceAddress !in old(i2cBusses) && createThrows ==>
                r == Failure(ConstructionFailed) && i2cBusses == old(i2cBusses) && events == old(events)
      ensures deviceAddress !in old(i2cBusses) && !createThrows ==>
                && r.Success? && fresh(r.value)
                && i2cBusses == old(i2cBusses)[deviceAddress := r.value]
                && events == old(events) + [DeviceCreated(r.value)]
    {
      if deviceAddress in i2cBusses {
        return Success(i2cBusses[deviceAddress]);
      }
      if createThrows {
        return Failure(ConstructionFailed);
      }
      var device := new I2cDevice.Create(I2cConnectionSettings(I2CBusId, deviceAddress));
      i2cBusses := i2cBusses[deviceAddress := device];
      events := events + [DeviceCreated(device)];
      r := Success(device);
    }

    /** Two addresses never share a handle. */
    lemma DistinctAddressesHaveDistinctDevices(a1: int, a2: int)
      requires Valid()
      requires a1 in i2cBusses && a2 in i2cBusses && a1 != a2
      ensures i2cBusses[a1] != i2cBusses[a2]
    {
    }

    /**
      * The teardown action the constructor adds to the composite: dispose the
      * plates, then the I2C handles. The snapshot orders are returned.
      */
    method DisposePlatesAndBusses(fires: set<Plate>) returns (ghost plateOrder: seq<Plate>, ghost deviceOrder: seq<I2cDevice>)
      requires Valid()
      modifies this`plates, this`events
      ensures Valid()
      ensures events == old(events) + PlateDisposals(plateOrder) + DeviceDisposals(deviceOrder)
      ensures Distinct(plateOrder) && forall p :: p in plateOrder <==> p in old(plates).Values
      ensures Distinct(deviceOrder) && forall d :: d in deviceOrder <==> d in old(i2cBusses).Values
      ensures forall t :: t in plates <==> t in old(plates) && old(plates)[t] !in fires
      ensures forall t :: t in plates ==> plates[t] == old(plates)[t]
    {
      plateOrder := DisposePlates(fires);
      deviceOrder := DisposeBusses();
    }

    /**
      * Disposes each plate of a snapshot of the registry, taken before the
      * loop, once each. Whether a plate's disposal runs its deregistration
      * callback is up to the plate class, which is not part of this model:
      * `fires` is the set of plates whose disposal does, and each such
      * callback removes its key while the loop goes on over the snapshot.
      */
    method DisposePlates(fires: set<Plate>) returns (snapshot: seq<Plate>)
      requires Valid()
      modifies this`plates, this`events
      ensures Valid()
      ensures events == old(events) + PlateDisposals(snapshot)
      ensures Distinct(snapshot) && forall p :: p in snapshot <==> p in old(plates).Values
      ensures forall t :: t in plates <==> t in old(plates) && old(plates)[t] !in fires
      ensures forall t :: t in plates ==> plates[t] == old(plates)[t]
    {
      snapshot := PlateSnapshot();
      var i := 0;
      while i < |snapshot|
        invariant 0 <= i <= |snapshot|
        invariant Valid()
        invariant events == old(events) + PlateDisposals(snapshot[..i])
        invariant forall t :: t in plates <==> t in old(plates) && !(old(plates)[t] in fires && old(plates)[t] in snapshot[..i])
        invariant forall t :: t in plates ==> plates[t] == old(plates)[t]
      {
        var plate := snapshot[i];
        DisposePlate(plate, plate in fires);
        assert snapshot[..i + 1] == snapshot[..i] + [plate];
        PlateDisposalsSnoc(snapshot[..i], plate);
        AppendAssociates(old(events), PlateDisposals(snapshot[..i]), [PlateDisposed(plate)]);
        i := i + 1;
      }
      assert snapshot[..i] == snapshot;
    }

    /** The registry's plates as a list (`_plates.Values.ToList()`), each under its own type. */
    method PlateSnapshot() returns (snapshot: seq<Plate>)
      requires Valid()
      ensures Distinct(snapshot) && forall p :: p in snapshot <==> p in plates.Values
      ensures forall j :: 0 <= j < |snapshot| ==> snapshot[j].kind in plates && plates[snapshot[j].kind] == snapshot[j]
    {
      assert Injective(plates) by {
        forall t1, t2 | t1 in plates && t2 in plates && plates[t1] == plates[t2] ensures t1 == t2 {
          assert plates[t1].kind == t1 && plates[t2].kind == t2;
        }
      }
      ghost var keys;
      snapshot, keys := SnapshotValues(plates);
      forall j | 0 <= j < |snapshot|
        ensures snapshot[j].kind in plates && plates[snapshot[j].kind] == snapshot[j]
      {
        assert snapshot[j] in plates.Values;
        var t :| t in plates && plates[t] == snapshot[j];
      }
    }

    /**
      * One plate's `Dispose`, seen from the hub: the plate is disposed and,
      * when `runsCallback`, its deregistration callback removes its key.
      */
    method DisposePlate(plate: Plate, runsCallback: bool)
      requires Valid()
      modifies this`plates, this`events
      ensures Valid()
      ensures events == old(events) + [PlateDisposed(plate)]
      ensures plates == if runsCallback && plate.deregistration.Some? then old(plates) - {plate.deregistration.value}
                        else old(plates)
    {
      events := events + [PlateDisposed(plate)];
      if runsCallback {
        match plate.deregistration {
          case Some(key) => DeregisterPlate(key);
          case None =>
        }
      }
    }

    /** Disposes each handle of a snapshot of the cache once; the cache itself is kept. */
    method DisposeBusses() returns (snapshot: seq<I2cDevice>)
      requires Valid()
      modifies this`events
      ensures events == old(events) + DeviceDisposals(snapshot)
      ensures Distinct(snapshot) && forall d :: d in snapshot <==> d in i2cBusses.Values
    {
      assert Injective(i2cBusses) by {
        forall a1, a2 | a1 in i2cBusses && a2 in i2cBusses && i2cBusses[a1] == i2cBusses[a2] ensures a1 == a2 {
          assert i2cBusses[a1].settings.deviceAddress == a1;
        }
      }
      ghost var addresses;
      snapshot, addresses := SnapshotValues(i2cBusses);
      var k := 0;
      while k < |snapshot|
        invariant 0 <= k <= |snapshot|
        invariant events == old(events) + DeviceDisposals(snapshot[..k])
      {
        events := events + [DeviceDisposed(snapshot[k])];
        assert snapshot[..k + 1] == snapshot[..k] + [snapshot[k]];
        DeviceDisposalsSnoc(snapshot[..k], snapshot[k]);
        AppendAssociates(old(events), DeviceDisposals(snapshot[..k]), [DeviceDisposed(snapshot[k])]);
        k := k + 1;
      }
      assert snapshot[..k] == snapshot;
    }

    /**
      * Detaches the message handler, then disposes the composite, which runs
      * its members in the order the constructor added them: the teardown
      * action, the client, the controller. Nothing clears the registry or the
      * cache, and nothing guards later calls.
      */
    method Dispose(fires: set<Plate>) returns (ghost plateOrder: seq<Plate>, ghost deviceOrder: seq<I2cDevice>)
      requires Valid()
      requires !disposablesDisposed
      modifies this`plates, this`events, this`subscribed, this`disposablesDisposed
      ensures Valid()
      ensures !subscribed && disposablesDisposed
      ensures events == old(events) + TeardownTrace(plateOrder, deviceOrder)
      ensures Distinct(plateOrder) && forall p :: p in plateOrder <==> p in old(plates).Values
      ensures Distinct(deviceOrder) && forall d :: d in deviceOrder <==> d in old(i2cBusses).Values
      ensures forall t :: t in plates <==> t in old(plates) && old(plates)[t] !in fires
      ensures forall t :: t in plates ==> plates[t] == old(plates)[t]
    {
      subscribed := false;
      events := events + [Unsubscribed];
      plateOrder, deviceOrder := DisposePlatesAndBusses(fires);
      events := events + [ClientDisposed];
      events := events + [ControllerDisposed];
      disposablesDisposed := true;
      TeardownAppends(old(events), plateOrder, deviceOrder);
    }
  }
}
