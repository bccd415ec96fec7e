/**
  * Callers of the hub: what a plate, a consumer of the buttons, or the owner
  * of the hub can conclude from the hub's contracts alone.
  */
module Scenarios {
  import opened Results
  import opened Buttons
  import opened Dispatcher
  import opened Hardware
  import opened Lifecycle
  import opened PiTop

  /**
    * Once a plate's deregistration callback has run, the next request for
    * its type builds a new plate instead of handing back the old one.
    */
  method RecreatedAfterDeregistration(hub: PiTopModule, t: PlateType) returns (first: Plate, second: Plate)
    requires hub.Valid()
    modifies hub`plates, hub`events
    ensures hub.Valid()
    ensures first.kind == t && second.kind == t && first.deregistration == Some(t)
    ensures first != second && fresh(second)
    ensures t in hub.plates && hub.plates[t] == second
  {
    var r := hub.GetOrCreatePlate(t, false);
    first := r.value;
    match first.deregistration {
      case Some(key) => hub.DeregisterPlate(key);
      case None =>
    }
    r := hub.GetOrCreatePlate(t, false);
    second := r.value;
  }

  /**
    * The callback removes by key, not by plate: if a replaced plate's
    * callback runs again, it removes the plate that replaced it.
    */
  method StaleCallbackRemovesSuccessor(hub: PiTopModule, t: PlateType) returns (first: Plate, second: Plate)
    requires hub.Valid()
    modifies hub`plates, hub`events
    ensures first != second && first.kind == t && second.kind == t
    ensures t !in hub.plates
  {
    first, second := RecreatedAfterDeregistration(hub, t);
    match first.deregistration {
      case Some(key) => hub.DeregisterPlate(key);
      case None =>
    }
  }

  /** Every request for one address gets the one handle, opened on bus 1 at that address. */
  method SameAddressSameDevice(hub: PiTopModule, address: int) returns (d1: I2cDevice, d2: I2cDevice)
    requires hub.Valid()
    modifies hub`i2cBusses, hub`events
    ensures d1 == d2
    ensures d1.settings == I2cConnectionSettings(1, address)
  {
    var r := hub.GetOrCreateI2CDevice(address, false);
    d1 := r.value;
    r := hub.GetOrCreateI2CDevice(address, false);
    d2 := r.value;
  }

  /** Pressing and then releasing the Up button leaves it released and the others as they were. */
  method UpPressThenRelease(hub: PiTopModule)
    requires hub.ButtonsDistinct()
    modifies hub.upButton, hub.downButton, hub.selectButton, hub.cancelButton
    ensures hub.Buttons() == old(hub.Buttons()).With(Up, Released)
  {
    var _ := hub.ClientMessageReceived(Messages.PubV3ButtonUpPressed);
    var _ := hub.ClientMessageReceived(Messages.PubV3ButtonUpReleased);
  }

  /**
    * Disposing the hub disposes every plate registered and every handle
    * cached at that moment exactly once, and unsubscribes, disposes the
    * client and disposes the controller exactly once each.
    */
  method DisposeReleasesEachOnce(hub: PiTopModule, fires: set<Plate>)
    requires hub.Valid() && !hub.disposablesDisposed
    modifies hub`plates, hub`events, hub`subscribed, hub`disposablesDisposed
    ensures |hub.events| >= |old(hub.events)|
    ensures forall p :: p in old(hub.plates).Values ==> multiset(hub.events[|old(hub.events)|..])[PlateDisposed(p)] == 1
    ensures forall d :: d in old(hub.i2cBusses).Values ==> multiset(hub.events[|old(hub.events)|..])[DeviceDisposed(d)] == 1
    ensures multiset(hub.events[|old(hub.events)|..])[Unsubscribed] == 1
    ensures multiset(hub.events[|old(hub.events)|..])[ClientDisposed] == 1
    ensures multiset(hub.events[|old(hub.events)|..])[ControllerDisposed] == 1
    ensures hub.events[|old(hub.events)|] == Unsubscribed && hub.events[|hub.events| - 1] == ControllerDisposed
  {
    ghost var plateOrder, deviceOrder := hub.Dispose(fires);
    assert hub.events[|old(hub.events)|..] == TeardownTrace(plateOrder, deviceOrder);
    forall p | p in old(hub.plates).Values
      ensures multiset(hub.events[|old(hub.events)|..])[PlateDisposed(p)] == 1
    {
      TeardownDisposesEachPlateOnce(plateOrder, deviceOrder, p);
    }
    forall d | d in old(hub.i2cBusses).Values
      ensures multiset(hub.events[|old(hub.events)|..])[DeviceDisposed(d)] == 1
    {
      TeardownDisposesEachDeviceOnce(plateOrder, deviceOrder, d);
    }
    TeardownReleasesHubResourcesOnce(plateOrder, deviceOrder);
    TeardownInStageOrder(plateOrder, deviceOrder);
  }

  /** The controller a plate obtains is the same on every call. */
  method ControllerIsShared(hub: PiTopModule) returns (c1: GpioController, c2: GpioController)
    ensures c1 == c2 == hub.controller
  {
    c1 := hub.GetOrCreateController();
    c2 := hub.GetOrCreateController();
  }
}
