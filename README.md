# PiTop hub: a verified model

This project models `PiTopModule`, the hub of the pi-top hardware library
(`src/PiTop/PiTop.cs`). The hub owns one GPIO controller and one message
client. It keeps a registry of plates keyed by plate type and a cache of I2C
device handles keyed by bus address. It turns the client's messages into the
states of four buttons, and it tears all of this down in a fixed order.

Modules, one per concern:

- `Messages` (messages.dfy): the closed catalogue of 65 message ids, plus
  `Unknown(code)` for any other value of the enumeration.
- `Buttons` (buttons.dfy): button states, roles, the four-button value
  `ButtonStates`, and the mutable `Button` object.
- `Dispatcher` (dispatcher.dfy): the handler's effect as a table. `Dispatch`
  says what one message does, `Replay` applies a sequence of messages, and
  `LatestState` is a last-write-wins reference that `Replay` is proved
  equal to.
- `Hardware` (hardware.dfy): opaque objects for plates, I2C handles, the
  controller and the client.
- `Lifecycle` (lifecycle.dfy): the trace of hardware events, the dictionary
  snapshot, and the shape and counting lemmas of the teardown trace.
- `PiTop` (pitop.dfy): the class `PiTopModule`. Its methods update the two
  maps, the button objects, the subscription flag and the event trace in
  place.
- `Scenarios` (scenarios.dfy): callers that derive end-to-end properties
  from the hub's contracts alone.

Every construction of a plate or an I2C handle, and every teardown step
is appended to `PiTopModule.events`. The controller and the client,
which the constructor builds once, are not recorded as constructions: the
constructor's contract says they are fresh instead. So for the registry and
the cache, "constructs nothing" means "appends no event". The trace also lets
teardown order and exactly-once disposal be stated.

Notes on where the model follows the code rather than what a reader might expect:

- A hub like this would be expected to refuse use after disposal; the code
  has no such guard. `Dispose` does not clear the cache, and it removes a
  registry key only when that plate's disposal runs its callback. Nothing
  guards later calls, so a plate whose callback did not run is handed back
  after disposal. Whether a second `Dispose` is harmless depends on
  `CompositeDisposable`, which is not modelled.
- The deregistration callback removes its type key whatever plate is stored
  there now. If an old plate's callback ran after that plate had been
  replaced, it would remove the replacement
  (`Scenarios.StaleCallbackRemovesSuccessor`). Whether a plate can run its
  callback twice depends on the plate class, which is not part of this model.

## Model

| member | source | states |
|---|---|---|
| `PiTop.PiTopModule.constructor` | src/PiTop/PiTop.cs:30-54 | A fresh controller, client and four distinct buttons are created, the handler is subscribed, both maps are empty and no event has happened |
| `PiTop.PiTopModule.GetOrCreateController` | src/PiTop/PiTop.cs:228-231 | Every call returns the one controller the constructor created |
| `PiTop.PiTopModule.GetOrCreatePlate` | src/PiTop/PiTop.cs:56-67 | A registered type returns the stored plate, with the registry and trace unchanged. An absent type gets one fresh plate of that type, built with this hub, with a callback for that type, stored under that key alone. A throwing constructor propagates and leaves the registry as it was |
| `PiTop.PiTopModule.DeregisterPlate` | src/PiTop/PiTop.cs:62 | The callback removes exactly its own key and is a no-op when the key is gone; the invariant is kept |
| `PiTop.PiTopModule.DistinctTypesHaveDistinctPlates` | src/PiTop/PiTop.cs:59-64 | Two plate types never share a plate instance |
| `PiTop.PiTopModule.ClientMessageReceived` | src/PiTop/PiTop.cs:69-215 | The switch statement ends with exactly the button states `Dispatch` specifies, and throws ArgumentOutOfRange exactly when `Dispatch` fails; on a throw no button changes |
| `PiTop.PiTopModule.GetOrCreateI2CDevice` | src/PiTop/PiTop.cs:217-220 | A cached address returns the cached handle, with the cache unchanged. An absent address gets one fresh handle opened on bus 1 at that address, stored under that address alone. A throwing factory leaves the cache as it was. Every returned handle has bus 1 and the requested address |
| `PiTop.PiTopModule.DistinctAddressesHaveDistinctDevices` | src/PiTop/PiTop.cs:219 | Two addresses never share a handle |
| `PiTop.PiTopModule.DisposePlatesAndBusses` | src/PiTop/PiTop.cs:35-50 | The teardown action disposes all plates of its snapshot, then all cached handles of its snapshot, each once. Only the keys of plates whose disposal runs their callback leave the registry, and the cache is kept |
| `PiTop.PiTopModule.DisposePlates` | src/PiTop/PiTop.cs:37-42 | Every plate of the snapshot taken before the loop is disposed once, in snapshot order, though callbacks remove keys during the loop. The registry loses exactly the keys of plates whose callback ran, and the other entries are unchanged |
| `PiTop.PiTopModule.PlateSnapshot` | src/PiTop/PiTop.cs:37 | The snapshot lists every registered plate exactly once, and nothing else |
| `PiTop.PiTopModule.DisposePlate` | src/PiTop/PiTop.cs:41 | One plate's disposal is recorded, and its callback, when run, removes its key |
| `PiTop.PiTopModule.DisposeBusses` | src/PiTop/PiTop.cs:44-49 | Every cached handle is disposed exactly once, and the cache is not cleared |
| `PiTop.PiTopModule.Dispose` | src/PiTop/PiTop.cs:222-226 | The handler is detached, and the trace grows by exactly `TeardownTrace(plates, devices)` over duplicate-free snapshots of the registry and cache. The registry keeps every entry whose plate did not run its callback, and the cache is unchanged |
| `Lifecycle.SnapshotValues` | src/PiTop/PiTop.cs:44 | `Values.ToList()` has one element per key: each key is read exactly once and its element is that key's value. So the list holds exactly the map's values, with no duplicates when no two keys share a value |
| `Lifecycle.PlateDisposals` | src/PiTop/PiTop.cs:39-42 | The i-th event disposes the i-th plate of the snapshot |
| `Lifecycle.DeviceDisposals` | src/PiTop/PiTop.cs:46-49 | The i-th event disposes the i-th handle of the snapshot |
| `Lifecycle.PlateDisposalsCount` | src/PiTop/PiTop.cs:39-42 | A plate is disposed as often as it occurs in the snapshot, and the plate loop emits no other kind of event |
| `Lifecycle.DeviceDisposalsCount` | src/PiTop/PiTop.cs:46-49 | A handle is disposed as often as it occurs in the snapshot, and the device loop emits no other kind of event |
| `Lifecycle.TeardownMultiset` | src/PiTop/PiTop.cs:35-53 | The events of a teardown are those of its five parts: unsubscribe, the plate loop, the device loop, the client and the controller |
| `Lifecycle.TeardownDisposesEachPlateOnce` | src/PiTop/PiTop.cs:37-42 | Over a duplicate-free snapshot, teardown disposes each snapshot plate exactly once and never a plate outside the snapshot |
| `Lifecycle.TeardownDisposesEachDeviceOnce` | src/PiTop/PiTop.cs:44-49 | Over a duplicate-free snapshot, teardown disposes each cached handle exactly once and never a handle outside the snapshot |
| `Lifecycle.TeardownReleasesHubResourcesOnce` | src/PiTop/PiTop.cs:222-226 | Teardown unsubscribes, disposes the client and disposes the controller exactly once each |
| `Lifecycle.TeardownInStageOrder` | src/PiTop/PiTop.cs:35-53 | Teardown events run in stage order: unsubscribe first, every plate before every handle, then the client, with the controller last |
| `Lifecycle.TeardownAppends` | src/PiTop/PiTop.cs:224-225 | Appending the teardown steps one at a time yields the teardown trace |
| `Buttons.ButtonStates.With` | src/PiTop/PiTop.cs:169-192 | Assigning one button's state sets that button and keeps the other three |
| `Buttons.Button.constructor` | src/PiTop/PiTop.cs:25-28 | A button starts in the given state |
| `Dispatcher.Publication` | src/PiTop/PiTop.cs:169-192 | Each (role, state) pair has a catalogued publication id that asks for exactly that change |
| `Dispatcher.PublicationIsUnique` | src/PiTop/PiTop.cs:169-192 | No two ids ask for the same button change: `Publication` inverts `ButtonEffect` |
| `Dispatcher.ButtonPublicationSetsOnlyItsButton` | src/PiTop/PiTop.cs:169-192 | Each of the eight button publications succeeds, sets its own button to its state and leaves the other three unchanged |
| `Dispatcher.KnownIdWithoutButtonIsIgnored` | src/PiTop/PiTop.cs:73-168 | Every other catalogued id (requests, responses, the non-button publications, and the keyboard and display publications at lines 193-210) succeeds and leaves all four buttons unchanged |
| `Dispatcher.UnknownIdIsRejected` | src/PiTop/PiTop.cs:211-212 | Dispatch fails exactly for ids outside the catalogue, with ArgumentOutOfRange and no button change, so known no-ops and unknown ids stay distinguishable |
| `Dispatcher.DispatchIsIdempotent` | src/PiTop/PiTop.cs:69-215 | Delivering an id twice has the effect of delivering it once |
| `Dispatcher.PressThenRelease` | src/PiTop/PiTop.cs:169-192 | A press followed by the matching release leaves that button released and the rest as before |
| `Dispatcher.SettleIsLatestState` | src/PiTop/PiTop.cs:69-215 | One delivery sets each button as the one-message history says |
| `Dispatcher.LatestStateFromFront` | src/PiTop/PiTop.cs:169-192 | The last-write reference can be computed from the front, with the first message acting as the new initial state |
| `Dispatcher.ReplayIsLastWriteWins` | src/PiTop/PiTop.cs:169-192 | After any sequence of deliveries, each button holds the state of the last publication for its role, or its initial state if there was none |
| `Hardware.Plate.constructor` | src/PiTop/PiTop.cs:61 | The new plate has the requested type, holds the hub as its only constructor argument, and has no callback yet |
| `Hardware.Plate.RegisterForDisposal` | src/PiTop/PiTop.cs:62 | The plate holds the callback for the given key |
| `Hardware.I2cDevice.Create` | src/PiTop/PiTop.cs:219 | The handle is opened with the given connection settings |
| `Scenarios.RecreatedAfterDeregistration` | src/PiTop/PiTop.cs:59-64 | After a plate's callback runs, the next request for its type builds a fresh, distinct plate and registers it |
| `Scenarios.StaleCallbackRemovesSuccessor` | src/PiTop/PiTop.cs:62 | Removal is by key, so if a replaced plate's callback runs again it removes the plate that replaced it |
| `Scenarios.SameAddressSameDevice` | src/PiTop/PiTop.cs:217-220 | Two requests for one address return the same handle, opened on bus 1 at that address |
| `Scenarios.UpPressThenRelease` | src/PiTop/PiTop.cs:169-174 | Up pressed then Up released leaves Up released and Down, Select and Cancel unchanged |
| `Scenarios.DisposeReleasesEachOnce` | src/PiTop/PiTop.cs:222-226 | A disposal disposes each plate and handle present at that moment exactly once, unsubscribes first, and disposes the client once and the controller last |
| `Scenarios.ControllerIsShared` | src/PiTop/PiTop.cs:228-231 | Repeated controller requests return the identical controller |

## Left out

- Concurrency: `ConcurrentDictionary.GetOrAdd` is modelled by its sequential meaning. A stored value is returned, or else one value is constructed, inserted and returned. Its atomicity, and the possibility that a race runs the factory twice, are not modelled.
- Reflection: `Activator.CreateInstance` becomes `new Plate(t, this)`, where the plate type is a name token, and the `as T` cast always succeeds.
- GPIO controller, I2C transport and message client: library code, modelled as opaque objects whose only behaviour is an identity and a recorded disposal.
- The plate class (its `RegisterForDisposal` and `Dispose`) is not part of this model. Registering a callback is modelled as the plate holding its key. Whether a plate's disposal runs its callback is the `fires` parameter of `Dispose`.
- The button class is not part of this model, so a button's starting state is a parameter of the hub's constructor.
- The message enumeration itself is not part of this model. Any value the switch does not list is `Unknown(code)`, whether or not the enumeration names it.
- Dispose: models the first call only (requires `!disposablesDisposed`). A second call's effect rests on `CompositeDisposable.Dispose`, which is library code outside this model.
- The composite's disposal order: the library disposes its members in insertion order. `Dispose` therefore runs them in the order the constructor added them (lines 35, 52 and 53), written out in sequence.
- Construction failures of a plate constructor or `I2cDevice.Create` are boolean parameters, because their causes are in code outside this model. What a failing `RegisterForDisposal` would do is not modelled.
- Disposal failures: every plate `Dispose` and every `I2cDevice.Dispose` is assumed to return normally. In the code, a throw at line 41 or line 48 leaves the teardown action early. The composite's loop then stops too, so the remaining plates, the handles, the client and the controller are never disposed. `Dispose`'s trace, and "each exactly once", hold only when nothing throws.
- Re-entrant plates: a plate's constructor and its `Dispose` receive the hub (line 61). The model assumes that they do not call back into it. A plate that called `GetOrCreateI2CDevice` or `GetOrCreatePlate` while being built or disposed would change the cache, other registry keys or the trace. That falls outside the frames and contracts of `GetOrCreatePlate`, `DisposePlate` and `Dispose`.
- Message delivery: the client decides when the handler runs and what happens to the exception it throws. The subscription is a flag, and the handler itself does not check it, just as in the code.
