/**
  * The hub's collaborators as opaque objects. Their real behaviour (GPIO,
  * the I2C transport, the message client, the plates' own peripheral logic)
  * is library code or lives in files that are not part of this model; here
  * each is only an identity, plus the few facts the hub itself sets.
  */
module Hardware {
  import opened Results

  /** The runtime type token a plate is registered under (C# `typeof(T)`). */
  datatype PlateType = PlateType(name: string)

  /**
    * A plate instance. `kind` is the type it was instantiated as and `hub`
    * the single constructor argument it was given; `deregistration` is the
    * callback registered with it, represented by the registry key the
    * callback removes.
    */
  class Plate {
    const kind: PlateType
    const hub: object
    var deregistration: Option<PlateType>

    constructor (kind: PlateType, hub: object)
      ensures this.kind == kind && this.hub == hub
      ensures deregistration == None
    {
      this.kind := kind;
      this.hub := hub;
      deregistration := None;
    }

    /** Stores the callback that removes `key` from the registry. */
    method RegisterForDisposal(key: PlateType)
      modifies this
      ensures deregistration == Some(key)
    {
      deregistration := Some(key);
    }
  }

  /** The parameters an I2C device handle is opened with. */
  datatype I2cConnectionSettings = I2cConnectionSettings(busId: int, deviceAddress: int)

  /** An open I2C device handle. */
  class I2cDevice {
    const settings: I2cConnectionSettings

    constructor Create(settings: I2cConnectionSettings)
      ensures this.settings == settings
    {
      this.settings := settings;
    }
  }

  /** The GPIO controller. */
  class GpioController {
    constructor () {}
  }

  /** The message client that delivers notifications to the hub. */
  class Client {
    constructor () {}
  }
}
