/**
  * The closed catalogue of message identifiers the hub's dispatcher knows
  * (the cases of the switch in src/PiTop/PiTop.cs, lines 73-210), written in
  * the order the switch lists them. The enumeration itself lives in a file
  * that is not part of this model, so `Unknown` carries the raw code of any
  * value the switch does not list, whether or not the enumeration names it.
  */
module Messages {

  datatype MessageId =
    // requests
    ReqPing
    | ReqGetDeviceId
    | ReqGetBrightness
    | ReqSetBrightness
    | ReqIncrementBrightness
    | ReqDecrementBrightness
    | ReqBlankScreen
    | ReqUnblankScreen
    | ReqGetBatteryState
    | ReqGetPeripheralEnabled
    | ReqGetScreenBlankingTimeout
    | ReqSetScreenBlankingTimeout
    | ReqGetLidOpenState
    | ReqGetScreenBacklightState
    | ReqSetScreenBacklightState
    | ReqGetOledControl
    | ReqSetOledControl
    // responses
    | RspErrServer
    | RspErrMalformed
    | RspErrUnsupported
    | RspPing
    | RspGetDeviceId
    | RspGetBrightness
    | RspSetBrightness
    | RspIncrementBrightness
    | RspDecrementBrightness
    | RspGetBatteryState
    | RspGetPeripheralEnabled
    | RspGetScreenBlankingTimeout
    | RspSetScreenBlankingTimeout
    | RspGetLidOpenState
    | RspGetScreenBacklightState
    | RspSetScreenBacklightState
    | RspGetOledControl
    | RspSetOledControl
    // publications
    | PubBrightnessChanged
    | PubPeripheralConnected
    | PubPeripheralDisconnected
    | PubShutdownRequested
    | PubRebootRequired
    | PubBatteryStateChanged
    | PubScreenBlanked
    | PubScreenUnblanked
    | PubLowBatteryWarning
    | PubCriticalBatteryWarning
    | PubLidClosed
    | PubLidOpened
    | PubUnsupportedHardware
    | PubV3ButtonUpPressed
    | PubV3ButtonUpReleased
    | PubV3ButtonDownPressed
    | PubV3ButtonDownReleased
    | PubV3ButtonSelectPressed
    | PubV3ButtonSelectReleased
    | PubV3ButtonCancelPressed
    | PubV3ButtonCancelReleased
    | PubKeyboardDocked
    | PubKeyboardUndocked
    | PubKeyboardConnected
    | PubFailedKeyboardConnect
    | PubOledControlChanged
    | PubNativeDisplayConnected
    | PubNativeDisplayDisconnected
    | PubExternalDisplayConnected
    | PubExternalDisplayDisconnected
    // any value the switch does not list
    | Unknown(code: int)

  /** The ids the switch names a case for; everything else reaches `default`. */
  predicate IsCatalogued(id: MessageId) {
    !id.Unknown?
  }
}
