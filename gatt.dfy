/**
 * The GATT vocabulary the device monitor works with: identifiers, services and
 * characteristics as the Android Bluetooth stack reports them, and the calls the
 * activity makes into the background BLE service.
 */
module Gatt {
  import opened Wrappers

  /**
   * The identifiers the activity compares against. Their values live in an
   * interface that is not part of this model, so they are distinct abstract
   * constants. In the Bluetooth SIG assigned numbers they are 0x180D (Heart
   * Rate service), 0x2A37 (Heart Rate Measurement), 0x180F (Battery service)
   * and 0x2A19 (Battery Level); CustomMeasurement is the third identifier
   * that the characteristic-found handler tests.
   */
  datatype Uuid =
    | HeartRateService
    | HeartRateMeasurement
    | BatteryService
    | BatteryLevel
    | CustomMeasurement
    | OtherUuid(bits: nat)

  /** A characteristic object: its identifier and the instance number that tells apart two characteristics with the same identifier. */
  datatype Characteristic = Characteristic(uuid: Uuid, instance: nat)

  /** A discovered service with its characteristics, in the order the stack lists them. */
  datatype Service = Service(uuid: Uuid, characteristics: seq<Characteristic>)

  /** One call from the activity into the background BLE service. */
  datatype ServiceCall =
    | Initialize
    | StartDatabase
    | Connect(address: Option<string>)
    | Disconnect
    | ReadBatteryLevel
    | GetSupportedGattServices
    | StartSession(bat: Option<Characteristic>, hr: Option<Characteristic>)
}
