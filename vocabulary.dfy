/**
 * The library's vocabulary: device types, session statuses and currencies
 * with their C enumerator values, the human-readable labels, the
 * millisecond conversion macros, the default configuration values and the
 * shapes of the configuration and session records.
 *
 * The supported boards (MKR WiFi 1010, ESP32, Giga R1) are 32-bit targets:
 * `int` and `unsigned long` are both 32 bits wide.
 */
module Vocabulary {
  import opened Wrappers

  /** 2^32: `unsigned long` arithmetic is modulo this number. */
  const ULongModulus: int := 0x1_0000_0000

  /** A value of C type `unsigned long`. */
  type ULong = x: int | 0 <= x < 0x1_0000_0000

  // ---------------------------------------------------------------- device types

  datatype DeviceType = CoffeeMachine | BikeLock | DoorLock | PowerSwitch | EvCharger | Generic

  /** The C enumerator value of a device type (declaration order from 0). */
  function DeviceTypeValue(t: DeviceType): (v: int)
    ensures 0 <= v < 6
  {
    match t
    case CoffeeMachine => 0
    case BikeLock => 1
    case DoorLock => 2
    case PowerSwitch => 3
    case EvCharger => 4
    case Generic => 5
  }

  /** The device type an integer denotes, if any. */
  function DeviceTypeOf(v: int): (t: Option<DeviceType>)
    ensures t.Some? <==> 0 <= v < 6
  {
    if v == 0 then Some(CoffeeMachine)
    else if v == 1 then Some(BikeLock)
    else if v == 2 then Some(DoorLock)
    else if v == 3 then Some(PowerSwitch)
    else if v == 4 then Some(EvCharger)
    else if v == 5 then Some(Generic)
    else None
  }

  /** Enumerator values and device types are in one-to-one correspondence. */
  lemma DeviceTypeValueRoundTrip(t: DeviceType, v: int)
    ensures DeviceTypeOf(DeviceTypeValue(t)) == Some(t)
    ensures DeviceTypeOf(v).Some? ==> DeviceTypeValue(DeviceTypeOf(v).value) == v
  {
  }

  /**
   * `TSE_GetDeviceTypeString`: the label of the device type held as an
   * integer, so that values outside the enumeration are covered too.
   */
  function DeviceTypeString(value: int): (name: string)
    ensures name != []
    ensures name == "Generic Device" <==> !(0 <= value < 5)
  {
    if value == 0 then "Coffee Machine"
    else if value == 1 then "Bike Lock"
    else if value == 2 then "Door Lock"
    else if value == 3 then "Power Switch"
    else if value == 4 then "EV Charger"
    else "Generic Device"
  }

  /** The five named device types have five different labels, none of them the default one. */
  lemma DeviceTypeLabelsDistinct(a: DeviceType, b: DeviceType)
    requires a != Generic && b != Generic
    ensures DeviceTypeString(DeviceTypeValue(a)) != "Generic Device"
    ensures a != b ==> DeviceTypeString(DeviceTypeValue(a)) != DeviceTypeString(DeviceTypeValue(b))
  {
  }

  // ---------------------------------------------------------------- session status

  datatype SessionStatus = NoSession | PaymentRequired | Active | Expired | Ended

  /** The C enumerator value of a session status; "no session" comes first. */
  function SessionStatusValue(s: SessionStatus): (v: int)
    ensures 0 <= v < 5
    ensures v == 0 <==> s == NoSession
  {
    match s
    case NoSession => 0
    case PaymentRequired => 1
    case Active => 2
    case Expired => 3
    case Ended => 4
  }

  function SessionStatusOf(v: int): (s: Option<SessionStatus>)
    ensures s.Some? <==> 0 <= v < 5
  {
    if v == 0 then Some(NoSession)
    else if v == 1 then Some(PaymentRequired)
    else if v == 2 then Some(Active)
    else if v == 3 then Some(Expired)
    else if v == 4 then Some(Ended)
    else None
  }

  /** Exactly five statuses, one per enumerator value. */
  lemma SessionStatusValueRoundTrip(s: SessionStatus, v: int)
    ensures SessionStatusOf(SessionStatusValue(s)) == Some(s)
    ensures SessionStatusOf(v).Some? ==> SessionStatusValue(SessionStatusOf(v).value) == v
  {
  }

  // ---------------------------------------------------------------- currency

  datatype Currency = UnknownCurrency | Tse | Usdc

  /** The C enumerator value of a currency; "unknown" is the zero value. */
  function CurrencyValue(c: Currency): (v: int)
    ensures 0 <= v < 3
    ensures v == 0 <==> c == UnknownCurrency
  {
    match c
    case UnknownCurrency => 0
    case Tse => 1
    case Usdc => 2
  }

  function CurrencyOf(v: int): (c: Option<Currency>)
    ensures c.Some? <==> 0 <= v < 3
  {
    if v == 0 then Some(UnknownCurrency)
    else if v == 1 then Some(Tse)
    else if v == 2 then Some(Usdc)
    else None
  }

  /** Exactly three currencies, one per enumerator value. */
  lemma CurrencyValueRoundTrip(c: Currency, v: int)
    ensures CurrencyOf(CurrencyValue(c)) == Some(c)
    ensures CurrencyOf(v).Some? ==> CurrencyValue(CurrencyOf(v).value) == v
  {
  }

  /** `TSE_GetCurrencyString`, on the integer value of the currency. */
  function CurrencyString(value: int): (name: string)
    ensures name != []
    ensures value == CurrencyValue(Tse) ==> name == "TSE (Solana)"
    ensures value == CurrencyValue(Usdc) ==> name == "USDC (Base)"
    ensures value != CurrencyValue(Tse) && value != CurrencyValue(Usdc) ==> name == "Unknown"
  {
    if value == 1 then "TSE (Solana)"
    else if value == 2 then "USDC (Base)"
    else "Unknown"
  }

  // ---------------------------------------------------------------- macros

  /** `TSE_SECONDS_TO_MS(s)`: `s * 1000UL` in `unsigned long` arithmetic. */
  function SecondsToMs(s: ULong): (ms: ULong)
    ensures s * 1000 < ULongModulus ==> ms == s * 1000
  {
    (s * 1000) % ULongModulus
  }

  /** `TSE_MINUTES_TO_MS(m)`: `m * 60UL * 1000UL`, each product wrapping. */
  function MinutesToMs(m: ULong): (ms: ULong)
    ensures m * 60000 < ULongModulus ==> ms == m * 60000
  {
    ((m * 60) % ULongModulus * 1000) % ULongModulus
  }

  /** Reducing a factor modulo 2^32 first does not change a product modulo 2^32. */
  lemma ModOfProduct(a: nat, k: nat)
    ensures (a % ULongModulus * k) % ULongModulus == (a * k) % ULongModulus
  {
    var q := a / ULongModulus;
    assert a == a % ULongModulus + q * ULongModulus;
    assert a * k == a % ULongModulus * k + (q * k) * ULongModulus;
    ModAddMultiple(a % ULongModulus * k, q * k);
  }

  lemma ModAddMultiple(x: nat, c: nat)
    ensures (x + c * ULongModulus) % ULongModulus == x % ULongModulus
  {
  }

  /**
   * A minute is sixty seconds even after wrap-around: both macros are
   * multiplication by a constant modulo 2^32.
   */
  lemma MinutesToMsIsSixtySeconds(m: ULong)
    ensures MinutesToMs(m) == (m * 60000) % ULongModulus
    ensures MinutesToMs(m) == SecondsToMs((60 * m) % ULongModulus)
  {
    ModOfProduct(m * 60, 1000);
  }

  // ---------------------------------------------------------------- defaults

  const DefaultBackendHost: string := "tse-x-backend.onrender.com"
  const DefaultBackendPort: int := 443
  const DefaultPollIdle: ULong := 1500
  const DefaultPollActive: ULong := 3000

  /** `TSE_Config`. */
  datatype Config = Config(
    deviceId: string,
    deviceSecret: string,
    backendHost: string,
    backendPort: int,
    deviceType: DeviceType,
    pollIntervalIdle: ULong,
    pollIntervalActive: ULong)

  /** Both polling intervals are positive. */
  predicate ValidIntervals(c: Config) {
    c.pollIntervalIdle > 0 && c.pollIntervalActive > 0
  }

  /** A configuration built from the default values. */
  function DefaultConfig(deviceId: string, deviceSecret: string, deviceType: DeviceType): (c: Config)
    ensures ValidIntervals(c)
    ensures c.backendHost == "tse-x-backend.onrender.com" && c.backendPort == 443
    ensures c.pollIntervalIdle == 1500 && c.pollIntervalActive == 3000
    ensures c.deviceId == deviceId && c.deviceSecret == deviceSecret && c.deviceType == deviceType
  {
    Config(deviceId, deviceSecret, DefaultBackendHost, DefaultBackendPort, deviceType,
           DefaultPollIdle, DefaultPollActive)
  }

  /** `TSE_Session`: a record with no operations of its own. */
  datatype Session = Session(
    accessGranted: bool,
    remainingSeconds: int,
    currency: Currency,
    walletAddress: string,
    txHash: string,
    expiresAt: ULong)
}
