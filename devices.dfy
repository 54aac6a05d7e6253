/**
 * The device records: three kinds of device sharing id, name, location, status and a
 * last-updated time (an integer timestamp here), and the status-to-colour mapping that
 * the dashboard and the three device pages each define identically.
 */
module Devices {
  import opened Wrappers

  datatype Status = Online | Offline | Maintenance

  function StatusName(s: Status): string {
    match s
    case Online => "online"
    case Offline => "offline"
    case Maintenance => "maintenance"
  }

  /** The inverse of `StatusName` on the strings the status enum admits. */
  function ParseStatus(s: string): (r: Option<Status>)
    ensures r.Some? ==> StatusName(r.value) == s
  {
    if s == "online" then Some(Online)
    else if s == "offline" then Some(Offline)
    else if s == "maintenance" then Some(Maintenance)
    else None
  }

  lemma ParseStatusName(s: Status)
    ensures ParseStatus(StatusName(s)) == Some(s)
  {
  }

  datatype SensorType = Temperature | Humidity | Pressure | Motion | Light | AirQuality | OtherType

  function SensorTypeName(t: SensorType): string {
    match t
    case Temperature => "temperature"
    case Humidity => "humidity"
    case Pressure => "pressure"
    case Motion => "motion"
    case Light => "light"
    case AirQuality => "air-quality"
    case OtherType => "other"
  }

  /** The inverse of `SensorTypeName` on the strings the sensor-type enum admits. */
  function ParseSensorType(s: string): (r: Option<SensorType>)
    ensures r.Some? ==> SensorTypeName(r.value) == s
    ensures r.None? ==> forall t :: SensorTypeName(t) != s
  {
    if s == "temperature" then Some(Temperature)
    else if s == "humidity" then Some(Humidity)
    else if s == "pressure" then Some(Pressure)
    else if s == "motion" then Some(Motion)
    else if s == "light" then Some(Light)
    else if s == "air-quality" then Some(AirQuality)
    else if s == "other" then Some(OtherType)
    else None
  }

  lemma ParseSensorTypeName(t: SensorType)
    ensures ParseSensorType(SensorTypeName(t)) == Some(t)
  {
  }

  datatype Camera = Camera(
    id: string, name: string, location: string, status: Status, lastUpdated: int,
    ipAddress: string, resolution: Option<string>, storageRetention: Option<int>)

  datatype Microscope = Microscope(
    id: string, name: string, location: string, status: Status, lastUpdated: int,
    model: string, magnification: int, digitalOutput: bool, calibrationDate: Option<string>)

  datatype Sensor = Sensor(
    id: string, name: string, location: string, status: Status, lastUpdated: int,
    sensorType: SensorType, measurementUnit: string,
    minValue: Option<int>, maxValue: Option<int>, alertThreshold: Option<int>, batteryLevel: Option<int>)

  datatype Kind = CameraKind | MicroscopeKind | SensorKind

  function KindName(k: Kind): string {
    match k
    case CameraKind => "camera"
    case MicroscopeKind => "microscope"
    case SensorKind => "sensor"
  }

  /** The tagged union of the three kinds; the tag is the `type` field. */
  datatype Device = CameraDevice(camera: Camera) | MicroscopeDevice(microscope: Microscope) | SensorDevice(sensor: Sensor)
  {
    function Id(): string {
      match this
      case CameraDevice(c) => c.id
      case MicroscopeDevice(m) => m.id
      case SensorDevice(s) => s.id
    }

    function Status(): Status {
      match this
      case CameraDevice(c) => c.status
      case MicroscopeDevice(m) => m.status
      case SensorDevice(s) => s.status
    }

    function LastUpdated(): int {
      match this
      case CameraDevice(c) => c.lastUpdated
      case MicroscopeDevice(m) => m.lastUpdated
      case SensorDevice(s) => s.lastUpdated
    }

    function Kind(): Kind {
      match this
      case CameraDevice(_) => CameraKind
      case MicroscopeDevice(_) => MicroscopeKind
      case SensorDevice(_) => SensorKind
    }
  }

  datatype ChipColor = Success | Error | Warning | Default

  /** `getStatusColor` / `getStatusChipColor`: the chip colour for a status string. */
  function StatusChipColor(status: string): (c: ChipColor)
    ensures c == Success <==> status == "online"
    ensures c == Error <==> status == "offline"
    ensures c == Warning <==> status == "maintenance"
    ensures c == Default <==> ParseStatus(status).None?
  {
    if status == "online" then Success
    else if status == "offline" then Error
    else if status == "maintenance" then Warning
    else Default
  }

  /** Every status a device can have gets its own colour, never the default. */
  lemma StatusColorsDistinct(a: Status, b: Status)
    ensures StatusChipColor(StatusName(a)) != Default
    ensures StatusChipColor(StatusName(a)) == StatusChipColor(StatusName(b)) ==> a == b
  {
  }
}
