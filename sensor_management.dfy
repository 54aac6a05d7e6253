/**
 * The sensor page: its own sensor list behind a validated form, with create, edit and
 * delete, and the helpers that pick a battery colour, a label and a default unit.
 * `SensorPage.Valid` (every sensor passes the form's rules) holds for the seed list and
 * after every handler.
 */
module SensorManagement {
  import opened Wrappers
  import opened Seqs
  import opened Devices

  datatype SensorForm = SensorForm(
    name: string, location: string, sensorType: SensorType, measurementUnit: string,
    minValue: Option<int>, maxValue: Option<int>, alertThreshold: Option<int>, batteryLevel: Option<int>,
    status: Status)

  /** The form's schema: name and location of 2 characters or more, a unit, a battery level in 0..100 if given. */
  predicate FormAccepted(f: SensorForm) {
    && |f.name| >= 2 && |f.location| >= 2 && |f.measurementUnit| >= 1
    && (f.batteryLevel.Some? ==> 0 <= f.batteryLevel.value <= 100)
  }

  /** A sensor whose fields satisfy the form's rules. */
  predicate WellFormed(s: Sensor) {
    && |s.name| >= 2 && |s.location| >= 2 && |s.measurementUnit| >= 1
    && (s.batteryLevel.Some? ==> 0 <= s.batteryLevel.value <= 100)
  }

  predicate AllWellFormed(ss: seq<Sensor>) {
    forall s :: s in ss ==> WellFormed(s)
  }

  /** The values `openEditDialog` puts in the form: the sensor's own fields. */
  function FormOf(s: Sensor): SensorForm {
    SensorForm(s.name, s.location, s.sensorType, s.measurementUnit,
      s.minValue, s.maxValue, s.alertThreshold, s.batteryLevel, s.status)
  }

  /** `{...sensor, ...values, lastUpdated}`: the form's fields over the record's, id kept. */
  function Merge(s: Sensor, f: SensorForm, now: int): (r: Sensor)
    ensures r.id == s.id && r.lastUpdated == now && FormOf(r) == f
  {
    Sensor(s.id, f.name, f.location, f.status, now, f.sensorType, f.measurementUnit,
      f.minValue, f.maxValue, f.alertThreshold, f.batteryLevel)
  }

  /** The record `onCreateSubmit` builds from the form, a new id and the current time. */
  function FromForm(f: SensorForm, id: string, now: int): (r: Sensor)
    ensures r.id == id && r.lastUpdated == now && FormOf(r) == f
  {
    Sensor(id, f.name, f.location, f.status, now, f.sensorType, f.measurementUnit,
      f.minValue, f.maxValue, f.alertThreshold, f.batteryLevel)
  }

  /** The form accepts exactly the values that make a well-formed sensor. */
  lemma FormAcceptedIffWellFormed(f: SensorForm, s: Sensor)
    requires FormOf(s) == f
    ensures FormAccepted(f) <==> WellFormed(s)
  {
  }

  /** Opening the edit dialog and submitting it unchanged only refreshes `lastUpdated`. */
  lemma EditUnchangedRefreshesTime(s: Sensor, now: int)
    ensures Merge(s, FormOf(s), now) == s.(lastUpdated := now)
  {
  }

  function IdIs(id: string): Sensor -> bool {
    (s: Sensor) => s.id == id
  }

  function IdIsNot(id: string): Sensor -> bool {
    (s: Sensor) => s.id != id
  }

  function MergeWith(f: SensorForm, now: int): Sensor -> Sensor {
    (s: Sensor) => Merge(s, f, now)
  }

  /** The list after `onEditSubmit`: sensors with the id take the form's values and the new time. */
  function EditSensors(ss: seq<Sensor>, id: string, f: SensorForm, now: int): (r: seq<Sensor>)
    ensures |r| == |ss|
    ensures forall j :: 0 <= j < |ss| ==> r[j].id == ss[j].id
    ensures forall j :: 0 <= j < |ss| && ss[j].id == id ==> FormOf(r[j]) == f && r[j].lastUpdated == now
    ensures forall j :: 0 <= j < |ss| && ss[j].id != id ==> r[j] == ss[j]
  {
    MapWhere(ss, IdIs(id), MergeWith(f, now))
  }

  /** The list after `deleteSensor`: exactly the sensors with other ids, in order. */
  function DeleteSensor(ss: seq<Sensor>, id: string): (r: seq<Sensor>)
    ensures forall s :: s in r <==> s in ss && s.id != id
    ensures forall s :: multiset(r)[s] == if s.id == id then 0 else multiset(ss)[s]
  {
    FilterContents(ss, IdIsNot(id));
    Filter(ss, IdIsNot(id))
  }

  /** Deleting a sensor just created under a fresh id gives back the list before the create. */
  lemma DeleteUndoesCreate(ss: seq<Sensor>, f: SensorForm, id: string, now: int)
    requires forall s :: s in ss ==> s.id != id
    ensures DeleteSensor(ss + [FromForm(f, id, now)], id) == ss
  {
    FilterAppend(ss, [FromForm(f, id, now)], IdIsNot(id));
    FilterKeepsAll(ss, IdIsNot(id));
    assert Filter([FromForm(f, id, now)], IdIsNot(id)) == [];
  }

  /** An accepted edit keeps every sensor well formed. */
  lemma EditKeepsWellFormed(ss: seq<Sensor>, id: string, f: SensorForm, now: int)
    requires AllWellFormed(ss) && FormAccepted(f)
    ensures AllWellFormed(EditSensors(ss, id, f, now))
  {
    var r := EditSensors(ss, id, f, now);
    forall s | s in r ensures WellFormed(s) {
      var j :| 0 <= j < |r| && r[j] == s;
      assert ss[j] in ss;
      if ss[j].id == id {
        FormAcceptedIffWellFormed(f, s);
      }
    }
  }

  /** `getBatteryColor`: default when the level is absent or 0, then by thresholds 70 and 30. */
  function BatteryColor(level: Option<int>): (c: ChipColor)
    ensures c == Default <==> level.None? || level.value == 0
    ensures c == Success <==> level.Some? && level.value > 70
    ensures c == Warning <==> level.Some? && 30 < level.value <= 70
    ensures c == Error <==> level.Some? && level.value <= 30 && level.value != 0
  {
    if level.None? || level.value == 0 then Default
    else if level.value > 70 then Success
    else if level.value > 30 then Warning
    else Error
  }

  function BatteryRank(c: ChipColor): nat {
    match c
    case Error => 0
    case Warning => 1
    case Success => 2
    case Default => 0
  }

  /** A fuller battery never gets a worse colour. */
  lemma BatteryColorMonotone(a: int, b: int)
    requires 0 < a <= b
    ensures BatteryRank(BatteryColor(Some(a))) <= BatteryRank(BatteryColor(Some(b)))
  {
  }

  function Label(t: SensorType): string {
    match t
    case Temperature => "Temperature"
    case Humidity => "Humidity"
    case Pressure => "Pressure"
    case Motion => "Motion"
    case Light => "Light"
    case AirQuality => "Air Quality"
    case OtherType => "Other"
  }

  /** `getSensorTypeLabel`: the label of a known type, anything else returned as given. */
  function SensorTypeLabel(sensorType: string): (r: string)
    ensures ParseSensorType(sensorType).Some? ==> r == Label(ParseSensorType(sensorType).value)
    ensures ParseSensorType(sensorType).None? ==> r == sensorType
  {
    match ParseSensorType(sensorType)
    case Some(t) => Label(t)
    case None => sensorType
  }

  /** Different types get different labels. */
  lemma LabelsDistinct(a: SensorType, b: SensorType)
    ensures SensorTypeLabel(SensorTypeName(a)) == SensorTypeLabel(SensorTypeName(b)) ==> a == b
  {
    ParseSensorTypeName(a);
    ParseSensorTypeName(b);
  }

  /** `getDefaultUnit`: the unit the form proposes for a type; "" for "other" and unknown types. */
  function DefaultUnit(sensorType: string): (r: string)
    ensures r != "" <==> ParseSensorType(sensorType).Some? && ParseSensorType(sensorType).value != OtherType
  {
    if sensorType == "temperature" then "°C"
    else if sensorType == "humidity" then "%"
    else if sensorType == "pressure" then "hPa"
    else if sensorType == "motion" then "movement"
    else if sensorType == "light" then "lux"
    else if sensorType == "air-quality" then "ppm"
    else ""
  }

  /**
   * The unit field shows `DefaultUnit` only as its placeholder; a user who types that
   * placeholder in satisfies the form's unit rule, for every type but "other".
   */
  lemma DefaultUnitAccepted(f: SensorForm)
    requires f.sensorType != OtherType && f.measurementUnit == DefaultUnit(SensorTypeName(f.sensorType))
    ensures |f.measurementUnit| >= 1
  {
    ParseSensorTypeName(f.sensorType);
  }

  /** The three sensors the page starts with. */
  function SeedSensors(now: int): seq<Sensor> {
    [ Sensor("1", "Office Temperature Sensor", "Main Office", Online, now, Temperature, "°C",
        Some(-10), Some(50), Some(30), Some(85)),
      Sensor("2", "Warehouse Humidity Sensor", "Warehouse Zone B", Online, now, Humidity, "%",
        Some(0), Some(100), Some(70), Some(42)),
      Sensor("3", "Entry Motion Detector", "Front Entrance", Maintenance, now, Motion, "movement",
        None, None, None, Some(12)) ]
  }

  class SensorPage {
    var sensors: seq<Sensor>
    var selectedSensor: Option<Sensor>
    var editDialogOpen: bool
    var deleteDialogOpen: bool

    ghost predicate Valid()
      reads this
    {
      AllWellFormed(sensors)
    }

    constructor (now: int)
      ensures sensors == SeedSensors(now) && selectedSensor == None
      ensures !editDialogOpen && !deleteDialogOpen
      ensures Valid()
    {
      sensors := SeedSensors(now);
      selectedSensor := None;
      editDialogOpen, deleteDialogOpen := false, false;
    }

    /** `onCreateSubmit`, behind the form's validation; `newId` and `now` come from the clock. */
    method OnCreateSubmit(f: SensorForm, newId: string, now: int) returns (accepted: bool)
      requires Valid()
      modifies this
      ensures Valid()
      ensures accepted == FormAccepted(f)
      ensures sensors == if accepted then old(sensors) + [FromForm(f, newId, now)] else old(sensors)
      ensures selectedSensor == old(selectedSensor)
      ensures editDialogOpen == old(editDialogOpen) && deleteDialogOpen == old(deleteDialogOpen)
    {
      accepted := FormAccepted(f);
      if accepted {
        FormAcceptedIffWellFormed(f, FromForm(f, newId, now));
        sensors := sensors + [FromForm(f, newId, now)];
      }
    }

    method OpenEditDialog(s: Sensor) returns (form: SensorForm)
      modifies this
      ensures form == FormOf(s) && selectedSensor == Some(s) && editDialogOpen
      ensures sensors == old(sensors)
      ensures deleteDialogOpen == old(deleteDialogOpen)
    {
      selectedSensor := Some(s);
      form := FormOf(s);
      editDialogOpen := true;
    }

    /** `onEditSubmit`, behind the form's validation; a no-op without a selected sensor. */
    method OnEditSubmit(f: SensorForm, now: int) returns (accepted: bool)
      requires Valid()
      modifies this
      ensures Valid()
      ensures accepted == FormAccepted(f)
      ensures sensors == if accepted && old(selectedSensor).Some?
        then EditSensors(old(sensors), old(selectedSensor).value.id, f, now) else old(sensors)
      ensures if accepted && old(selectedSensor).Some?
        then selectedSensor == None && !editDialogOpen
        else selectedSensor == old(selectedSensor) && editDialogOpen == old(editDialogOpen)
      ensures deleteDialogOpen == old(deleteDialogOpen)
    {
      accepted := FormAccepted(f);
      if !accepted || selectedSensor.None? {
        return;
      }
      EditKeepsWellFormed(sensors, selectedSensor.value.id, f, now);
      sensors := EditSensors(sensors, selectedSensor.value.id, f, now);
      editDialogOpen := false;
      selectedSensor := None;
    }

    method OpenDeleteDialog(s: Sensor)
      modifies this
      ensures selectedSensor == Some(s) && deleteDialogOpen && sensors == old(sensors)
      ensures editDialogOpen == old(editDialogOpen)
    {
      selectedSensor := Some(s);
      deleteDialogOpen := true;
    }

    /** `deleteSensor`: a no-op without a selected sensor. */
    method DeleteSelected()
      requires Valid()
      modifies this
      ensures Valid()
      ensures sensors == if old(selectedSensor).Some? then DeleteSensor(old(sensors), old(selectedSensor).value.id) else old(sensors)
      ensures if old(selectedSensor).Some?
        then selectedSensor == None && !deleteDialogOpen
        else selectedSensor == old(selectedSensor) && deleteDialogOpen == old(deleteDialogOpen)
      ensures editDialogOpen == old(editDialogOpen)
    {
      if selectedSensor.None? {
        return;
      }
      sensors := DeleteSensor(sensors, selectedSensor.value.id);
      deleteDialogOpen := false;
      selectedSensor := None;
    }
  }
}
