/**
 * Anomaly records, the fixed operating ranges and thresholds, and the
 * per-write classifier `check_write_anomaly` (its if/elif chain only;
 * appending the result is the detector's job).
 */
module Anomalies {
  import opened Wrappers

  /** A traffic source as the packet decoder reports it. */
  type Source = string

  /** The `register` argument: a decoded address, or the sentinel 'unknown'. */
  datatype RegisterKey = Addr(address: int) | Unknown

  datatype Kind =
    | OutOfRangeWrite
    | MotorShutdown
    | UnauthorizedValveOperation
    | PotentialDos
    | ExcessiveWrites

  datatype Severity = Critical | High | Medium

  /** The `register` field of a write anomaly. */
  datatype RegisterName = Temperature | Pressure | MotorSpeed | SafetyValve

  /** The kind-specific fields of an anomaly record. */
  datatype Detail =
    | WriteDetail(time: int, register: RegisterName, value: int)
    | TrafficDetail(source: Source, packetCount: nat)
    | WriteVolumeDetail(writeCount: nat)

  datatype Anomaly = Anomaly(kind: Kind, severity: Severity, detail: Detail)

  /** An inclusive operating range. */
  datatype Range = Range(min: int, max: int)

  /** NORMAL_RANGES; temperature is stored in tenths of a degree. */
  function NormalRange(name: RegisterName): Range {
    match name
    case Temperature => Range(200, 300)
    case Pressure => Range(900, 1100)
    case MotorSpeed => Range(1400, 1600)
    case SafetyValve => Range(0, 1)
  }

  /** More writes than this in one capture are suspicious. */
  const WriteThreshold: nat := 5
  /** More packets than this from one source look like a denial of service. */
  const DosThreshold: nat := 50

  predicate OutOfRange(value: int, range: Range) {
    value < range.min || value > range.max
  }

  function WriteAnomaly(kind: Kind, severity: Severity, time: int, register: RegisterName, value: int): Anomaly {
    Anomaly(kind, severity, WriteDetail(time, register, value))
  }

  /**
   * The anomaly, if any, raised by writing `value` to `register` at `time`.
   * The checks form one if/elif chain, so at most one anomaly comes out, and
   * on the motor register a shutdown (value 0) takes precedence over the
   * range check.
   */
  function ClassifyWrite(register: RegisterKey, value: int, time: int): (r: Option<Anomaly>)
    ensures r.Some? ==> register.Addr? && 0 <= register.address <= 3
    ensures r.Some? ==>
              r.value.detail.WriteDetail? && r.value.detail.time == time && r.value.detail.value == value
    ensures r.Some? ==> r.value.kind in {OutOfRangeWrite, MotorShutdown, UnauthorizedValveOperation}
    ensures (register.Addr? && 0 <= register.address <= 2 && value != 0 &&
             !OutOfRange(value, NormalRange(RegisterAt(register.address)))) ==> r.None?
  {
    if register == Addr(0) then
      var range := NormalRange(Temperature);
      if value < range.min || value > range.max then
        Some(WriteAnomaly(OutOfRangeWrite, Critical, time, Temperature, value))
      else None
    else if register == Addr(1) then
      var range := NormalRange(Pressure);
      if value < range.min || value > range.max then
        Some(WriteAnomaly(OutOfRangeWrite, Critical, time, Pressure, value))
      else None
    else if register == Addr(2) then
      if value == 0 then
        Some(WriteAnomaly(MotorShutdown, High, time, MotorSpeed, value))
      else if value < NormalRange(MotorSpeed).min || value > NormalRange(MotorSpeed).max then
        Some(WriteAnomaly(OutOfRangeWrite, Medium, time, MotorSpeed, value))
      else None
    else if register == Addr(3) then
      if value == 1 then
        Some(WriteAnomaly(UnauthorizedValveOperation, Critical, time, SafetyValve, value))
      else None
    else None
  }

  /** The register the PLC holds at `address` (0 to 3). */
  function RegisterAt(address: int): RegisterName
    requires 0 <= address <= 3
  {
    if address == 0 then Temperature
    else if address == 1 then Pressure
    else if address == 2 then MotorSpeed
    else SafetyValve
  }

  /** Temperature: flagged CRITICAL exactly outside [200, 300]; both bounds are in range. */
  lemma TemperatureRule(value: int, time: int)
    ensures ClassifyWrite(Addr(0), value, time).Some? <==> value < 200 || value > 300
    ensures ClassifyWrite(Addr(0), value, time).Some? ==>
              ClassifyWrite(Addr(0), value, time).value
              == Anomaly(OutOfRangeWrite, Critical, WriteDetail(time, Temperature, value))
  {
  }

  /** Pressure: flagged CRITICAL exactly outside [900, 1100]; both bounds are in range. */
  lemma PressureRule(value: int, time: int)
    ensures ClassifyWrite(Addr(1), value, time).Some? <==> value < 900 || value > 1100
    ensures ClassifyWrite(Addr(1), value, time).Some? ==>
              ClassifyWrite(Addr(1), value, time).value
              == Anomaly(OutOfRangeWrite, Critical, WriteDetail(time, Pressure, value))
  {
  }

  /**
   * Motor speed: 0 is a HIGH shutdown and nothing else; any other value
   * outside [1400, 1600] is a MEDIUM out-of-range write; values inside pass.
   */
  lemma MotorSpeedRule(value: int, time: int)
    ensures value == 0 ==>
              ClassifyWrite(Addr(2), value, time)
              == Some(Anomaly(MotorShutdown, High, WriteDetail(time, MotorSpeed, 0)))
    ensures value != 0 && (value < 1400 || value > 1600) ==>
              ClassifyWrite(Addr(2), value, time)
              == Some(Anomaly(OutOfRangeWrite, Medium, WriteDetail(time, MotorSpeed, value)))
    ensures 1400 <= value <= 1600 ==> ClassifyWrite(Addr(2), value, time).None?
  {
  }

  /** Safety valve: only the value 1 is flagged, as a CRITICAL unauthorized operation. */
  lemma SafetyValveRule(value: int, time: int)
    ensures ClassifyWrite(Addr(3), value, time).Some? <==> value == 1
    ensures value == 1 ==>
              ClassifyWrite(Addr(3), value, time)
              == Some(Anomaly(UnauthorizedValveOperation, Critical, WriteDetail(time, SafetyValve, 1)))
  {
  }

  /** Registers other than 0 to 3, and the sentinel 'unknown', are never flagged. */
  lemma OtherRegistersPass(register: RegisterKey, value: int, time: int)
    requires register.Unknown? || register.address < 0 || register.address > 3
    ensures ClassifyWrite(register, value, time).None?
  {
  }
}
