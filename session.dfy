/**
 * The detector's state as a value, and what `analyze_packet`,
 * `check_write_anomaly`, `detect_dos`, `detect_excessive_writes` and
 * `analyze` do to it. The class in detector.dfy is proved against these.
 */
module Session {
  import opened Wrappers
  import opened Counters
  import opened Anomalies

  /** The Modbus layer the decoder found, a request taking precedence. */
  datatype ModbusLayer =
    | Request(funcCode: int, registerAddr: Option<int>, registerValue: Option<int>)
    | Response
    | NoModbus

  /** A decoded capture packet: TCP or not, its source if it has one, its capture time. */
  datatype Packet = Packet(hasTcp: bool, src: Option<Source>, time: int, modbus: ModbusLayer)

  /** `self.stats`. */
  datatype Stats = Stats(
    totalPackets: nat,
    modbusPackets: nat,
    readRequests: nat,
    writeRequests: nat,
    outOfRangeValues: nat,
    suspiciousWrites: nat)

  const ZeroStats := Stats(0, 0, 0, 0, 0, 0)

  const ReadHoldingRegisters := 3
  const WriteSingleRegister := 6

  /** Everything `analyze` reads and writes. */
  datatype State = State(
    stats: Stats,
    writeOperations: Counter<RegisterKey>,
    sourceIps: Counter<Source>,
    anomalies: seq<Anomaly>)

  /** The state a freshly constructed detector starts from. */
  function Initial(): (s: State)
    ensures s.writeOperations.Valid() && s.sourceIps.Valid()
    ensures forall r :: s.writeOperations.Get(r) == 0
    ensures forall x :: s.sourceIps.Get(x) == 0
    ensures s.writeOperations.Total() == 0
    ensures s.anomalies == [] && s.stats == ZeroStats
  {
    State(ZeroStats, Empty(), Empty(), [])
  }

  /** A missing register address becomes the sentinel 'unknown'. */
  function RegisterOf(registerAddr: Option<int>): (r: RegisterKey)
    ensures r.Unknown? <==> registerAddr.None?
    ensures registerAddr.Some? ==> r.address == registerAddr.value
  {
    match registerAddr
    case Some(a) => Addr(a)
    case None => Unknown
  }

  /** A missing register value defaults to 0. */
  function ValueOf(registerValue: Option<int>): (v: int)
    ensures registerValue.Some? ==> v == registerValue.value
    ensures registerValue.None? ==> v == 0
  {
    match registerValue
    case Some(v) => v
    case None => 0
  }

  /** `check_write_anomaly`: record the write's anomaly, if any, and count it. */
  function RecordWrite(s: State, register: RegisterKey, value: int, time: int): State {
    match ClassifyWrite(register, value, time)
    case Some(a) =>
      s.(anomalies := s.anomalies + [a],
         stats := s.stats.(outOfRangeValues := s.stats.outOfRangeValues + 1))
    case None => s
  }

  /** `analyze_packet`: count the source, then the Modbus layer, of a TCP packet. */
  function Observe(s: State, p: Packet): State {
    if !p.hasTcp then s
    else ObserveModbus(ObserveSource(s, p.src), p)
  }

  /** `self.source_ips[pkt.src] += 1`: every TCP packet that has a source counts toward it. */
  function ObserveSource(s: State, src: Option<Source>): State {
    if src.Some? then s.(sourceIps := s.sourceIps.Increment(src.value)) else s
  }

  /** The `ModbusADURequest` / `ModbusADUResponse` branches; a response's value check is a no-op. */
  function ObserveModbus(s: State, p: Packet): State {
    match p.modbus
    case Request(funcCode, registerAddr, registerValue) =>
      var s1 := s.(stats := s.stats.(modbusPackets := s.stats.modbusPackets + 1));
      if funcCode == ReadHoldingRegisters then
        s1.(stats := s1.stats.(readRequests := s1.stats.readRequests + 1))
      else if funcCode == WriteSingleRegister then
        ObserveWrite(s1, RegisterOf(registerAddr), ValueOf(registerValue), p.time)
      else s1
    case Response =>
      s.(stats := s.stats.(modbusPackets := s.stats.modbusPackets + 1))
    case NoModbus => s
  }

  /** Function code 6: count the write, per register too, then `check_write_anomaly`. */
  function ObserveWrite(s: State, register: RegisterKey, value: int, time: int): State {
    var s1 := s.(stats := s.stats.(writeRequests := s.stats.writeRequests + 1),
                 writeOperations := s.writeOperations.Increment(register));
    RecordWrite(s1, register, value, time)
  }

  /** The state after observing `packets` in order, starting from `s`. */
  function ObserveAll(s: State, packets: seq<Packet>): State {
    if |packets| == 0 then s
    else Observe(ObserveAll(s, packets[..|packets| - 1]), packets[|packets| - 1])
  }

  function DosAnomaly(source: Source, count: nat): Anomaly {
    Anomaly(PotentialDos, High, TrafficDetail(source, count))
  }

  /** The anomalies `detect_dos` appends while visiting `sources` in order. */
  function DosOver(sources: seq<Source>, counts: Counter<Source>): seq<Anomaly> {
    if |sources| == 0 then []
    else
      var last := sources[|sources| - 1];
      DosOver(sources[..|sources| - 1], counts) +
      (if counts.Get(last) > DosThreshold then [DosAnomaly(last, counts.Get(last))] else [])
  }

  /** The anomalies `detect_dos` appends: one per source, in first-seen order. */
  function DosAnomalies(sourceIps: Counter<Source>): seq<Anomaly> {
    DosOver(sourceIps.keys, sourceIps)
  }

  /** `detect_dos`. */
  function DosRule(s: State): State {
    s.(anomalies := s.anomalies + DosAnomalies(s.sourceIps))
  }

  /** The anomaly `detect_excessive_writes` raises for `totalWrites` writes, if any. */
  function ExcessiveWritesCheck(totalWrites: nat): (r: Option<Anomaly>)
    ensures r.Some? <==> totalWrites > 5
    ensures r.Some? ==> r.value == Anomaly(ExcessiveWrites, Medium, WriteVolumeDetail(totalWrites))
  {
    if totalWrites > WriteThreshold then
      Some(Anomaly(ExcessiveWrites, Medium, WriteVolumeDetail(totalWrites)))
    else None
  }

  /** `detect_excessive_writes`. */
  function ExcessiveWritesRule(s: State): State {
    var totalWrites := s.writeOperations.Total();
    match ExcessiveWritesCheck(totalWrites)
    case Some(a) =>
      s.(stats := s.stats.(suspiciousWrites := totalWrites), anomalies := s.anomalies + [a])
    case None => s
  }

  /** What `analyze` does after the packet loop. */
  function Finalize(s: State): State {
    ExcessiveWritesRule(DosRule(s))
  }
}
