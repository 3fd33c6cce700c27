/**
 * What the detector promises about a whole capture: counters are exact
 * tallies of the packets, per-packet anomalies come out in packet order and
 * ahead of the whole-capture ones, and the denial-of-service rule reports
 * each noisy source exactly once.
 */
module Properties {
  import opened Wrappers
  import opened Counters
  import opened Anomalies
  import opened Session

  predicate IsModbus(p: Packet) { p.hasTcp && !p.modbus.NoModbus? }
  predicate IsRead(p: Packet) { p.hasTcp && p.modbus.Request? && p.modbus.funcCode == 3 }
  predicate IsWrite(p: Packet) { p.hasTcp && p.modbus.Request? && p.modbus.funcCode == 6 }
  predicate IsFrom(p: Packet, source: Source) { p.hasTcp && p.src == Some(source) }
  predicate IsWriteTo(p: Packet, register: RegisterKey) {
    IsWrite(p) && RegisterOf(p.modbus.registerAddr) == register
  }

  /** The anomaly a packet raises on its own, if any. */
  function PacketAnomaly(p: Packet): Option<Anomaly> {
    if IsWrite(p) then
      ClassifyWrite(RegisterOf(p.modbus.registerAddr), ValueOf(p.modbus.registerValue), p.time)
    else None
  }

  /** The per-packet anomalies of `packets`, in packet order. */
  function WriteAnomalies(packets: seq<Packet>): seq<Anomaly> {
    if |packets| == 0 then []
    else WriteAnomalies(packets[..|packets| - 1]) + ToSeq(PacketAnomaly(packets[|packets| - 1]))
  }

  function CountWhere(packets: seq<Packet>, f: Packet -> bool): nat {
    if |packets| == 0 then 0
    else CountWhere(packets[..|packets| - 1], f) + (if f(packets[|packets| - 1]) then 1 else 0)
  }

  function CountFrom(packets: seq<Packet>, source: Source): nat {
    if |packets| == 0 then 0
    else CountFrom(packets[..|packets| - 1], source) + (if IsFrom(packets[|packets| - 1], source) then 1 else 0)
  }

  function CountWritesTo(packets: seq<Packet>, register: RegisterKey): nat {
    if |packets| == 0 then 0
    else CountWritesTo(packets[..|packets| - 1], register)
         + (if IsWriteTo(packets[|packets| - 1], register) then 1 else 0)
  }

  /** The counters are well formed and the per-register writes add up to `write_requests`. */
  ghost predicate Consistent(s: State) {
    && s.writeOperations.Valid()
    && s.sourceIps.Valid()
    && s.writeOperations.Total() == s.stats.writeRequests
  }

  /** A packet without TCP changes nothing. */
  lemma NonTcpIgnored(s: State, p: Packet)
    requires !p.hasTcp
    ensures Observe(s, p) == s
  {
  }

  /**
   * One packet's effect: each counter moves by one exactly when the packet
   * is of its kind, a TCP packet with a source adds one to that source and
   * no other, and at most one anomaly is appended, counted in
   * `out_of_range_values`.
   */
  lemma ObserveStep(s: State, p: Packet)
    ensures var t := Observe(s, p);
      && t.stats.totalPackets == s.stats.totalPackets
      && t.stats.modbusPackets == s.stats.modbusPackets + (if IsModbus(p) then 1 else 0)
      && t.stats.readRequests == s.stats.readRequests + (if IsRead(p) then 1 else 0)
      && t.stats.writeRequests == s.stats.writeRequests + (if IsWrite(p) then 1 else 0)
      && t.stats.suspiciousWrites == s.stats.suspiciousWrites
      && t.anomalies == s.anomalies + ToSeq(PacketAnomaly(p))
      && t.stats.outOfRangeValues == s.stats.outOfRangeValues + |ToSeq(PacketAnomaly(p))|
  {
  }

  /** A TCP packet with a source adds one to that source's count and no other. */
  lemma ObserveStepSources(s: State, p: Packet)
    ensures forall x :: Observe(s, p).sourceIps.Get(x) == s.sourceIps.Get(x) + (if IsFrom(p, x) then 1 else 0)
  {
  }

  /** A write adds one to its register's count and no other. */
  lemma ObserveStepWrites(s: State, p: Packet)
    ensures forall r :: Observe(s, p).writeOperations.Get(r)
                        == s.writeOperations.Get(r) + (if IsWriteTo(p, r) then 1 else 0)
  {
  }

  /** `sum(write_operations.values()) == write_requests` survives every packet. */
  lemma ObserveConsistent(s: State, p: Packet)
    requires Consistent(s)
    ensures Consistent(Observe(s, p))
  {
    if p.hasTcp {
      var s1 := ObserveSource(s, p.src);
      if p.src.Some? {
        SourceStepConsistent(s, p.src.value);
      }
      ModbusStepConsistent(s1, p);
    }
  }

  lemma SourceStepConsistent(s: State, source: Source)
    requires Consistent(s)
    ensures Consistent(s.(sourceIps := s.sourceIps.Increment(source)))
  {
  }

  lemma ModbusStepConsistent(s: State, p: Packet)
    requires Consistent(s)
    ensures Consistent(ObserveModbus(s, p))
  {
    var t := ObserveModbus(s, p);
    if p.modbus.Request? && p.modbus.funcCode == WriteSingleRegister {
      var s1 := s.(stats := s.stats.(modbusPackets := s.stats.modbusPackets + 1));
      SameCountersConsistent(s, s1);
      WriteStepConsistent(s1, RegisterOf(p.modbus.registerAddr), ValueOf(p.modbus.registerValue), p.time);
    } else {
      SameCountersConsistent(s, t);
    }
  }

  lemma WriteStepConsistent(s: State, register: RegisterKey, value: int, time: int)
    requires Consistent(s)
    ensures Consistent(ObserveWrite(s, register, value, time))
  {
    TotalIncrement(s.writeOperations, register);
    var s1 := s.(stats := s.stats.(writeRequests := s.stats.writeRequests + 1),
                 writeOperations := s.writeOperations.Increment(register));
    RecordWriteKeepsCounters(s1, register, value, time);
    SameCountersConsistent(s1, ObserveWrite(s, register, value, time));
  }

  lemma SameCountersConsistent(s: State, t: State)
    requires Consistent(s)
    requires t.writeOperations == s.writeOperations && t.sourceIps == s.sourceIps
    requires t.stats.writeRequests == s.stats.writeRequests
    ensures Consistent(t)
  {
  }

  /** Recording a write's anomaly touches neither counter map nor `write_requests`. */
  lemma RecordWriteKeepsCounters(s: State, register: RegisterKey, value: int, time: int)
    ensures RecordWrite(s, register, value, time).writeOperations == s.writeOperations
    ensures RecordWrite(s, register, value, time).sourceIps == s.sourceIps
    ensures RecordWrite(s, register, value, time).stats.writeRequests == s.stats.writeRequests
  {
  }

  lemma {:induction false} ObserveAllConsistent(s: State, packets: seq<Packet>)
    requires Consistent(s)
    ensures Consistent(ObserveAll(s, packets))
  {
    if |packets| > 0 {
      ObserveAllConsistent(s, packets[..|packets| - 1]);
      ObserveConsistent(ObserveAll(s, packets[..|packets| - 1]), packets[|packets| - 1]);
    }
  }

  /**
   * After a capture every counter is the tally of its packets, and the
   * anomaly list has grown by the per-packet anomalies in packet order.
   */
  lemma {:induction false} ObserveAllTallies(s: State, packets: seq<Packet>)
    ensures var t := ObserveAll(s, packets);
      && t.stats.totalPackets == s.stats.totalPackets
      && t.stats.modbusPackets == s.stats.modbusPackets + CountWhere(packets, IsModbus)
      && t.stats.readRequests == s.stats.readRequests + CountWhere(packets, IsRead)
      && t.stats.writeRequests == s.stats.writeRequests + CountWhere(packets, IsWrite)
      && t.stats.suspiciousWrites == s.stats.suspiciousWrites
      && t.anomalies == s.anomalies + WriteAnomalies(packets)
      && t.stats.outOfRangeValues == s.stats.outOfRangeValues + |WriteAnomalies(packets)|
    ensures forall x :: ObserveAll(s, packets).sourceIps.Get(x) == s.sourceIps.Get(x) + CountFrom(packets, x)
    ensures forall r :: ObserveAll(s, packets).writeOperations.Get(r)
                        == s.writeOperations.Get(r) + CountWritesTo(packets, r)
  {
    if |packets| > 0 {
      var init := packets[..|packets| - 1];
      var p := packets[|packets| - 1];
      ObserveAllTallies(s, init);
      ObserveStep(ObserveAll(s, init), p);
      ObserveStepSources(ObserveAll(s, init), p);
      ObserveStepWrites(ObserveAll(s, init), p);
    }
  }

  /** The anomalies `detect_dos` emits name a source over the threshold with its count. */
  lemma {:induction false} DosOverShape(sources: seq<Source>, c: Counter<Source>)
    ensures forall a :: a in DosOver(sources, c) ==>
              && a.kind == PotentialDos && a.severity == High && a.detail.TrafficDetail?
              && a.detail.source in sources
              && a.detail.packetCount == c.Get(a.detail.source) > DosThreshold
  {
    if |sources| > 0 {
      DosOverShape(sources[..|sources| - 1], c);
    }
  }

  /** How many anomalies of `anomalies` are about traffic from `source`. */
  function CountSource(anomalies: seq<Anomaly>, source: Source): nat {
    if |anomalies| == 0 then 0
    else
      var last := anomalies[|anomalies| - 1];
      CountSource(anomalies[..|anomalies| - 1], source)
      + (if last.detail.TrafficDetail? && last.detail.source == source then 1 else 0)
  }

  lemma {:induction false} CountSourceConcat(a: seq<Anomaly>, b: seq<Anomaly>, source: Source)
    ensures CountSource(a + b, source) == CountSource(a, source) + CountSource(b, source)
  {
    if |b| == 0 {
      assert a + b == a;
    } else {
      assert (a + b)[..|a + b| - 1] == a + b[..|b| - 1];
      CountSourceConcat(a, b[..|b| - 1], source);
    }
  }

  lemma {:induction false} DosOverOnce(sources: seq<Source>, c: Counter<Source>, source: Source)
    requires Distinct(sources)
    ensures CountSource(DosOver(sources, c), source)
            == if source in sources && c.Get(source) > DosThreshold then 1 else 0
  {
    if |sources| > 0 {
      var init := sources[..|sources| - 1];
      var last := sources[|sources| - 1];
      assert Distinct(init);
      DosOverOnce(init, c, source);
      var tail := if c.Get(last) > DosThreshold then [DosAnomaly(last, c.Get(last))] else [];
      CountSourceConcat(DosOver(init, c), tail, source);
      assert CountSource(tail, source) == if last == source && c.Get(last) > DosThreshold then 1 else 0 by {
        if |tail| > 0 { assert tail[..0] == []; }
      }
      if last == source {
        assert source !in init by {
          forall i | 0 <= i < |init| ensures init[i] != source {
            assert sources[i] != sources[|sources| - 1];
          }
        }
      }
    }
  }

  /**
   * `detect_dos` emits exactly one POTENTIAL_DOS anomaly for a source with
   * more than 50 packets (51 gives one, not 51) and none for any other.
   */
  lemma DosOncePerSource(sourceIps: Counter<Source>, source: Source)
    requires sourceIps.Valid()
    ensures CountSource(DosAnomalies(sourceIps), source) == if sourceIps.Get(source) > 50 then 1 else 0
    ensures forall a :: a in DosAnomalies(sourceIps) ==>
              a.detail.TrafficDetail? && a == DosAnomaly(a.detail.source, sourceIps.Get(a.detail.source))
              && sourceIps.Get(a.detail.source) > 50
  {
    DosOverOnce(sourceIps.keys, sourceIps, source);
    DosOverShape(sourceIps.keys, sourceIps);
  }

  /**
   * `analyze` leaves the anomalies of the packets in packet order, then the
   * denial-of-service anomalies, then the excessive-writes anomaly.
   */
  lemma AnalyzeOrder(s: State, packets: seq<Packet>)
    ensures var observed := ObserveAll(s, packets);
      Finalize(observed).anomalies
      == s.anomalies + WriteAnomalies(packets) + DosAnomalies(observed.sourceIps)
         + ToSeq(ExcessiveWritesCheck(observed.writeOperations.Total()))
  {
    ObserveAllTallies(s, packets);
  }

  /**
   * The finalisation rules touch no counter but `suspicious_writes`, which
   * becomes the total write count exactly when that exceeds 5.
   */
  lemma FinalizeStats(s: State)
    ensures Finalize(s).writeOperations == s.writeOperations
    ensures Finalize(s).sourceIps == s.sourceIps
    ensures Finalize(s).stats == if s.writeOperations.Total() > 5
                                 then s.stats.(suspiciousWrites := s.writeOperations.Total())
                                 else s.stats
  {
  }

  /** An empty capture yields no anomaly and all-zero statistics. */
  lemma EmptyCapture()
    ensures Finalize(ObserveAll(Initial(), [])).anomalies == []
    ensures Finalize(ObserveAll(Initial(), [])).stats == ZeroStats
  {
  }
}
