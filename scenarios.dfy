/**
 * Concrete captures: the six-write attack sequence, and one source sending
 * just over and exactly at the denial-of-service threshold.
 */
module Scenarios {
  import opened Wrappers
  import opened Counters
  import opened Anomalies
  import opened Session
  import opened Properties
  import Report

  /** A TCP write-single-register request from `source`. */
  function WritePacket(source: Source, register: int, value: int, time: int): Packet {
    Packet(true, Some(source), time, Request(WriteSingleRegister, Some(register), Some(value)))
  }

  /** Temperature 999.9, pressure 5000, motor 0, valve 1, then two in-range writes. */
  function AttackCapture(source: Source): seq<Packet> {
    [WritePacket(source, 0, 9999, 1), WritePacket(source, 1, 5000, 2),
     WritePacket(source, 2, 0, 3), WritePacket(source, 3, 1, 4),
     WritePacket(source, 0, 250, 5), WritePacket(source, 1, 1000, 6)]
  }

  /** No source above the threshold means no denial-of-service anomaly. */
  lemma {:induction false} QuietSourcesNoDos(sources: seq<Source>, c: Counter<Source>)
    requires forall x :: c.Get(x) <= DosThreshold
    ensures DosOver(sources, c) == []
  {
    if |sources| > 0 {
      QuietSourcesNoDos(sources[..|sources| - 1], c);
    }
  }

  lemma {:induction false} CountFromAtMost(packets: seq<Packet>, source: Source)
    ensures CountFrom(packets, source) <= |packets|
  {
    if |packets| > 0 {
      CountFromAtMost(packets[..|packets| - 1], source);
    }
  }

  lemma WriteAnomaliesSnoc(packets: seq<Packet>, p: Packet)
    ensures WriteAnomalies(packets + [p]) == WriteAnomalies(packets) + ToSeq(PacketAnomaly(p))
  {
    assert (packets + [p])[..|packets|] == packets;
  }

  lemma {:induction false} CountWhereAll(packets: seq<Packet>, f: Packet -> bool)
    requires forall p :: p in packets ==> f(p)
    ensures CountWhere(packets, f) == |packets|
  {
    if |packets| > 0 {
      CountWhereAll(packets[..|packets| - 1], f);
    }
  }

  lemma {:induction false} CountWhereNone(packets: seq<Packet>, f: Packet -> bool)
    requires forall p :: p in packets ==> !f(p)
    ensures CountWhere(packets, f) == 0
  {
    if |packets| > 0 {
      CountWhereNone(packets[..|packets| - 1], f);
    }
  }

  /** Every packet of the attack capture is a TCP write request. */
  lemma AttackCounts(source: Source)
    ensures CountWhere(AttackCapture(source), IsWrite) == 6
    ensures CountWhere(AttackCapture(source), IsModbus) == 6
    ensures CountWhere(AttackCapture(source), IsRead) == 0
  {
    var c := AttackCapture(source);
    CountWhereAll(c, IsWrite);
    CountWhereAll(c, IsModbus);
    CountWhereNone(c, IsRead);
  }

  /** The first four attack writes are flagged in order; the last two are in range. */
  lemma AttackWriteAnomalies(source: Source)
    ensures WriteAnomalies(AttackCapture(source)) == [
              Anomaly(OutOfRangeWrite, Critical, WriteDetail(1, Temperature, 9999)),
              Anomaly(OutOfRangeWrite, Critical, WriteDetail(2, Pressure, 5000)),
              Anomaly(MotorShutdown, High, WriteDetail(3, MotorSpeed, 0)),
              Anomaly(UnauthorizedValveOperation, Critical, WriteDetail(4, SafetyValve, 1))]
  {
    var c := AttackCapture(source);
    var p1, p2, p3, p4, p5, p6 := c[0], c[1], c[2], c[3], c[4], c[5];
    var r1 := [p1];
    var r2 := r1 + [p2];
    var r3 := r2 + [p3];
    var r4 := r3 + [p4];
    var r5 := r4 + [p5];
    assert c == r5 + [p6];
    WriteAnomaliesSnoc([], p1);
    assert [] + [p1] == r1;
    WriteAnomaliesSnoc(r1, p2);
    WriteAnomaliesSnoc(r2, p3);
    WriteAnomaliesSnoc(r3, p4);
    WriteAnomaliesSnoc(r4, p5);
    WriteAnomaliesSnoc(r5, p6);
  }

  /** A new detector after `load_pcap` has read `packets`. */
  function Loaded(packets: seq<Packet>): State {
    Initial().(stats := ZeroStats.(totalPackets := |packets|))
  }

  /**
   * A capture in which no source exceeds the denial-of-service threshold,
   * loaded and analysed by a fresh detector: its per-packet anomalies, then
   * at most the excessive-writes one, and statistics that tally its packets.
   */
  lemma QuietCaptureReport(packets: seq<Packet>)
    requires forall x :: CountFrom(packets, x) <= DosThreshold
    ensures var r := Finalize(ObserveAll(Loaded(packets), packets));
      var writes := CountWhere(packets, IsWrite);
      && r.anomalies == WriteAnomalies(packets) + ToSeq(ExcessiveWritesCheck(writes))
      && r.stats == Stats(|packets|, CountWhere(packets, IsModbus), CountWhere(packets, IsRead), writes,
                          |WriteAnomalies(packets)|, if writes > WriteThreshold then writes else 0)
  {
    var start := Loaded(packets);
    LoadedConsistent(packets);
    ObserveAllTallies(start, packets);
    ObserveAllConsistent(start, packets);
    QuietCaptureAnomalies(packets);
    FinalizeStats(ObserveAll(start, packets));
  }

  lemma LoadedConsistent(packets: seq<Packet>)
    ensures Consistent(Loaded(packets))
    ensures Loaded(packets).anomalies == []
    ensures forall x :: Loaded(packets).sourceIps.Get(x) == 0
    ensures forall r :: Loaded(packets).writeOperations.Get(r) == 0
  {
  }

  lemma QuietCaptureAnomalies(packets: seq<Packet>)
    requires forall x :: CountFrom(packets, x) <= DosThreshold
    ensures var observed := ObserveAll(Loaded(packets), packets);
      Finalize(observed).anomalies
      == WriteAnomalies(packets) + ToSeq(ExcessiveWritesCheck(observed.writeOperations.Total()))
  {
    var start := Loaded(packets);
    var observed := ObserveAll(start, packets);
    LoadedConsistent(packets);
    ObserveAllTallies(start, packets);
    AnalyzeOrder(start, packets);
    QuietSourcesNoDos(observed.sourceIps.keys, observed.sourceIps);
    assert [] + WriteAnomalies(packets) + [] == WriteAnomalies(packets);
  }

  /**
   * The attack capture yields four immediate anomalies in packet order and
   * one EXCESSIVE_WRITES anomaly for its six writes.
   */
  lemma AttackSequenceReport(source: Source)
    ensures var packets := AttackCapture(source);
      var r := Finalize(ObserveAll(Loaded(packets), packets));
      && r.anomalies == [
           Anomaly(OutOfRangeWrite, Critical, WriteDetail(1, Temperature, 9999)),
           Anomaly(OutOfRangeWrite, Critical, WriteDetail(2, Pressure, 5000)),
           Anomaly(MotorShutdown, High, WriteDetail(3, MotorSpeed, 0)),
           Anomaly(UnauthorizedValveOperation, Critical, WriteDetail(4, SafetyValve, 1)),
           Anomaly(ExcessiveWrites, Medium, WriteVolumeDetail(6))]
      && r.stats == Stats(6, 6, 0, 6, 4, 6)
  {
    var packets := AttackCapture(source);
    forall x ensures CountFrom(packets, x) <= DosThreshold {
      CountFromAtMost(packets, x);
    }
    QuietCaptureReport(packets);
    AttackCounts(source);
    AttackWriteAnomalies(source);
  }

  /**
   * The report lists the attack's three CRITICAL anomalies first, then the
   * HIGH shutdown, then the MEDIUM excessive writes.
   */
  lemma AttackReportOrder()
    ensures var t := Anomaly(OutOfRangeWrite, Critical, WriteDetail(1, Temperature, 9999));
      var p := Anomaly(OutOfRangeWrite, Critical, WriteDetail(2, Pressure, 5000));
      var m := Anomaly(MotorShutdown, High, WriteDetail(3, MotorSpeed, 0));
      var v := Anomaly(UnauthorizedValveOperation, Critical, WriteDetail(4, SafetyValve, 1));
      var e := Anomaly(ExcessiveWrites, Medium, WriteVolumeDetail(6));
      Report.ReportOrder([t, p, m, v, e], Report.SeverityOf) == [t, p, v, m, e]
  {
  }

  lemma {:induction false} CountFromRepeated(p: Packet, source: Source, n: nat)
    ensures CountFrom(seq(n, _ => p), source) == if IsFrom(p, source) then n else 0
  {
    if n > 0 {
      assert seq(n, _ => p)[..n - 1] == seq(n - 1, _ => p);
      CountFromRepeated(p, source, n - 1);
    }
  }

  /** 51 packets from one source give exactly one POTENTIAL_DOS anomaly, carrying 51. */
  lemma FiftyOnePacketsOneEvent(p: Packet, source: Source)
    requires IsFrom(p, source)
    ensures var dos := DosAnomalies(ObserveAll(Initial(), seq(51, _ => p)).sourceIps);
      && CountSource(dos, source) == 1
      && forall a :: a in dos ==> a == DosAnomaly(source, 51)
  {
    var packets := seq(51, _ => p);
    var observed := ObserveAll(Initial(), packets);
    ObserveAllTallies(Initial(), packets);
    ObserveAllConsistent(Initial(), packets);
    forall x ensures observed.sourceIps.Get(x) == if x == source then 51 else 0 {
      CountFromRepeated(p, x, 51);
    }
    DosOncePerSource(observed.sourceIps, source);
  }

  /** 50 packets from one source stay at the threshold and give none. */
  lemma FiftyPacketsNoEvent(p: Packet)
    ensures DosAnomalies(ObserveAll(Initial(), seq(50, _ => p)).sourceIps) == []
  {
    var packets := seq(50, _ => p);
    var observed := ObserveAll(Initial(), packets);
    ObserveAllTallies(Initial(), packets);
    forall x ensures observed.sourceIps.Get(x) <= DosThreshold {
      CountFromRepeated(p, x, 50);
    }
    QuietSourcesNoDos(observed.sourceIps.keys, observed.sourceIps);
  }
}
