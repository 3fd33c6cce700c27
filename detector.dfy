/**
 * `ModbusAnomalyDetector`: one pass over the decoded packets of a capture,
 * updating counters and appending anomalies in place. Each method is proved
 * to change the state exactly as the matching function of module Session.
 */
module Detector {
  import opened Wrappers
  import opened Counters
  import opened Anomalies
  import opened Session
  import Report

  class ModbusAnomalyDetector {
    var pcapFile: string
    var packets: seq<Packet>
    var anomalies: seq<Anomaly>
    var stats: Stats
    var writeOperations: Counter<RegisterKey>
    var sourceIps: Counter<Source>

    ghost predicate Valid()
      reads this
    {
      writeOperations.Valid() && sourceIps.Valid()
    }

    /** The part of the object that analysis reads and writes. */
    function Snapshot(): State
      reads this
    {
      State(stats, writeOperations, sourceIps, anomalies)
    }

    constructor (pcapFile: string)
      ensures Valid()
      ensures this.pcapFile == pcapFile && packets == []
      ensures Snapshot() == Initial()
    {
      this.pcapFile := pcapFile;
      packets := [];
      anomalies := [];
      stats := ZeroStats;
      writeOperations := Empty();
      sourceIps := Empty();
    }

    /** `load_pcap` once the capture has been read and decoded into `captured`. */
    method LoadPcap(captured: seq<Packet>)
      modifies this`packets, this`stats
      ensures packets == captured
      ensures stats == old(stats).(totalPackets := |captured|)
    {
      packets := captured;
      stats := stats.(totalPackets := |captured|);
    }

    /** `analyze_packet`. */
    method AnalyzePacket(pkt: Packet)
      requires Valid()
      modifies this`anomalies, this`stats, this`writeOperations, this`sourceIps
      ensures Valid()
      ensures Snapshot() == Observe(old(Snapshot()), pkt)
    {
      if !pkt.hasTcp {
        return;
      }
      if pkt.src.Some? {
        sourceIps := sourceIps.Increment(pkt.src.value);
      }
      match pkt.modbus
      case Request(funcCode, registerAddr, registerValue) =>
        stats := stats.(modbusPackets := stats.modbusPackets + 1);
        if funcCode == ReadHoldingRegisters {
          stats := stats.(readRequests := stats.readRequests + 1);
        } else if funcCode == WriteSingleRegister {
          stats := stats.(writeRequests := stats.writeRequests + 1);
          var register := RegisterOf(registerAddr);
          var value := ValueOf(registerValue);
          writeOperations := writeOperations.Increment(register);
          CheckWriteAnomaly(register, value, pkt);
        }
      case Response =>
        stats := stats.(modbusPackets := stats.modbusPackets + 1);
      case NoModbus =>
    }

    /** `check_write_anomaly`: append at most one anomaly, counting it. */
    method CheckWriteAnomaly(register: RegisterKey, value: int, pkt: Packet)
      modifies this`anomalies, this`stats
      ensures Snapshot() == RecordWrite(old(Snapshot()), register, value, pkt.time)
    {
      var anomaly := ClassifyWrite(register, value, pkt.time);
      if anomaly.Some? {
        anomalies := anomalies + [anomaly.value];
        stats := stats.(outOfRangeValues := stats.outOfRangeValues + 1);
      }
    }

    /** `detect_dos`: one anomaly per source over the threshold, in first-seen order. */
    method DetectDos()
      requires Valid()
      modifies this`anomalies
      ensures Snapshot() == DosRule(old(Snapshot()))
    {
      var sources := sourceIps.keys;
      var i := 0;
      while i < |sources|
        invariant 0 <= i <= |sources|
        invariant anomalies == old(anomalies) + DosOver(sources[..i], sourceIps)
      {
        var srcIp := sources[i];
        var count := sourceIps.counts[srcIp];
        if count > DosThreshold {
          anomalies := anomalies + [DosAnomaly(srcIp, count)];
        }
        assert sources[..i + 1][..i] == sources[..i];
        i := i + 1;
      }
      assert sources[..i] == sources;
    }

    /** `detect_excessive_writes`. */
    method DetectExcessiveWrites()
      modifies this`anomalies, this`stats
      ensures Snapshot() == ExcessiveWritesRule(old(Snapshot()))
    {
      var totalWrites := writeOperations.Total();
      if totalWrites > WriteThreshold {
        stats := stats.(suspiciousWrites := totalWrites);
        anomalies := anomalies + [Anomaly(ExcessiveWrites, Medium, WriteVolumeDetail(totalWrites))];
      }
    }

    /** `analyze`: every packet in capture order, then the two whole-capture rules. */
    method Analyze()
      requires Valid()
      modifies this`anomalies, this`stats, this`writeOperations, this`sourceIps
      ensures Valid()
      ensures Snapshot() == Finalize(ObserveAll(old(Snapshot()), packets))
    {
      var i := 0;
      while i < |packets|
        invariant 0 <= i <= |packets|
        invariant Valid()
        invariant Snapshot() == ObserveAll(old(Snapshot()), packets[..i])
      {
        AnalyzePacket(packets[i]);
        assert packets[..i + 1][..i] == packets[..i];
        i := i + 1;
      }
      assert packets[..i] == packets;
      DetectDos();
      DetectExcessiveWrites();
    }

    /** The severity grouping of `print_report`: critical, high and medium anomalies. */
    method SeverityGroups() returns (critical: seq<Anomaly>, high: seq<Anomaly>, medium: seq<Anomaly>)
      ensures critical == Report.Group(anomalies, Report.SeverityOf, Critical)
      ensures high == Report.Group(anomalies, Report.SeverityOf, High)
      ensures medium == Report.Group(anomalies, Report.SeverityOf, Medium)
      ensures multiset(critical + high + medium) == multiset(anomalies)
      ensures forall a :: a in critical <==> a in anomalies && a.severity == Critical
      ensures forall a :: a in high <==> a in anomalies && a.severity == High
      ensures forall a :: a in medium <==> a in anomalies && a.severity == Medium
    {
      critical := Report.Group(anomalies, Report.SeverityOf, Critical);
      high := Report.Group(anomalies, Report.SeverityOf, High);
      medium := Report.Group(anomalies, Report.SeverityOf, Medium);
      Report.ReportOrderIsPermutation(anomalies, Report.SeverityOf);
      Report.GroupMembers(anomalies, Report.SeverityOf, Critical);
      Report.GroupMembers(anomalies, Report.SeverityOf, High);
      Report.GroupMembers(anomalies, Report.SeverityOf, Medium);
    }
  }
}
