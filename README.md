# Modbus anomaly detector: a Dafny model

This project models the detection core of the ICS security monitor's
`scripts/detect_anomalies.py`: the class `ModbusAnomalyDetector`. The class
reads decoded Modbus/TCP packets and keeps these counters:

- total, Modbus, read and write packet counts;
- writes per register (`write_operations`);
- packets per source (`source_ips`).

It raises anomalies in three ways:

- A write to one of the four known registers is checked at once. The registers are:
  - 0, temperature in tenths of a degree, normal 200..300;
  - 1, pressure, normal 900..1100;
  - 2, motor speed, normal 1400..1600, where a write of 0 is a shutdown;
  - 3, safety valve, where a write of 1 is an unauthorized opening.
- At the end of the capture, a source with more than 50 packets gets one `POTENTIAL_DOS` anomaly.
- At the end of the capture, more than 5 writes in total give one `EXCESSIVE_WRITES` anomaly.

The report groups the anomalies by severity.

Files:

- `wrappers.dfy`: `Option`.
- `counters.dfy`: `defaultdict(int)` as a `Counter`. A missing key reads as 0, and the keys keep their first-insertion order. That order is the iteration order `detect_dos` relies on.
- `anomalies.dfy`: the anomaly record, `NORMAL_RANGES`, `WRITE_THRESHOLD`, `DOS_THRESHOLD`, and the if/elif classifier of `check_write_anomaly`.
- `session.dfy`: the detector's state as a value. It holds the functions that say what each method does to that state.
- `detector.dfy`: the class itself. Its fields are updated in place, and its loops carry invariants. Each method is proved to leave the state the matching `Session` function computes.
- `report.dfy`: the severity grouping of `print_report`.
- `properties.dfy`: lemmas about a single packet, a whole capture and the end-of-capture rules.
- `scenarios.dfy`: concrete captures. They cover the six-write attack and a source with 51 versus 50 packets.

## Behaviour worth knowing

- The safety valve's normal range is (0, 1), but only a write of exactly 1 is flagged. A write of 2 passes.
- A write without a register value is classified with the value 0, and a write without a register address counts under the key 'unknown'.
- Every rule raises CRITICAL, HIGH or MEDIUM. The report prints only those three groups.
- `out_of_range_values` counts every write anomaly, including the motor shutdown and the valve operation.
- `total_packets` is set only by `load_pcap`. `analyze` never changes it.
- One detector analyses one capture. Its counters are never combined with another detector's.

## Model

| member | source | states |
|---|---|---|
| Anomalies.ClassifyWrite | scripts/detect_anomalies.py:91-147 | Only addresses 0..3 are ever flagged. A flagged write carries the write's own time and value, and its kind is one of the three write kinds. An in-range non-zero write to registers 0..2 is never flagged. |
| Anomalies.TemperatureRule | scripts/detect_anomalies.py:91-102 | Register 0 is flagged exactly when the value is below 200 or above 300, as a CRITICAL out-of-range write. The bounds themselves pass. |
| Anomalies.PressureRule | scripts/detect_anomalies.py:104-115 | Register 1 is flagged exactly outside 900..1100, as a CRITICAL out-of-range write. |
| Anomalies.MotorSpeedRule | scripts/detect_anomalies.py:117-136 | On register 2, the value 0 is a HIGH shutdown and not a range violation. Any other value outside 1400..1600 is a MEDIUM out-of-range write. Values inside the range pass. |
| Anomalies.SafetyValveRule | scripts/detect_anomalies.py:138-147 | Register 3 is flagged exactly when the value is 1, as a CRITICAL unauthorized valve operation. |
| Anomalies.OtherRegistersPass | scripts/detect_anomalies.py:91-149 | A write to any other address, or to the 'unknown' register, raises nothing. |
| Counters.Counter.Increment | scripts/detect_anomalies.py:59 | `d[k] += 1` raises the count of `k` by one and leaves every other count alone. It keeps the counter well formed and appends a new key at the end. |
| Counters.Empty | scripts/detect_anomalies.py:38-39 | A fresh `defaultdict(int)` reads 0 everywhere and sums to 0. |
| Counters.TotalIncrement | scripts/detect_anomalies.py:76 | Every increment adds exactly one to `sum(d.values())`. |
| Session.Initial | scripts/detect_anomalies.py:28-39 | A new detector has no anomalies and all-zero statistics. Both counters are well formed and read 0 for every key, and the write counts sum to 0. |
| Session.RegisterOf | scripts/detect_anomalies.py:73 | A missing register address becomes 'unknown'. A present address is kept. |
| Session.ValueOf | scripts/detect_anomalies.py:74 | A missing register value becomes 0. A present value is kept. |
| Session.ExcessiveWritesCheck | scripts/detect_anomalies.py:174-183 | An EXCESSIVE_WRITES anomaly is raised exactly when the total exceeds 5. It is MEDIUM and carries the total. |
| Detector.ModbusAnomalyDetector.constructor | scripts/detect_anomalies.py:26-39 | The object starts in the initial state with no packets and well-formed counters. |
| Detector.ModbusAnomalyDetector.LoadPcap | scripts/detect_anomalies.py:41-46 | Stores the decoded capture and sets `total_packets` to its length. No other statistic changes. |
| Detector.ModbusAnomalyDetector.AnalyzePacket | scripts/detect_anomalies.py:52-84 | The fields change exactly as `Session.Observe` prescribes, and the counters stay well formed. |
| Detector.ModbusAnomalyDetector.CheckWriteAnomaly | scripts/detect_anomalies.py:86-151 | The classifier's anomaly, if any, is appended and `out_of_range_values` goes up by one. Otherwise nothing changes. |
| Detector.ModbusAnomalyDetector.DetectDos | scripts/detect_anomalies.py:159-170 | The loop over sources appends exactly `DosAnomalies(source_ips)`, in first-seen order. No other field changes. |
| Detector.ModbusAnomalyDetector.DetectExcessiveWrites | scripts/detect_anomalies.py:172-183 | Above 5 writes, sets `suspicious_writes` to the total and appends one anomaly. Otherwise nothing changes. |
| Detector.ModbusAnomalyDetector.Analyze | scripts/detect_anomalies.py:185-194 | The packet loop, then `detect_dos`, then `detect_excessive_writes`, leave the state `Finalize(ObserveAll(initial, packets))`. |
| Detector.ModbusAnomalyDetector.SeverityGroups | scripts/detect_anomalies.py:219-222 | Each group holds exactly the anomalies of its severity. The three groups together are a permutation of the anomaly list. |
| Properties.NonTcpIgnored | scripts/detect_anomalies.py:54-55 | A packet without TCP changes nothing. |
| Properties.ObserveStep | scripts/detect_anomalies.py:52-84 | Each statistic goes up by one exactly when the packet is of its kind. At most one anomaly is appended, and `out_of_range_values` counts it. |
| Properties.ObserveStepSources | scripts/detect_anomalies.py:57-59 | A TCP packet with a source adds exactly one to that source's count and nothing to any other. |
| Properties.ObserveStepWrites | scripts/detect_anomalies.py:70-76 | A write adds exactly one to its register's count and nothing to any other. |
| Properties.ObserveConsistent | scripts/detect_anomalies.py:72-76 | One packet preserves `sum(write_operations.values()) == write_requests` and keeps both counters well formed. |
| Properties.WriteStepConsistent | scripts/detect_anomalies.py:72-79 | The write branch alone preserves that invariant. |
| Properties.RecordWriteKeepsCounters | scripts/detect_anomalies.py:149-151 | Recording an anomaly touches neither counter nor `write_requests`. |
| Properties.ObserveAllConsistent | scripts/detect_anomalies.py:189-190 | The invariant holds after a whole capture. |
| Properties.ObserveAllTallies | scripts/detect_anomalies.py:189-190 | After a capture, every counter is the tally of its packets. The anomaly list has grown by the per-packet anomalies, in packet order. |
| Properties.DosOverShape | scripts/detect_anomalies.py:161-170 | Each DoS anomaly is HIGH and names a visited source with its count, which is over 50. |
| Properties.DosOverOnce | scripts/detect_anomalies.py:161-170 | Over distinct sources, each source over the threshold gets exactly one anomaly. Every other source gets none. |
| Properties.DosOncePerSource | scripts/detect_anomalies.py:159-170 | `detect_dos` gives a source exactly one anomaly when its count exceeds 50, and none otherwise. Each anomaly carries its source's count. |
| Properties.AnalyzeOrder | scripts/detect_anomalies.py:185-194 | `analyze` leaves, in order: the packet anomalies, then the DoS anomalies, then the excessive-writes anomaly. |
| Properties.FinalizeStats | scripts/detect_anomalies.py:172-183 | The end-of-capture rules change no counter but `suspicious_writes`. It becomes the total exactly when the total exceeds 5. |
| Properties.EmptyCapture | scripts/detect_anomalies.py:185-194 | An empty capture gives no anomaly and all-zero statistics. |
| Report.GroupMembers | scripts/detect_anomalies.py:220-222 | A severity group holds exactly the items of that severity. |
| Report.GroupAt | scripts/detect_anomalies.py:220-222 | Every position of a group holds an item of the group's severity. |
| Report.GroupConcat | scripts/detect_anomalies.py:220-222 | Grouping distributes over concatenation, so it never reorders items. |
| Report.GroupIdempotent | scripts/detect_anomalies.py:220-222 | Filtering a group by its own severity again leaves it unchanged. |
| Report.GroupDisjoint | scripts/detect_anomalies.py:220-222 | A group holds nothing of another severity. |
| Report.GroupsPartition | scripts/detect_anomalies.py:220-222 | The three groups together hold every item exactly as often as the list does. |
| Report.ReportOrderIsPermutation | scripts/detect_anomalies.py:219-239 | The printed report lists every anomaly exactly once. |
| Report.ReportOrderIsSorted | scripts/detect_anomalies.py:224-239 | The report lists CRITICAL, then HIGH, then MEDIUM. |
| Report.ReportOrderAt | scripts/detect_anomalies.py:224-239 | The severity at each report position follows from the group sizes. |
| Report.ReportOrderIsStable | scripts/detect_anomalies.py:219-239 | Within a severity, the report keeps the order in which anomalies were found. |
| Scenarios.QuietSourcesNoDos | scripts/detect_anomalies.py:161-162 | With no source above 50 packets, `detect_dos` appends nothing. |
| Scenarios.QuietCaptureReport | scripts/detect_anomalies.py:185-194 | A capture with no source above 50 packets is loaded and then analysed by a fresh detector. The anomalies are the write anomalies, then at most the excessive-writes anomaly. Every statistic tallies the packets, with `total_packets` equal to the capture length. |
| Scenarios.QuietCaptureAnomalies | scripts/detect_anomalies.py:159-170 | For such a capture, `detect_dos` adds nothing, so only the write anomalies and the excessive-writes check remain. |
| Scenarios.AttackWriteAnomalies | scripts/detect_anomalies.py:86-151 | Temperature 9999, pressure 5000, motor 0 and valve 1 are flagged, in that order. Temperature 250 and pressure 1000 pass. |
| Scenarios.AttackCounts | scripts/detect_anomalies.py:62-72 | All six attack packets count as Modbus writes. None counts as a read. |
| Scenarios.AttackSequenceReport | scripts/detect_anomalies.py:185-194 | The six-write attack gives exactly five anomalies: four at once and one EXCESSIVE_WRITES for 6 writes. The statistics after `load_pcap` and `analyze` are 6 packets, 6 Modbus packets, 0 reads, 6 writes, 4 out-of-range values and 6 suspicious writes. |
| Scenarios.AttackReportOrder | scripts/detect_anomalies.py:219-239 | The attack's report lists the three CRITICAL anomalies, then the HIGH one, then the MEDIUM one. |
| Scenarios.FiftyOnePacketsOneEvent | scripts/detect_anomalies.py:161-170 | 51 packets from one source give exactly one POTENTIAL_DOS anomaly, carrying 51. |
| Scenarios.FiftyPacketsNoEvent | scripts/detect_anomalies.py:161-162 | 50 packets from one source give none. |

## Left out

- Reading the capture file (`rdpcap`), the exit on a load error, and all console output. `LoadPcap` receives the already-decoded packets.
- Scapy's layer probing. A packet is modelled after decoding: whether it has TCP, its `src` if present, its capture time, and a Modbus request, a Modbus response or no Modbus layer. A request takes precedence when both are present, as in the `if/elif`.
- The source is whatever the decoder reports as `pkt.src` (an opaque string). On Ethernet frames this is a MAC address rather than an IP. The model does not distinguish the two.
- Timestamp formatting. The capture time is an opaque integer carried into write anomalies.
- The display-only fields of an anomaly:
  - the temperature's division by 10;
  - the `expected_range` and `description` strings;
  - the register's display name, which is kept as an enumeration.
- `check_response_values`: it does nothing in the source, so a response only counts as a Modbus packet.
- The 16-bit width of Modbus register values. Values are unbounded integers, and the classifier's comparisons do not depend on the width.
- `print_report` beyond its grouping and ordering: the header, the statistics lines and the per-anomaly text.
- The traffic simulators and the attack script of the repository. They are not part of this model.
- Report.Group: its own contract states only the length bound. What it keeps is stated in `Report.GroupMembers`, `Report.GroupAt` and `Report.GroupsPartition`.
