# Verified model of SNMPathy

SNMPathy is a single-process network monitor. This Dafny project models its state machines and exact
computations and proves what they promise over whole runs. Tables are maps and sequences, rows are datatypes,
and every object that changes in place is a class whose `Valid()` says what holds in every reachable state.
Classes carry ghost fields with the full history (probe results, samples ever inserted, evaluations, true counter
values, ticks), and `Valid()` ties the real tables to that history.

Check the whole project with `dafny verify dfyconfig.toml`.

## Components

- **Checks** (`CheckHistory`, `CheckRunner`): `record_result` turns probe results into heartbeats, a fail counter, an
  up/down state and an outage table. In every reachable state the outage rows of a check are exactly the maximal
  failing runs of at least `retries + 1` probes, dated back to their first failure and ended by the next success.
- **SLA arithmetic** (`Intervals`, `Maintenance`, `Availability`): interval lists denote sets of clock ticks. `merge` is a
  canonical form, `subtract` is set difference, totals are cardinalities. End to end, `downtime_seconds` is the number of
  counted ticks that lie in a long enough failing run of the *probe history* and in no maintenance window.
- **Syslog framing** (`SyslogFraming`, `SyslogServer`): the stream splitter (section 3.4 of RFC 6587) does not depend on how
  the bytes arrive; framed messages are recovered in order through any sequence of TCP reads; the bounded queue loses
  nothing without counting it.
- **Syslog messages** (`StructuredData`, `SyslogMessages`): the index-based structured-data parser inverts the printer of
  section 6.3 of RFC 5424, and a complete RFC 5424 message parses back to what was printed, whatever mark, white space and stray bytes surround it.
- **Alerts** (`AlertLifecycle`, `AlertTable`, `AlertEngine`): one evaluation of all rules does to every fingerprint exactly
  what its own small machine (`AlertLifecycle.Next`) says. At most one active alert per fingerprint, events alternate, and
  an alert fires only after every evaluation since the one that inserted its row sustained it. A ghost log holds the table
  before each evaluation, its input and its events; the log is a run from the empty table to the present one.
- **Samples** (`SampleHistory`, `Storage`, `SeriesQueries`, `Volume`, `Percentile`): rollup rows stay equal to the aggregates
  of the full sample history even after raw samples are deleted. Whole buckets of a chart series agree with that history;
  a traffic volume is the integral of rates that are averages of the full history wherever a rollup tier answers, and of
  raw readings behind the last rollup row.
- **Counters** (`CounterRates`): conservation of traffic across wraps, cached and missing readings.
- **Reports** (`Calendar`, `Scheduling`, `ReportDelivery`): the latest occurrence of a schedule, and the delivery loop that
  attempts no occurrence twice, and each one that a tick sees exactly once unless an earlier delivery runs into it.

`Options`, `Aggregates`, `Arithmetic` and `Decimal` hold shared helpers.

Clock times are integers where sets of ticks are counted and integer columns are modelled, and exact reals for counter
rates and metric values.

## Findings

- Framed messages come out exactly and in order for every cut into reads of at most 65536 bytes iff every one fits: a
  counted one, with its count, in `MAX_TCP_FRAME + 1` bytes; a delimited one with its carriage returns in `MAX_TCP_FRAME`
  bytes, or without any in one more (`SyslogServer.DeliveredForEveryCutIffFits`). `SyslogServer.LongLineDependsOnCut` is a
  concrete line beyond the limit.
- The architecture document says of maintenance windows that a firing alert is neither resolved nor notified. The code makes
  one exception: disabling the rule resolves its alerts, and notifies, even in maintenance (`AlertEngine.MaintenanceHoldsIffEnabled`, and the concrete
  evaluation `AlertEngine.DisabledInMaintenance`).
- `counter_delta` recovers the true increment exactly when it is below the counter range and either no wrap happened or the
  counter moved by less than half its range (`CounterRates.DeltaIsIncrement`); `CounterRates.IncrementLost` has two readings outside it.
- The restart test on sysUpTime allows for the 497-day wrap only when polls are at most 13.8 hours apart
  (`CounterRates.WrapIsNotRestart`); `CounterRates.WrapTakenForRestart` is a pair of polls 16.7 hours apart.
- A report occurrence that a tick sees before the next one comes is skipped iff some delivery made before the first such tick,
  by hand or for an earlier occurrence, finishes at or after it (`ReportDelivery.DeliveredIffFree`,
  `ReportDelivery.ExactlyOnce`). `ReportDelivery.HandSentSkips` is a report sent by hand half a minute after the hour, and
  `ReportDelivery.SkippedOccurrence` a slow delivery that swallows the next day's. An occurrence that no tick sees before the
  next one is not delivered either.

## Model

| member | source | states |
|---|---|---|
| Intervals.PointsMeaning | snmpathy/reports.py:13-23 | a tick belongs to a list of half-open intervals iff one of them contains it |
| Intervals.SortedNonEmpty | snmpathy/reports.py:18 | sorting drops exactly the empty intervals and changes no covered tick |
| Intervals.Merge | snmpathy/reports.py:16-23 | the result is non-empty intervals with strict gaps covering exactly the input's ticks |
| Intervals.CanonicalUnique | snmpathy/reports.py:16-23 | two gap-separated lists covering the same ticks are the same list |
| Intervals.MergeIsCanonicalForm | snmpathy/reports.py:16-23 | two lists cover the same instants iff their merges are equal |
| Intervals.MergeIdempotentAndOrderFree | snmpathy/reports.py:16-23 | merging again changes nothing; order and repetition of the input do not matter |
| Intervals.Clip | snmpathy/reports.py:26-27 | clipping keeps exactly the ticks inside the window, also for unsorted or overlapping input |
| Intervals.TotalIsMeasure | snmpathy/reports.py:30-31 | on a gap-separated list the summed lengths are the number of ticks covered |
| Intervals.CutOne | snmpathy/reports.py:39-49 | the inner loop with its moving cursor emits exactly the uncut ticks of one interval, gap-separated from what was emitted before |
| Intervals.Subtract | snmpathy/reports.py:34-50 | gap-separated, denotes points(a) minus points(b), and its total is the number of ticks of a less those shared with b |
| Availability.WindowRowsMeaning | snmpathy/reports.py:53-58 | inside the window the selected maintenance rows cover a tick iff an applicable window is open at it |
| Availability.MaintenanceWindows | snmpathy/reports.py:53-59 | gap-separated and covers exactly the window's ticks in applicable maintenance |
| Availability.OutageRowsMeaning | snmpathy/reports.py:62-70 | inside the window the selected outages cover a tick iff some outage, open ones up to now, contains it |
| Availability.OutageTableMeansDown | snmpathy/reports.py:62-70 | the outage rows cover a tick iff the probe history has a failing run of at least retries + 1 probes around it |
| Availability.MonitoringStart | snmpathy/reports.py:81-86 | the earliest of first heartbeat and first outage is the first probe; none iff nothing was probed |
| Availability.Availability | snmpathy/reports.py:73-109 | downtime, monitored and maintenance seconds are tick counts read off the probe history and the windows; uptime lies in 0..100 and is absent iff nothing counts |
| Availability.CountedMeaning | snmpathy/reports.py:79-88 | a tick counts iff it lies in the window, not before the first probe and before now |
| Availability.DownMeaning | snmpathy/reports.py:90-95 | a tick is down iff it counts, no applicable window is open and it lies in an unbroken failing run of at least retries + 1 probes |
| Availability.WindowCounts | snmpathy/reports.py:53-59 | a window for everything, for the device or for the check turns its counted ticks into maintenance |
| Availability.OtherWindowIgnored | snmpathy/reports.py:53-59 | a window for another device or check changes no figure |
| Availability.WindowsAdd | snmpathy/reports.py:73-109 | all three figures over adjacent windows add up, also before the first probe and past now |
| Availability.DailyBarsAddUp | snmpathy/reports.py:131-147 | the downtime of contiguous bars adds up to that of the whole span |
| CheckHistory.OpenOutage | snmpathy/checks/runner.py:99-109 | an open outage exists iff more than retries probes failed since the last success, and it starts at the first of them |
| CheckHistory.OutagesAfterSuccess | snmpathy/checks/runner.py:86-95 | one more success closes the open outage at its time and changes no other |
| CheckHistory.OutagesAfterFailure | snmpathy/checks/runner.py:96-109 | one more failure adds at most one outage, backdated, and only when the run reaches retries + 1 |
| CheckRunner.LastOkIsLastSuccess | snmpathy/checks/runner.py:100-104 | the MAX subquery over heartbeats is the last success, or 0 |
| CheckRunner.FirstFailIsRunStart | snmpathy/checks/runner.py:100-104 | the backdating query finds the first probe of the trailing failing run |
| CheckRunner.OpenRow | snmpathy/checks/runner.py:90-92 | returns an open outage row of the check, and none only if there is none |
| CheckRunner.OpenRowIsTrailing | snmpathy/checks/runner.py:90-94 | the row closed by a success is the outage of the trailing run |
| CheckRunner.CloseRow | snmpathy/checks/runner.py:86-95 | closing that row gives exactly the outages of the longer history |
| CheckRunner.AppendRow | snmpathy/checks/runner.py:99-109 | the inserted row gives exactly the outages of the longer history, once each and in order |
| CheckRunner.Database.RecordResult | snmpathy/checks/runner.py:63-120 | from any reachable state: counter, state, heartbeats, outages, events and transition after one probe; tables of all checks again equal what the probe history means |
| CheckRunner.Database.AddCheck | snmpathy/db.py:125-146 | at any time a check with a new id starts unknown, with no outage, and all other tables stay |
| CheckRunner.DownIffOneOpenOutage | snmpathy/checks/runner.py:86-109 | in every reachable state: down iff fail_count exceeds retries iff exactly one outage is open |
| CheckRunner.SinceMeaning | snmpathy/checks/runner.py:86-109 | down since the open outage began; up since the success that ended the last outage, or the first success; unknown before either |
| CheckRunner.OutageHoldsOnlyFailures | snmpathy/checks/runner.py:86-109 | no successful heartbeat lies inside an outage, and a closed outage ends at one |
| SyslogFraming.StreamBuffer.DropStrays | snmpathy/syslog/parser.py:301-303 | deletes exactly the stray bytes at the front |
| SyslogFraming.StreamBuffer.TakeFrame | snmpathy/syslog/parser.py:306-324 | one round removes exactly the first complete counted or delimited frame, or leaves the buffer alone |
| SyslogFraming.StreamBuffer.SplitOctetCounted | snmpathy/syslog/parser.py:293-325 | frames and leftover are those of the splitting function on the old buffer |
| SyslogFraming.CompleteFrameStable | snmpathy/syslog/parser.py:306-324 | bytes that arrive later never change a frame that is already complete, nor where it ends |
| SyslogFraming.SplitInPieces | snmpathy/syslog/parser.py:293-325 | splitting a, appending b to the leftover and splitting again equals splitting a + b, for all byte strings |
| SyslogFraming.CutCounted | snmpathy/syslog/parser.py:306-315 | an octet-counted message is cut off exactly |
| SyslogFraming.CutDelimited | snmpathy/syslog/parser.py:306-324 | a delimited message is cut off exactly, without its trailing carriage returns, also if it starts with digits that are not a count |
| SyslogFraming.FramingRoundTrip | snmpathy/syslog/parser.py:299-325 | any mix of counted and delimited messages is recovered in order with nothing left over |
| SyslogServer.Server.Enqueue | snmpathy/syslog/server.py:76-83 | puts the message with its source behind the queue if there is room or no bound, else drops and counts it |
| SyslogServer.SourceMeaning | snmpathy/syslog/server.py:78-79 | an IPv4 peer of an IPv6 socket is known by its IPv4 address |
| SyslogServer.Server.Take | snmpathy/syslog/server.py:158-173 | the writer takes from the front, in order, and the counters still account for every message |
| SyslogServer.Server.HandleRead | snmpathy/syslog/server.py:94-100 | one read enqueues the frames it completes, in order, and an overlong rest as a message of its own |
| SyslogServer.Server.HandleTcp | snmpathy/syslog/server.py:85-102 | the delivered messages of the reads are behind the old queue in order, all of them if there is room, else as many as fit; each is counted once |
| SyslogServer.DeliveredIsWhole | snmpathy/syslog/server.py:85-102 | while no leftover exceeds MAX_TCP_FRAME, what is delivered is a function of the whole stream only |
| SyslogServer.CutIndependent | snmpathy/syslog/server.py:85-102 | two cuts of one stream deliver the same messages as long as no leftover exceeds MAX_TCP_FRAME |
| SyslogServer.RunFits | snmpathy/syslog/server.py:90-100 | reads of fitting messages followed by waiting bytes enqueue the messages in order and keep the rest, from any buffer reached on the way |
| SyslogServer.FramedMessagesDelivered | snmpathy/syslog/server.py:85-102 | framed messages that fit arrive exactly and in order for every cut, with any padding and without an assumption on leftovers |
| SyslogServer.UnterminatedLine | snmpathy/syslog/server.py:101-102 | a line without its delimiter is the last message at the end of the stream, unless it is only white space |
| SyslogServer.BreakingCut | snmpathy/syslog/server.py:90-102 | a message that does not fit is broken by reads of at most 65536 bytes |
| SyslogServer.DeliveredForEveryCutIffFits | snmpathy/syslog/server.py:85-102 | framed messages come out exactly for every cut into reads of at most 65536 bytes iff every one fits the exact limit |
| SyslogServer.LineWholeIffShort | snmpathy/syslog/server.py:85-102 | a newline-terminated line comes out as one message for every cut into reads of at most 65536 bytes iff it has at most MAX_TCP_FRAME + 1 bytes |
| SyslogServer.LongLineDependsOnCut | snmpathy/syslog/server.py:97-100 | a concrete stream beyond the bound whose two cuts into possible reads deliver different messages |
| StructuredData.ParseValue | snmpathy/syslog/parser.py:153-166 | stops at the closing quote with the unescaped value, or at the end of the text iff the value is not closed |
| StructuredData.ParseParams | snmpathy/syslog/parser.py:145-166 | reads the parameters and stops where they stop, or beyond the end iff a value is not closed |
| StructuredData.ParseStructuredData | snmpathy/syslog/parser.py:133-174 | for every text terminates in bounds with raw + remainder == text; malformed data leaves all of it as remainder |
| StructuredData.ScanPrinted | snmpathy/syslog/parser.py:133-174 | any printed list of elements is read back, whatever follows it unless that opens another element |
| StructuredData.ParseUndoesPrint | snmpathy/syslog/parser.py:133-174 | same dictionary, same raw text, same remainder as were printed |
| StructuredData.LookUp | snmpathy/syslog/parser.py:165-172 | with distinct ids and names every printed value is found under its id and name |
| StructuredData.ReadEscape | snmpathy/syslog/parser.py:157-160 | a backslash escapes a quote, a backslash or a closing bracket, and stands for itself before anything else |
| StructuredData.PrintEscape | snmpathy/syslog/parser.py:157-160 | the printer escapes exactly these three |
| StructuredData.UnclosedIsMessage | snmpathy/syslog/parser.py:167-171 | a value that is never closed makes all of the text the message |
| StructuredData.ParsedIsPrintable | snmpathy/syslog/parser.py:133-174 | whatever the parser accepts lies in the printer's domain |
| StructuredData.PrintNormalises | snmpathy/syslog/parser.py:133-174 | printing what was parsed and parsing again gives the same elements and remainder |
| SyslogMessages.SyslogMessage.Parse5424 | snmpathy/syslog/parser.py:113-130 | fills exactly the header, structured-data and message fields; facility and severity stay |
| SyslogMessages.ParseMessage | snmpathy/syslog/parser.py:74-102 | the message object holds what reading the text means, and says whether the RFC 5424 branch applied |
| SyslogMessages.ReadPrintedPriority | snmpathy/syslog/parser.py:82-87 | every printed priority from 0 to 999 is read back and removed |
| SyslogMessages.NoPriority | snmpathy/syslog/parser.py:88-90 | without a priority in front a message is a user notice |
| SyslogMessages.LongPriority | snmpathy/syslog/parser.py:56 | no digit, or more than three, is no priority |
| SyslogMessages.ReadVersion | snmpathy/syslog/parser.py:57-60 | every version from 1 to 999 is accepted |
| SyslogMessages.NoHeader | snmpathy/syslog/parser.py:57-60 | text that does not start with a digit from 1 to 9 has no header |
| SyslogMessages.HeaderAlone | snmpathy/syslog/parser.py:57-60 | a header may end with its last token |
| SyslogMessages.StripOf | snmpathy/syslog/parser.py:80-101 | stripping removes what is to be dropped from both ends and nothing else |
| SyslogMessages.TrustMeaning | snmpathy/syslog/parser.py:287-290 | the device clock counts within a day of the receipt, either way, else the receipt |
| SyslogMessages.TimestampMeaning | snmpathy/syslog/parser.py:105-106 | a timestamp is NILVALUE or starts with a date and a T |
| SyslogMessages.ReadPrintedHeader | snmpathy/syslog/parser.py:57-60 | the header pattern recovers every printed token and the exact rest |
| SyslogMessages.ReadPrintedBody | snmpathy/syslog/parser.py:120-130 | structured data and text are recovered, NILVALUE included, and one byte order mark is dropped |
| SyslogMessages.ReadUndoesPrint | snmpathy/syslog/parser.py:74-130 | a complete RFC 5424 message, with a mark, white space and stray bytes around its text, parses back to priority, time, header fields, structured data and text iff its second token is a timestamp |
| AlertLifecycle.TextInjective | snmpathy/alerting/engine.py:117-174 | the printed fingerprint determines rule and subject, whatever a host is called |
| AlertLifecycle.TextExamples | snmpathy/alerting/engine.py:117-174 | one printed fingerprint of each kind |
| AlertLifecycle.VerdictOf | snmpathy/alerting/engine.py:197-203 | every fingerprint gets one and only one verdict from an evaluation |
| AlertLifecycle.SurvivesIffSustained | snmpathy/alerting/engine.py:199-242 | an active alert survives iff matched, held by maintenance or its rule raised; it keeps its identity and start |
| AlertLifecycle.EventsFollowState | snmpathy/alerting/engine.py:225-250 | an event goes out exactly when the row becomes firing, or stops while its rule exists |
| AlertLifecycle.FiresWhenOldEnough | snmpathy/alerting/engine.py:225-232 | a firing event means a match outside maintenance and an age of at least for_seconds |
| Maintenance.WindowHolds | snmpathy/alerting/engine.py:62-70 | a window holds everything, or its device, or its check, from its start up to but not at its end |
| Maintenance.OtherWindow | snmpathy/alerting/engine.py:62-70 | a window that is not open, or is for others, holds nothing more |
| AlertEngine.Engine.Observe | snmpathy/alerting/engine.py:206-233 | handling one match gives its fingerprint the row, event and counters its own machine demands, and no other |
| AlertEngine.Engine.Clear | snmpathy/alerting/engine.py:236-250 | handling one unmatched alert: held, forgotten or resolved as its own machine demands |
| AlertEngine.Engine.RunRules | snmpathy/alerting/engine.py:197-233 | after the rule loop exactly the matched fingerprints are done and exactly the raised rules are left alone |
| AlertEngine.Engine.ClearRest | snmpathy/alerting/engine.py:236-250 | afterwards no active alert is unaccounted for |
| AlertEngine.Engine.Evaluate | snmpathy/alerting/engine.py:188-250 | every fingerprint follows its own machine; firing rows change by fired - resolved; the step is logged with the table it found; unique active alerts, alternating events and sustainment since insertion are kept |
| AlertEngine.HitOutcome | snmpathy/alerting/engine.py:206-233 | a match outside maintenance opens or refreshes the alert, field by field, and it fires with an event iff its age has reached for_seconds |
| AlertEngine.MissOutcome | snmpathy/alerting/engine.py:236-250 | without a match or a hold a pending alert is deleted and a firing one resolved, with an event if its rule exists |
| AlertEngine.RaisedOutcome | snmpathy/alerting/engine.py:197-205 | a rule that raises leaves its alerts, their rows and the outbox alone |
| AlertEngine.KeepsAlternating | snmpathy/alerting/engine.py:225-250 | per fingerprint the events over all runs alternate firing, resolved, firing, ending in firing iff the alert is firing |
| AlertEngine.KeepsSustained | snmpathy/alerting/engine.py:197-242 | an alert active after a step was inserted by it, into a table without an active row, or was found active and sustained by it as by every step since its insertion |
| AlertEngine.BornUnique | snmpathy/alerting/engine.py:211-218 | only one evaluation can be the one since which an alert has been active |
| AlertEngine.KeepsRun | snmpathy/alerting/engine.py:188-250 | the log stays a run from the empty table in which every step is an evaluation |
| AlertEngine.FiringWasSustained | snmpathy/alerting/engine.py:225-232 | an alert that fires is old enough, and every evaluation since the one that inserted its row found it active and matched it, held it or could not run its rule |
| AlertEngine.EventCarriesRow | snmpathy/alerting/engine.py:225-250 | a firing event carries the active row after the evaluation, a resolved one the row it ended and left in the table |
| AlertEngine.MaintenanceHolds | snmpathy/alerting/engine.py:206-240 | an evaluation in maintenance leaves row and outbox of a fingerprint untouched while its rule is enabled |
| AlertEngine.MaintenanceHoldsIffEnabled | snmpathy/alerting/engine.py:236-250 | in maintenance an active alert stays iff its rule is enabled; a disabled rule ends it and notifies iff it was firing |
| AlertEngine.DisabledInMaintenance | snmpathy/alerting/engine.py:236-250 | a concrete evaluation in a global window that resolves and notifies a firing alert whose rule was disabled |
| SampleHistory.FoldMeaning | snmpathy/storage.py:38-40 | the aggregate of a range is none for no rows, else least, greatest and number of its values |
| SampleHistory.FoldSum | snmpathy/storage.py:38-40 | the aggregate's sum is the sum of the range's values |
| SampleHistory.RowMeaning | snmpathy/storage.py:37-40 | a row holds the least, greatest, mean and number of the values of its range |
| SampleHistory.FoldSplit | snmpathy/storage.py:34-45 | aggregates of adjacent ranges combine to that of the whole |
| Storage.SelectedRow | snmpathy/storage.py:34-45 | the grouped query gives a row iff the full history has a sample in the bucket, and exactly its aggregate |
| Storage.Store.constructor | snmpathy/storage.py:21-28 | an empty store: no watermark, no row, nothing purged |
| Storage.Store.Insert | snmpathy/snmp/poller.py:222-225 | storing a sample at or above the watermarks keeps all rollup rows right and complete |
| Storage.EarliestBelow | snmpathy/storage.py:25-33 | there is something to roll up for the first time iff a sample lies below the boundary |
| Storage.Store.RollupPeriod | snmpathy/storage.py:21-45 | the watermark becomes the greater of its old value and the last boundary not after now, or stays unset iff no sample lies below that; the other period keeps its own |
| Storage.Store.Rollup | snmpathy/storage.py:17-46 | both watermarks, exactly; completed buckets only, as none moves beyond now; none decreases; rows equal the full history |
| Storage.Store.ApplyRetention | snmpathy/storage.py:49-63 | removes exactly the rows below the cutoffs and keeps the invariant |
| Storage.Store.Housekeeping | snmpathy/monitor.py:282-294 | with at least one day of raw retention: the watermarks are those of the roll-up, exactly the samples below the cutoff are gone, no row below its cutoff is left, and only those buckets count as purged |
| Storage.RowIffSamples | snmpathy/storage.py:34-45 | in every reachable state: an unpurged bucket below the watermark has a row iff the history has a sample there, and then its aggregate |
| Storage.RowIsAggregate | snmpathy/storage.py:34-45 | every row of a reachable store holds least, greatest, mean and number of all values ever inserted in its bucket |
| Storage.CutoffMeaning | snmpathy/storage.py:57-64 | 5-minute rows are kept for at most 35 days, hourly rows for as long as is set |
| Storage.HourIsTwelve | snmpathy/storage.py:11-45 | a completed hourly row is the weighted combination of its twelve 5-minute rows |
| SeriesQueries.RollupPointsMeaning | snmpathy/storage.py:126-130 | the stored points are exactly the rows of the window, in order |
| SeriesQueries.TailPointsMeaning | snmpathy/storage.py:133-137 | the tail points are exactly the non-empty raw buckets, in order |
| SeriesQueries.SeriesIncreasing | snmpathy/storage.py:125-138 | the timestamps of a series are strictly increasing |
| SeriesQueries.SeriesIsHistory | snmpathy/storage.py:125-138 | every unpurged bucket wholly inside the window has a point iff the history has a sample, with the history's aggregate |
| SeriesQueries.PointIsAggregate | snmpathy/storage.py:125-138 | such a point shows least, greatest and mean of all values ever inserted in the bucket |
| SeriesQueries.EveryPoint | snmpathy/storage.py:125-138 | any point is a stored row of the window or the aggregate of the raw samples of its bucket in the window |
| SeriesQueries.NothingMissed | snmpathy/storage.py:125-138 | every stored row of the window and every raw sample behind the last one has a point |
| Volume.TierIntegral | snmpathy/reporting.py:139-149 | the weighted sum over one tier is the integral of the rate its selected rows stand for |
| Volume.RawIntegral | snmpathy/reporting.py:155-159 | the sum over sample pairs is the integral of the last-reading rate |
| Volume.TiersDisjoint | snmpathy/reporting.py:139-154 | no tick is given its rate by two tiers |
| Volume.FiveMinuteRate | snmpathy/reporting.py:139-144 | a tick of a 5-minute row wholly in the window has its average |
| Volume.HourRate | snmpathy/reporting.py:145-150 | a tick of an hourly row wholly in the window has its average, if all 5-minute rows of the window come later or there is none |
| Volume.SampleRate | snmpathy/reporting.py:153-159 | between neighbouring samples behind every row a tick has the value of the earlier one |
| Volume.TiersAddUp | snmpathy/reporting.py:131-160 | the three sums together are one integral over the window |
| Volume.SumPairs | snmpathy/reporting.py:158-159 | the loop over neighbouring samples adds value times gap for every pair |
| Volume.VolumeBytes | snmpathy/reporting.py:131-160 | bytes are an eighth of the integral over the window in which each tick has at most one rate |
| Volume.VolumeBounded | snmpathy/reporting.py:131-160 | rates in 0..top give a volume in 0..top * window / 8 for every mix of rollups and samples |
| Volume.StoreAligned | snmpathy/storage.py:34-45 | the rollup rows of a reachable store are aligned, as the volume computation needs |
| Volume.TierIsHistory | snmpathy/reporting.py:139-149 | on every tick of a tier the stored rate is the average of the full sample history over its bucket |
| Volume.RawIsHistory | snmpathy/reporting.py:155-157 | raw readings are readings of the history, and all of them where no raw sample has been deleted |
| Volume.VolumeIsHistory | snmpathy/reporting.py:131-160 | on a reachable store the integral is that of the history rates |
| Volume.VolumeOfHistoryAlone | snmpathy/reporting.py:131-160 | if no raw sample behind the last rollup row has been deleted, the volume is an integral over the full history alone |
| Volume.RawRateMeaning | snmpathy/reporting.py:155-159 | from the first to the last raw reading a tick has the last reading at or before it, elsewhere none |
| Volume.UnratedTicks | snmpathy/reporting.py:139-159 | exactly which ticks outside the rollup rows are given a rate |
| Volume.StoreVolumeBounded | snmpathy/reporting.py:131-160 | if every value ever inserted lies in 0..top the volume lies in 0..top * window / 8, whatever was rolled up or deleted |
| Percentile.Offset | snmpathy/reporting.py:111 | the skipped rows are the most that stay below 95 percent |
| Percentile.RowValuesMeaning | snmpathy/reporting.py:112-114 | the sorted averages are those of the rows of the window, each once |
| Percentile.SampleValuesMeaning | snmpathy/reporting.py:116-122 | the sorted values are those of the samples of the window, each once |
| Percentile.PickIsP95 | snmpathy/reporting.py:111-115 | the value at the offset is the one value that 95 in 100 values do not exceed while fewer than 95 in 100 lie below |
| Percentile.Percentile95Meaning | snmpathy/reporting.py:101-123 | which rows answer, and that the answer is their 95th percentile |
| CounterRates.DeltaIsIncrement | snmpathy/snmp/poller.py:42-59 | the true increment is recovered iff it is below the range and did not wrap or is below half the range |
| CounterRates.CounterStep | snmpathy/snmp/poller.py:70-88 | on a running device rate times elapsed time is the scaled increment, except that a repeated reading within 15 s holds the baseline |
| CounterRates.RateMeaning | snmpathy/snmp/poller.py:88 | a rate is the scale times the counts, by the time between the readings; a scale of zero is none |
| CounterRates.GaugeMeaning | snmpathy/snmp/poller.py:68-69 | a gauge is its reading, scaled |
| CounterRates.OtherKinds | snmpathy/snmp/poller.py:89-96 | ratios are percentages of the denominator, used or free; every kind keeps the raw reading |
| CounterRates.IncrementLost | snmpathy/snmp/poller.py:42-59 | concrete readings in which the true increment is taken for a reset, and for none |
| CounterRates.RatioValue | snmpathy/snmp/poller.py:89-95 | a percentage within 0..100, present iff both readings are and the denominator is not zero |
| CounterRates.RatioMeaning | snmpathy/snmp/poller.py:89-95 | unclamped between the extremes; used and free share add up to 100 |
| CounterRates.RestartSeen | snmpathy/snmp/poller.py:130-134 | a restart is seen iff the uptime fell by more than a minute from outside the last part of its range, and both are known |
| CounterRates.WrapIsNotRestart | snmpathy/snmp/poller.py:130-134 | exactly when a running device is taken for restarted; never with polls at most 13.8 hours apart |
| CounterRates.WrapTakenForRestart | snmpathy/snmp/poller.py:130-134 | concrete polls in which a running device is taken for restarted |
| CounterRates.Metric.Store | snmpathy/snmp/poller.py:153-168 | a rate above twice a known line rate is not stored and leaves the last value alone |
| CounterRates.Metric.Poll | snmpathy/snmp/poller.py:146-168 | conservation: the sum of value times elapsed time over all computed values is scale times the true counts made, whatever readings are missing, cached, wrapped or dropped |
| CounterRates.Conserved | snmpathy/snmp/poller.py:62-88 | in every reachable state without a gap the rates carry scale times the true count at the last reading minus that at the first |
| Calendar.MonthUnique | snmpathy/scheduled.py:40-44 | every day lies in exactly one month |
| Calendar.DaysBeforeYear | snmpathy/scheduled.py:27-44 | the month lengths with the leap rule give the Gregorian day count |
| Scheduling.EpochDay | snmpathy/scheduled.py:27 | 1970-01-01 is day 719162 of the calendar, a Thursday |
| Scheduling.OccurrenceMeaning | snmpathy/scheduled.py:25-45 | the scheduled times in days and hours: any day, one weekday, or one day of every month between the first and the 28th |
| Scheduling.LatestExamples | tests/test_dashboards_and_schedules.py:74-83 | the six latest occurrences that the repository states for 18 March 2026 |
| Scheduling.LatestByDay | snmpathy/scheduled.py:25-45 | the last scheduled day whose hour has come gives the most recent scheduled time |
| Scheduling.WeeklyChoice | snmpathy/scheduled.py:34-38 | stepping back to the weekday, and a week more if that is later than now, is right |
| Scheduling.MonthlyChoice | snmpathy/scheduled.py:39-44 | this month's clamped day, or last month's if that is later than now, is right across month and year ends |
| Scheduling.PreviousOccurrence | snmpathy/scheduled.py:25-45 | returns the greatest scheduled time not after now, for every frequency, hour, weekday and day of month |
| ReportDelivery.CheckDue | snmpathy/scheduled.py:52-58 | due iff enabled and the latest occurrence is not older than the schedule and newer than its last run |
| ReportDelivery.AtMostOnce | snmpathy/scheduled.py:153-164 | over any run a schedule's deliveries are for strictly increasing occurrences |
| ReportDelivery.DeliveredIffFree | snmpathy/scheduled.py:52-58 | the first tick at or after an occurrence decides: it is delivered iff every delivery made before that tick had finished before it |
| ReportDelivery.DeliveredUnlessOvertaken | snmpathy/scheduled.py:153-164 | an occurrence seen by a tick is delivered iff no delivery by hand or for an earlier occurrence is the first to finish at or after it |
| ReportDelivery.ExactlyOnce | snmpathy/scheduled.py:153-164 | an occurrence seen by a tick, with earlier deliveries finished before it, has exactly one delivery |
| ReportDelivery.SkippedOccurrence | snmpathy/scheduled.py:114 | a concrete run in which a slow delivery swallows the next occurrence |
| ReportDelivery.HandSentSkips | snmpathy/api.py:869-874 | a concrete run in which sending by hand just after the hour makes the next tick skip the occurrence |
| ReportDelivery.TickKeeps | snmpathy/scheduled.py:153-164 | a tick, delivering, failing or idle, keeps the delivery invariant |
| ReportDelivery.TickedMeaning | snmpathy/scheduled.py:157-164 | a due schedule gets the time its delivery ended, or the tick on failure; one not due stays |
| ReportDelivery.Reports.SendNow | snmpathy/api.py:869-874 | a report sent by hand keeps the delivery invariant |
| ReportDelivery.Reports.RunDue | snmpathy/scheduled.py:153-164 | one tick attempts exactly the due schedules, sets their last run to the completion or failure time, touches no other, and counts the successes |

## Left out

- Floating point: values, rates and percentages are exact reals; 64-bit counters held as floats, `n * 0.95` and float clock times are not modelled.
- SQLite itself: transactions, locking, full-text search and SQL text are replaced by maps, sequences and aggregates over them.
- All I/O: SNMP, ICMP, TCP and HTTP probes, sockets, mail and webhooks, the web interface; their results are inputs of the operations.
- CheckRunner.Database.RecordResult: serial steps only; each call gets the row that the previous one left, at a later time, with `retries` unchanged. Overlapping probes of one check, deletions and heartbeat retention are not modelled. Latency and message columns are left out.
- CheckRunner.Database.AddCheck: only the columns that the state machine uses.
- Availability.Availability: outage counts, longest outage, MTTR, MTBF and latency figures are not modelled; `now` is given, as are the day boundaries of the bars.
- SyslogFraming.StreamBuffer.SplitOctetCounted: byte strings are strings of characters 0..255; Python's digit test on bytes is the ASCII one.
- SyslogServer.CutIndependent: one way for arbitrary byte streams, where two overflowing cuts can agree by coincidence; for framed messages DeliveredForEveryCutIffFits is exact.
- SyslogServer.Server.HandleTcp: the reads of one connection are handled without writer steps or other connections in between; receipt times of messages and connection errors are left out.
- SyslogMessages.ParseMessage: the BSD, Cisco and ISO timestamp branch is not modelled, the ISO date reader is a parameter, text is already decoded, and `\d` matches ASCII digits only.
- AlertEngine.Engine.Evaluate: the bodies of `evaluate_rule` are inputs (matches or an exception), subjects of one rule are distinct, rules with active alerts are not deleted, and sending the outbox to channels is left out. Value, message and subject line are one `detail`.
- Storage.Store.Insert: a sample below a watermark, which a slow poll can produce, is excluded.
- SampleHistory.BucketOf: buckets of times before 1970 are rounded down, where SQLite division truncates toward zero.
- Storage.Store.ApplyRetention: heartbeats, events, alerts and syslog deletion and the returned counts are left out; raw retention must not reach beyond the watermarks, which Housekeeping establishes.
- SeriesQueries.SeriesIsHistory: the raw resolution and the automatic choice of a resolution are left out; the two partial buckets at the ends of a window are not described.
- CounterRates.Metric.Poll: one counter metric; increments must be recoverable as DeltaIsIncrement says. Derived series and the interface snapshot are left out.
- Scheduling.PreviousOccurrence: naive local time without time zones or daylight saving; the hour must be 0..23, as the API demands, because `datetime.replace` raises otherwise.
- ReportDelivery.Reports.RunDue: the clock does not run back behind an earlier tick or delivery, ticks do not overlap with sending by hand, and a schedule's plan is not edited between ticks.
- `dashboards._bucketed`, alert notification channels, discovery, device inventory and number formatting are not part of this model.
