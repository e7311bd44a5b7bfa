# pping exporters: per-flow RTT bookkeeping in Dafny

This project models the bookkeeping of two Prometheus exporters for `pping`,
the passive round-trip-time monitor, and proves properties of it.

The first is the Python windowed-median exporter. It reads pping's
machine-readable lines and keeps a window of the last 20 RTT samples per flow
(`FlowSamples`). It publishes the window's median as a gauge series labelled
`(srcIP, dstIP, dstPort)` and removes flows that have been idle for five
minutes.

The second is the C++ `pping-exporter`. For every TCP packet carrying the
timestamp option it does four things:
- It records the packet's TSval under "flow+TSval".
- It matches the packet's TSecr against the reverse flow's TSvals to obtain an
  RTT. Each entry is used once; its time is negated after use.
- It keeps per-flow records: last activity, minimum RTT and whether the flow is
  two-way.
- A periodic clean-up drops stale TSvals and idle flows, together with the
  flows' Prometheus summaries.

The checks on its `-L` (`--localSubnet`) arguments (`convertStrRange`, pping-exporter.cpp:606 and 626-627) are modelled as well.

Modules, following the two programs:

| module | file | models |
|---|---|---|
| `Wrappers`, `MetricLabels` | wrappers.dfy, labels.dfy | `Option`/`Result`, the label triple |
| `Strings` | strings.dfy | `str.split(c)`, `str.split()`, `std::to_string` on naturals |
| `Sorting` | sorting.dfy | `sorted` on RTT values |
| `FlowWindow` | flow_window.dfy | `FlowSamples.append`, `FlowSamples.getMedian` |
| `LineParser` | line_parser.dfy | the per-line body of `StatsLoop` |
| `FlowTable` | flow_table.dfy | `flow2samples`, the gauge, the expiry sweep of `FlowExpiryLoop` |
| `Pping` | pping.dfy | `addTS`, `getTStm`, the table logic of `process_packet`, `cleanUp` |
| `FlowLabels` | flow_labels.dfy | `parseLabels` with `size_t` index arithmetic |
| `PpingProperties` | pping_props.dfy | invariants over runs of packets and clean-ups |
| `Cidr` | cidr.dfy | the string checks of `convertStrRange` and `std::stoi` |

Modelling choices:
- **Collaborators as parameters.** The parts that belong to other libraries are
  parameters of the model:
  - `float(...)`, netaddr's `IPAddress` and the subnet test (`LineParser.Env`);
  - libtins' `IPv4Address` constructor, used twice: by the `-L` (`--localSubnet`)
    checks (`ConvertStrRange`'s `parseAddr`), and by the implicit conversion of the
    destination text at pping-exporter.cpp:318 (`Config.parseAddr`);
  - the local-range test `ipRangesContains` on a parsed address (`Config.isLocal`).
- **Time.** Time is a parameter: the `now` of an ingest or a sweep, the capture
  time of a packet, and the `n` of a clean-up.
- **Exceptions.** They are results:
  - `flows.at(rev)` failing at pping-exporter.cpp:336 is `Step.OutOfRange`;
  - the `IPv4Address` constructor throwing `invalid_address` at
    pping-exporter.cpp:318 is `Step.InvalidAddress`. Neither exception is caught
    (`process_packet` is called outside any `try` at line 679), so either ends
    the program;
  - the expiry sweep raising `ValueError` or `KeyError` at lines 161-164 of the
    Python exporter is `FlowTable.Expire` returning None;
  - each exception of `convertStrRange` and `std::stoi` is a `CidrError`.
- **Unsigned arithmetic.** `std::string::find`/`rfind` return `npos` on a miss.
  Index arithmetic in `parseLabels` wraps modulo 2^64 (`FlowLabels.SizeT`).
  `substr` clamps its count.
- **Concurrency.** Each call of the ingest loop, the sweep, the packet handler
  and `cleanUp` is one atomic step. `PpingProperties.Run` interleaves packets
  and clean-ups arbitrarily.

Results worth noting:
- **When the packet handler throws.** There are two ways:
  - `invalid_address`: a packet of a two-way flow throws when local
    destinations are filtered (the default, pping-exporter.cpp:137) and its
    destination text is not an IPv4 address. With filtering on, an IPv6
    connection therefore ends the program at its first reply
    (`UnparsedDestinationAborts`).
  - `out_of_range`: a packet throws when its reverse flow's record is gone
    while one of that flow's unused TSvals is still in the table
    (`StepNeverThrows`).

  Three conditions together rule out both exceptions for every interleaving of
  packets and clean-ups (`RunNeverAborts`):
  - `tsvalMaxAge <= flowMaxIdle` (the defaults are 10 s and 300 s);
  - packets in capture order;
  - every destination parsing as IPv4 whenever local destinations are filtered.

  Neither the first nor the last condition can be dropped:
  - With `--tsvalMaxAge` above `--flowMaxIdle`, a clean-up can remove a flow
    and keep its TSval. The next packet echoing that TSval then throws
    `out_of_range` (`CleanUpCanStrandEntries`).
  - A reply whose destination is not IPv4 text throws `invalid_address`
    (`UnparsedDestinationAborts`).
- **Admission bound.** The test `flowCnt > maxFlows` admits up to `maxFlows + 1`
  flows (`FlowCountBound`).
- **Conditions for `parseLabels`.** It returns the labels a packet's summary
  was observed on exactly when the source address has no ':'
  (`ParseLabelsMatchesObservedIffNoColon`). This also needs three more
  conditions, because the separator `parseLabels` uses is the FIRST '+':
  - no '+' in the source address;
  - no '+' in the source port;
  - no ':' in the destination port.

  IPv6 sources break it (see Findings). `CleanUp` models the clean-up as
  written; `CleanUpCorrected` is the same clean-up with the corrected parse.

## Model

| member | source | states |
|---|---|---|
| FlowWindow.Push | python/pping-analysis-exporter.py:65-70 | Appending to a window of n samples gives min(n+1, 20) samples: the newest last, the others being the previous ones in order with the oldest dropped first once the window is full |
| FlowWindow.Append | python/pping-analysis-exporter.py:68-71 | `append` keeps the tracker's flow name, pushes the value into the window and sets `lastUpdated` to the time of the call |
| FlowWindow.WindowSuffix | python/pping-analysis-exporter.py:65-71 | A tracker fed a sequence of values holds the last 20 of its old samples followed by the new values, and remembers the time of the last append |
| FlowWindow.WindowHoldsMostRecent | python/pping-analysis-exporter.py:59-71 | A fresh tracker fed any values holds exactly the last min(n, 20) of them, oldest first |
| FlowWindow.MedianPolicy | python/pping-analysis-exporter.py:73-84 | For ANY ascending arrangement of the window: the median is 0 for no samples, the middle element for an odd count, and the mean of the two middle elements for an even count |
| FlowWindow.MedianOrderIndependent | python/pping-analysis-exporter.py:75-82 | Two windows holding the same multiset of samples have the same median, whatever the arrival order |
| FlowWindow.MedianWithinRange | python/pping-analysis-exporter.py:75-82 | The median of a non-empty window lies between its smallest and its largest sample, both defined independently of sorting |
| FlowWindow.MedianScenarioOdd | python/pping-analysis-exporter.py:73-84 | Samples 1, 3, 2 appended to a fresh tracker give median 2 |
| FlowWindow.MedianScenarioEven | python/pping-analysis-exporter.py:73-84 | Samples 1, 3, 2, 4 give median 2.5, the mean of the middle two |
| FlowWindow.MedianOfOne | python/pping-analysis-exporter.py:73-84 | The median of one sample is that sample |
| Sorting.Sort | python/pping-analysis-exporter.py:75 | `sorted` returns an ascending permutation of the samples |
| Sorting.SortedUnique | python/pping-analysis-exporter.py:75 | Two ascending permutations of the same samples are equal, so the sorted window is determined by its multiset |
| Strings.Split | python/pping-analysis-exporter.py:123-126 | `str.split(c)` yields at least one piece and no piece contains `c` |
| Strings.JoinSplit | python/pping-analysis-exporter.py:123-126 | Joining the pieces of `s.split(c)` with `c` gives back `s` |
| Strings.SplitJoin | python/pping-analysis-exporter.py:123-126 | Splitting a join of `c`-free pieces at `c` gives back the pieces |
| Strings.SplitWhitespaceJoin | python/pping-analysis-exporter.py:115 | `line.split()` on words joined by single spaces returns the words |
| Strings.DecimalStringValue | pping-exporter.cpp:268-269 | The decimal text `std::to_string` gives for a port or TSval reads back as the same number |
| LineParser.ParseLine | python/pping-analysis-exporter.py:113-117 | A line without exactly seven whitespace-separated fields is dropped; an accepted line has seven |
| LineParser.ParseFields | python/pping-analysis-exporter.py:119-132 | An accepted sample has RTT = float(field 2) × 1000. It comes from a flow field of exactly two '+'-separated endpoints, with the source IP the text before the first ':' of the source and dstIP/dstPort the first two ':' pieces of the destination. The source is a valid address outside the excluded subnet, and the port is non-empty |
| LineParser.SplitFlowField | python/pping-analysis-exporter.py:123-126 | The flow field pping prints for plain endpoints splits at '+' into source and destination, and at ':' back into the addresses and the port |
| LineParser.ParseWellFormedLine | python/pping-analysis-exporter.py:113-138 | Any seven-word line whose last field is the flow of plain endpoints is accepted with key srcIP+dstIP:dstPort, the labels and RTT×1000 when the source is outside the subnet, and dropped as excluded when it is inside |
| FlowTable.SetDefault | python/pping-analysis-exporter.py:141 | `setdefault` returns the existing tracker under the key, or a fresh empty tracker named by the key |
| FlowTable.Ingest | python/pping-analysis-exporter.py:113-148 | A dropped line leaves the table and gauge unchanged; an accepted one is recorded |
| FlowTable.IngestIgnoresRejected | python/pping-analysis-exporter.py:115-136 | The table and gauge are unchanged in each skip case: wrong field count, non-numeric RTT, flow field not two endpoints, destination without ':', invalid or excluded source, empty port |
| FlowTable.Record | python/pping-analysis-exporter.py:138-146 | Only the tracker under srcIP+dst changes: it is reused when present and created otherwise, gets the RTT pushed and the time set. Only the sample's gauge series changes, set to that tracker's new median |
| FlowTable.Expire | python/pping-analysis-exporter.py:156-164 | The sweep raises exactly when some idle flow's key does not split into srcIP+dstIP:dstPort or its series is missing from the gauge. Otherwise it keeps exactly the flows with lastUpdated + 300 >= now, unchanged. It removes exactly the series of the idle flows and leaves every other series as it was |
| FlowTable.KeyLabelsOfLabelKey | python/pping-analysis-exporter.py:161-162 | Splitting the key "srcIP+dstIP:dstPort" of plain labels at '+' and ':' gives back the labels |
| FlowTable.LabelKeyOfKeyLabels | python/pping-analysis-exporter.py:161-162 | A key the sweep can split is rebuilt exactly from its labels |
| FlowTable.KeyLabelsInjective | python/pping-analysis-exporter.py:161-164 | Two splittable keys with the same labels are the same key, so no sweep removes another flow's series |
| FlowTable.SampleKeyRoundTrip | python/pping-analysis-exporter.py:138-164 | For a destination with exactly one ':' and no '+' in source or destination, splitting the stored key recovers the labels the gauge series was set on |
| FlowTable.RecordKeepsConsistent | python/pping-analysis-exporter.py:138-146 | Recording keeps the invariant: one series per flow holding its window's median, and every series backed by its flow |
| FlowTable.IngestKeepsConsistent | python/pping-analysis-exporter.py:113-148 | Ingesting any line keeps that invariant when accepted destinations have one ':' |
| FlowTable.ExpireKeepsConsistent | python/pping-analysis-exporter.py:156-164 | Under that invariant the sweep never raises, and it keeps the invariant |
| FlowTable.GaugeMirrorsFlows | python/pping-analysis-exporter.py:141-164 | Under the invariant, a label set has a gauge series exactly when some flow in the table has those labels |
| FlowTable.RecordIntoEmpty | python/pping-analysis-exporter.py:138-146 | The first sample into an empty exporter creates one flow and one series holding that sample |
| FlowTable.FirstLineOfFlow | python/pping-analysis-exporter.py:113-148 | A well-formed first line gives one flow and one series holding RTT×1000 when the source is outside the subnet, and changes nothing when it is inside |
| FlowTable.ExampleLine | python/pping-analysis-exporter.py:113-148 | The sample line "1567578632.260233 0.001452 ... 10.0.0.254:40622+100.200.3.38:9000" gives the series (10.0.0.254, 100.200.3.38, 9000) = 1.452 ms |
| Cidr.Stoi | pping-exporter.cpp:563 | `std::stoi` yields an `int` within 32-bit range, or fails with no digits or out of range |
| Cidr.StoiOfDecimal | pping-exporter.cpp:563 | `std::stoi` reads back any decimal number up to INT_MAX, whatever non-digit text follows it |
| Cidr.ConvertStrRange | pping-exporter.cpp:547-571 | No '/' is rejected, and so is an empty address or prefix part. An accepted range's address is the parse of the text before the first '/', and its prefix is `std::stoi` of the text after it, 32 giving the one-address range and no masked range. Once both parts are present and the address parses, a failing `stoi` is the result |
| Cidr.ConvertWellFormed | pping-exporter.cpp:547-571 | "ip/n" with a valid address gives the single-address range for n = 32 and the address with prefix n otherwise |
| Cidr.ConvertBadAddress | pping-exporter.cpp:554-562 | An address the parser rejects fails with a bad address, whatever the prefix |
| Cidr.ConvertNonNumericPrefix | pping-exporter.cpp:562-563 | An accepted address followed by a prefix that does not start with a number fails as `std::stoi` does, with no digits |
| Pping.AddTS | pping-exporter.cpp:157-171 | `addTS` stores the entry only when the key is absent; existing entries are never overwritten |
| Pping.GetTStm | pping-exporter.cpp:188-196 | `getTStm` finds nothing exactly when the key is absent, and otherwise returns the stored entry |
| Pping.AddTSFirstWins | pping-exporter.cpp:149-171 | Repeated additions under one key keep the first (oldest) capture time, and a lookup returns it |
| Pping.Register | pping-exporter.cpp:295-305 | A new record is created for the flow. When the reverse flow is known, both records are marked two-way; no other record changes |
| Pping.Admit | pping-exporter.cpp:287-308 | An unknown flow's packet is dropped exactly when flowCnt > maxFlows. Otherwise the flow is registered, and flowCnt rises by one exactly when the flow is new |
| Pping.Forward | pping-exporter.cpp:316-321 | Throws `invalid_address` exactly when local destinations are filtered and the destination is not IPv4 text. Otherwise a two-way flow's packet adds its size to the flow's bytes, and its TSval is recorded first-wins unless local destinations are filtered and this one is local |
| Pping.Answer | pping-exporter.cpp:322-357 | An RTT is produced exactly when the reverse flow's entry for the TSecr exists with positive time. The RTT is capTm minus that time, and the entry's time is negated. The flow's minimum becomes the RTT if that is lower and otherwise stays; no other flow's minimum changes. Without a match nothing changes. A missing reverse record throws `out_of_range` |
| Pping.Touch | pping-exporter.cpp:309-357 | A registered flow's packet stamps its capture time. A one-way flow's packet then only counts as one-way. A two-way flow's packet throws `invalid_address` exactly when its destination fails the filtered range test's parse, and is matched otherwise, with the flow's minimum lowered to the RTT |
| Pping.ProcessPacket | pping-exporter.cpp:251-357 | Packets without usable timestamps, or of new flows past the cap, change nothing. A handled packet of a two-way flow throws `invalid_address` exactly when local destinations are filtered and its destination is not IPv4 text. Otherwise a handled packet:<br>- adds its flow, counted once;<br>- stamps its time;<br>- sets its flow's minimum to the lower of the old one (1e30 for a new flow) and its RTT, leaving other flows' times, minimums and names alone;<br>- keeps every TSval entry or marks it used;<br>- adds at most its own TSval;<br>- produces a sample only from an unused entry. |
| Pping.CleanUp | pping-exporter.cpp:378-407 | An entry is removed exactly when n − abs(t) > tsvalMaxAge, and a flow exactly when n − last_tm > flowMaxIdle. Survivors are unchanged, and flowCnt drops by one per removed flow. The deleted summaries are exactly those `parseLabels` names for the removed flows |
| Pping.CleanUpCorrected | pping-exporter.cpp:378-407 | The same tables as the clean-up, with the deleted summaries being exactly those the corrected parse names for the removed flows |
| PpingProperties.TsFlowOfKey | pping-exporter.cpp:319-323 | The flow recovered from a TSval key (text before the last '+') is the flow that stored it |
| PpingProperties.Initial | pping-exporter.cpp:119-127 | The empty tables satisfy the invariant under every configuration |
| PpingProperties.StepNeverThrows | pping-exporter.cpp:322-336 | While every unused entry's flow is known, no packet throws `out_of_range` |
| PpingProperties.StepKeepsClock | pping-exporter.cpp:309 | After a packet, no flow was active later than that packet's capture time |
| PpingProperties.StepKeepsMatchable | pping-exporter.cpp:316-357 | With capture times in order, every unused entry still belongs to a known flow active no earlier than the entry |
| PpingProperties.StepCardinality | pping-exporter.cpp:290-297 | A packet adds one flow record exactly when it is handled and its flow is new |
| PpingProperties.StepKeepsCount | pping-exporter.cpp:287-308 | After a packet, flowCnt still equals the number of records. It stays within maxFlows + 1, and each record carries its own name |
| PpingProperties.OneWayPacket | pping-exporter.cpp:309-314 | A packet of a flow not known to be two-way only stamps (and if new, creates) its record and bumps uniDir. It stores no TSval and produces no RTT |
| PpingProperties.StepKeepsInv | pping-exporter.cpp:251-357 | A packet in capture order throws only when its flow is two-way and the filtered range test's parse fails, and otherwise keeps the whole invariant |
| PpingProperties.CleanUpKeepsCount | pping-exporter.cpp:392-406 | A clean-up keeps flowCnt equal to the number of records |
| PpingProperties.CleanUpKeepsInv | pping-exporter.cpp:378-407 | With tsvalMaxAge <= flowMaxIdle, every unused entry surviving a clean-up still finds its flow |
| PpingProperties.RunNeverAborts | pping-exporter.cpp:316-336 | With tsvalMaxAge <= flowMaxIdle, packets in capture order, and every destination IPv4 text whenever local destinations are filtered, no interleaving of packets and clean-ups throws, and the invariant holds at the end |
| PpingProperties.RunKeepsCount | pping-exporter.cpp:290-401 | Whatever the settings and the event order, a completed run keeps flowCnt equal to the number of records |
| PpingProperties.FlowCountBound | pping-exporter.cpp:290-297 | From empty tables, the flow count is the number of records and never exceeds maxFlows + 1 |
| PpingProperties.MinimumNeverRises | pping-exporter.cpp:328-331 | Over packets alone, no flow is forgotten and no flow's minimum RTT rises |
| PpingProperties.MinimumBoundsSamples | pping-exporter.cpp:328-341 | Over packets alone, every printed RTT's flow is still known at the end, with a minimum no larger than that RTT |
| PpingProperties.UsedEntryStays | pping-exporter.cpp:356-357 | A used entry (negative time) survives every packet unchanged |
| PpingProperties.MatchedOnce | pping-exporter.cpp:322-357 | After a packet has produced an RTT from an entry, no later packet looking up the same entry produces another while no clean-up runs |
| PpingProperties.StrandedEntryThrows | pping-exporter.cpp:316-336 | A two-way flow's packet whose reverse record is gone, but whose echoed TSval is still unused in the table, throws `out_of_range`, unless the range test has thrown `invalid_address` first |
| PpingProperties.StrandingCleanUp | pping-exporter.cpp:378-407 | With tsvalMaxAge > flowMaxIdle, a clean-up can remove a flow and keep its unused TSval |
| PpingProperties.CleanUpCanStrandEntries | pping-exporter.cpp:378-407 | With tsvalMaxAge > flowMaxIdle, an in-order run from tables satisfying the invariant (a clean-up, then a packet) throws. The run meets the address condition exactly when the packet's destination parses |
| PpingProperties.UnparsedDestinationAborts | pping-exporter.cpp:302-321 | With local destinations filtered, a packet and its reply from empty tables, in order, abort when the reply's destination is not IPv4 text (any IPv6 address): the reply's flow is two-way and its destination goes through the address parse |
| PpingProperties.ParseLabelsMatchesObservedIffNoColon | pping-exporter.cpp:365-376 | As written, `parseLabels` of a flow name gives the labels its summary was observed on exactly when the source address has no ':' |
| PpingProperties.CleanUpDeletesObservedSeries | pping-exporter.cpp:359-397 | With the corrected parse, cleaning up an expired flow deletes exactly the label set its RTTs were observed on |
| PpingProperties.CleanUpDeletesParsedSeries | pping-exporter.cpp:359-397 | As written, cleaning up an expired flow deletes the label set `parseLabels` names, which is the one its RTTs were observed on exactly when the source address has no ':' |
| FlowLabels.Substr | pping-exporter.cpp:368-373 | `substr(pos, count)` has min(count, size − pos) characters, those from pos |
| FlowLabels.ParseLabelsOfIPv4Name | pping-exporter.cpp:365-376 | For "ip:port+ip2:port2", `parseLabels` returns (ip, ip2, port2) when ip has no ':', ip and port have no '+', and port2 has no ':' |
| FlowLabels.ParseLabelsTruncatesColonSource | pping-exporter.cpp:368 | When ip has a ':', `parseLabels` returns the text before ip's first ':' as the source IP, so the labels differ from (ip, ip2, port2) |
| FlowLabels.ParseFlowLabelsOfName | pping-exporter.cpp:365-376 | The corrected parse returns (ip, ip2, port2) for any source address, ':' included |

## Left out

- Input handling in the Python exporter (lines 96-111) is not modelled: `select`/`os.read` of 4096 bytes and splitting the buffer into lines. The model takes one line at a time, so a line cut at the buffer end is just another input line.
- Output is not modelled: printing and tracebacks (lines 134-135, 148, 158), `printf`/`fmtTimeDiff` (pping-exporter.cpp:338-355) and the `std::cerr` messages. `LineParser.IsLogged` says which drops print a traceback.
- Prometheus and HTTP are not modelled: the gauge, `generate_latest`, the WSGI handler, `SummaryVec.Observe` and `DeleteLabelValues`. The gauge is a map from label triples to values. An observation is the `labels` of an `RttSample`. A deletion is the `deleted` label set of a clean-up.
- Concurrency is not modelled: gevent greenlets, the `cleanUpLoop`/`flushLoop` threads, and `cleanUp` running unsynchronised against the packet handler (pping-exporter.cpp:528-537). Every call is one atomic step.
- FlowTable.Expire: the sweep reads `time.time()` once per flow, but the model uses one `now` for the whole sweep.
- Floating point is not modelled: RTTs, times and byte counts are exact reals. No rounding in `rtt * 1000`, in the median's division, or in `capTm` normalisation with `offTm` (lines 271-285); `capTm` is an input of each packet.
- Address semantics are parameters, not modelled: netaddr's `IPAddress`/`IPNetwork` and libtins' `IPv4Address`, `IPv4Range` and `ipRangesContains`. Only whether the `IPv4Address` constructor accepts a text is part of the model, as an `Option` result.
- Cidr.ConvertStrRange: the masked range `ipAddr / cidrInt` is represented by its address and prefix, not computed. libtins' behaviour for prefixes outside 0..32 is not modelled.
- Packet capture and decoding (libtins) are not modelled. So are the counters `pktCnt`, `not_tcp`, `no_TS` and `not_v4or6`, the summary printer, `main`, `getopt_long` and the start-up checks. A packet enters the model decoded, with a flag for "flags are exactly SYN".
- Memory management (`new`/`delete` of records and entries) is not modelled; tables hold values.
- The byte counters `bytesSnt`, `lstBytesSnt` and `bytesDep` are updated as in the source but no property is stated about them.
- `flowCnt` and `uniDir` are unbounded integers. The source's 32-bit `int` would need over 2^31 events to wrap.
- FlowTable.Expire: when the sweep raises, the model gives no exporter. The flows the loop popped before raising, and the greenlet that ends with it, are not modelled.
- FlowTable.Expire: requires every tracker to be filed under its own name and to have been appended to. `StatsLoop` creates trackers only that way (`setdefault` then `append`, lines 141-142).
- FlowTable.IngestKeepsConsistent: requires an accepted destination to have exactly one ':'. The parser itself accepts a destination with several ':' pieces, and its flow is filed under a name the sweep cannot split: `dst.split(':')` at python/pping-analysis-exporter.py:162 raises `ValueError`. So the invariant does not hold in the source for such a line.
- FlowLabels.ParseLabelsOfIPv4Name: requires the flow name to be shorter than `npos`, which every `std::string` is. The same holds for FlowLabels.ParseLabelsTruncatesColonSource and FlowLabels.ParseFlowLabelsOfName.
- PpingProperties.CleanUpDeletesObservedSeries: requires a source address without '+' and a name shorter than `npos`. No address text contains '+'.
- PpingProperties.ParseLabelsMatchesObservedIffNoColon: requires the same.
- PpingProperties.MatchedOnce: holds only while no clean-up runs. A clean-up may delete the used entry, after which a new TSval can recreate it; the comment at pping-exporter.cpp:179-186 accepts this.

## Findings

| source | as written | input that shows it | evidently intended | confidence | as-written member | corrected member |
|---|---|---|---|---|---|---|
| pping-exporter.cpp:368 | `parseLabels` takes the source IP up to the FIRST ':' of the whole flow name | With `-l` (local filtering off, pping-exporter.cpp:599), the IPv6 flow "fe80::1:443+fe80::2:80" gives source IP "fe80", but its RTTs were observed with source IP "fe80::1" (line 360). `cleanUp` deletes a series that does not exist, and the flow's summary is never removed | The source IP is the text before the last ':' preceding the '+', the destination being parsed as before | not executed | FlowLabels.ParseLabelsTruncatesColonSource | FlowLabels.ParseFlowLabelsOfName |
