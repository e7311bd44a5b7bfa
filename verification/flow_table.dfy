/**
 The Python exporter's flow table (`flow2samples`) together with the gauge
 series it keeps in step with it (`flowMedGauge`), as the ingest loop and the
 expiry sweep change them. Each call is one atomic step; the current time is a
 parameter.
 */
module FlowTable {
  import opened Wrappers
  import opened Strings
  import opened MetricLabels
  import opened FlowWindow
  import opened LineParser

  /** Seconds a flow may go without samples before the sweep removes it. */
  const FlowIdleTimeout: real := 300.0

  /** The flow table and the gauge's series, keyed by their label triple. */
  datatype Exporter = Exporter(flows: map<string, FlowSamples>, gauge: map<Labels, real>)

  /** `flow2samples.setdefault(key, FlowSamples(key))`: the existing tracker, or a fresh one. */
  function SetDefault(flows: map<string, FlowSamples>, key: string): (fs: FlowSamples)
    ensures key in flows ==> fs == flows[key]
    ensures key !in flows ==> fs.flow == key && fs.samples == []
  {
    if key in flows then flows[key] else NewTracker(key)
  }

  /** One input line at time `now`: a dropped line changes nothing, an accepted one is recorded. */
  function Ingest(env: Env, st: Exporter, line: string, now: real): (r: Exporter)
    ensures ParseLine(env, line).Dropped? ==> r == st
    ensures ParseLine(env, line).Accepted? ==> r == Record(st, ParseLine(env, line).sample, now)
  {
    match ParseLine(env, line)
    case Dropped(_) => st
    case Accepted(s) => Record(st, s, now)
  }

  /** Every way the ingest loop skips a line leaves the table and the gauge as they were:
      not seven fields, an RTT that is not a number, a flow field that is not two
      '+'-separated endpoints, a destination without ':', a source that is not an address
      or lies in the excluded subnet, and an empty destination port. */
  lemma IngestIgnoresRejected(env: Env, st: Exporter, line: string, now: real)
    ensures var fields := SplitWhitespace(line);
      (|fields| != 7
       || env.parseFloat(fields[1]).None?
       || |Split(fields[6], '+')| != 2
       || |Split(Split(fields[6], '+')[1], ':')| < 2
       || !env.isAddress(Split(Split(fields[6], '+')[0], ':')[0])
       || env.inSubnet(Split(Split(fields[6], '+')[0], ':')[0])
       || Split(Split(fields[6], '+')[1], ':')[1] == "")
      ==> Ingest(env, st, line, now) == st
  {
  }

  /** An accepted sample at time `now`: it is appended to its flow's tracker (created on
      first sight) and the flow's gauge series is set to the new median; nothing else changes. */
  function Record(st: Exporter, s: Sample, now: real): (r: Exporter)
    ensures r.flows.Keys == st.flows.Keys + {s.Key()}
    ensures forall k :: k in st.flows && k != s.Key() ==> r.flows[k] == st.flows[k]
    ensures r.flows[s.Key()].flow == (if s.Key() in st.flows then st.flows[s.Key()].flow else s.Key())
    ensures r.flows[s.Key()].samples ==
      Push(if s.Key() in st.flows then st.flows[s.Key()].samples else [], s.rttMillis)
    ensures r.flows[s.Key()].lastUpdated == Some(now)
    ensures r.gauge.Keys == st.gauge.Keys + {s.Labels()}
    ensures r.gauge[s.Labels()] == Median(r.flows[s.Key()].samples)
    ensures forall l :: l in st.gauge && l != s.Labels() ==> r.gauge[l] == st.gauge[l]
  {
    var key := s.Key();
    var fs := Append(SetDefault(st.flows, key), s.rttMillis, now);
    var flows := SetTracker(st.flows, key, fs);
    var gauge := SetSeries(st.gauge, s.Labels(), fs.samples);
    Exporter(flows, gauge)
  }

  /** `flow2samples[key] = fs`: the table now files `fs` under `key`. */
  function SetTracker(flows: map<string, FlowSamples>, key: string, fs: FlowSamples): (f: map<string, FlowSamples>)
    ensures f.Keys == flows.Keys + {key}
    ensures f[key] == fs
    ensures forall k :: k in flows && k != key ==> f[k] == flows[k]
  {
    flows[key := fs]
  }

  /** `flowMedGauge.labels(...).set(median)`: the series for `l` now holds the median of `samples`. */
  function SetSeries(gauge: map<Labels, real>, l: Labels, samples: seq<real>): (g: map<Labels, real>)
    ensures g.Keys == gauge.Keys + {l}
    ensures g[l] == Median(samples)
    ensures forall m :: m in gauge && m != l ==> g[m] == gauge[m]
  {
    gauge[l := Median(samples)]
  }

  /** The sweep's idle test: last sample plus the timeout is before `now`. */
  predicate Idle(fs: FlowSamples, now: real)
    requires fs.lastUpdated.Some?
  {
    fs.lastUpdated.value + FlowIdleTimeout < now
  }

  /** The label triple of a flow key, as the sweep recovers it: split at '+', then the
      destination at ':'; None where the source's tuple unpacking would raise. */
  function KeyLabels(key: string): (r: Option<Labels>)
  {
    var halves := Split(key, '+');
    if |halves| != 2 then None
    else
      var dstParts := Split(halves[1], ':');
      if |dstParts| != 2 then None
      else Some(Labels(halves[0], dstParts[0], dstParts[1]))
  }

  /** The flow key of a label triple: "srcIP+dstIP:dstPort". */
  function LabelKey(l: Labels): string
  {
    l.srcIP + "+" + l.dstIP + ":" + l.dstPort
  }

  /** Labels that survive the round trip through a key: no separators inside. */
  predicate PlainLabels(l: Labels)
  {
    '+' !in l.srcIP && '+' !in l.dstIP && ':' !in l.dstIP && Plain(l.dstPort)
  }

  /** Splitting the key of plain labels gives the labels back. */
  lemma KeyLabelsOfLabelKey(l: Labels)
    requires PlainLabels(l)
    ensures KeyLabels(LabelKey(l)) == Some(l)
  {
    var dst := l.dstIP + ":" + l.dstPort;
    SplitTwo(l.dstIP, l.dstPort, ':');
    LabelKeyParts(l);
    assert '+' !in dst;
    SplitTwo(l.srcIP, dst, '+');
  }

  /** A key that splits into labels is rebuilt from them, and the labels are plain. */
  lemma LabelKeyOfKeyLabels(key: string)
    requires KeyLabels(key).Some?
    ensures LabelKey(KeyLabels(key).value) == key
    ensures PlainLabels(KeyLabels(key).value)
  {
    var halves := Split(key, '+');
    var dstParts := Split(halves[1], ':');
    var l := Labels(halves[0], dstParts[0], dstParts[1]);
    assert KeyLabels(key) == Some(l);
    SplitOfTwo(key, '+');
    SplitOfTwo(halves[1], ':');
    NotInPieces(dstParts[0], dstParts[1], ':', '+');
    LabelKeyParts(l);
  }

  lemma LabelKeyParts(l: Labels)
    ensures LabelKey(l) == l.srcIP + "+" + (l.dstIP + ":" + l.dstPort)
  {
  }

  /** Two keys with the same labels are the same key. */
  lemma KeyLabelsInjective(k1: string, k2: string)
    requires KeyLabels(k1).Some? && KeyLabels(k1) == KeyLabels(k2)
    ensures k1 == k2
  {
    LabelKeyOfKeyLabels(k1);
    LabelKeyOfKeyLabels(k2);
  }

  /** For a destination with exactly one ':' (and a source without '+', which the parser
      guarantees), the sweep's split of the stored key recovers the labels the gauge was set with. */
  lemma SampleKeyRoundTrip(s: Sample)
    requires '+' !in s.srcIP && '+' !in s.dst
    requires Split(s.dst, ':') == [s.dstIP, s.dstPort]
    ensures KeyLabels(s.Key()) == Some(s.Labels())
  {
    SplitOfTwo(s.dst, ':');
    NotInPieces(s.dstIP, s.dstPort, ':', '+');
    LabelKeyParts(s.Labels());
    assert LabelKey(s.Labels()) == s.Key();
    KeyLabelsOfLabelKey(s.Labels());
  }

  /** The table and the gauge agree: every tracker is filed under its own name, has been
      appended to, holds at most a window of samples and has a splittable key; the gauge has
      exactly one series per flow, holding that flow's median. */
  predicate Consistent(st: Exporter)
  {
    TrackersAgree(st) && SeriesBacked(st)
  }

  predicate TrackersAgree(st: Exporter)
  {
    forall k :: k in st.flows ==>
      && st.flows[k].flow == k
      && st.flows[k].lastUpdated.Some?
      && 0 < |st.flows[k].samples| <= WindowSize
      && KeyLabels(k).Some?
      && KeyLabels(k).value in st.gauge
      && st.gauge[KeyLabels(k).value] == Median(st.flows[k].samples)
  }

  predicate SeriesBacked(st: Exporter)
  {
    forall l :: l in st.gauge ==> PlainLabels(l) && LabelKey(l) in st.flows
  }

  /** Whether the sweep at time `now` raises: some idle flow's key does not split into a
      label triple (the tuple unpacking raises `ValueError`), or the gauge has no series for
      its labels (`remove` raises `KeyError`). Either ends the expiry loop. */
  predicate SweepFails(st: Exporter, now: real)
    requires forall k :: k in st.flows ==> st.flows[k].lastUpdated.Some?
  {
    exists k :: k in st.flows && Idle(st.flows[k], now) && (KeyLabels(k).None? || KeyLabels(k).value !in st.gauge)
  }

  /** The sweep at time `now`: every idle flow leaves the table and its gauge series goes;
      None when the sweep raises. Trackers are filed under their own names and have been
      appended to, as `setdefault` followed by `append` leaves them. */
  function Expire(st: Exporter, now: real): (r: Option<Exporter>)
    requires forall k :: k in st.flows ==> st.flows[k].flow == k && st.flows[k].lastUpdated.Some?
    ensures r.None? <==> SweepFails(st, now)
    ensures r.Some? ==> forall k :: k in r.value.flows <==> k in st.flows && !Idle(st.flows[k], now)
    ensures r.Some? ==> forall k :: k in r.value.flows ==> r.value.flows[k] == st.flows[k]
    ensures r.Some? ==> forall k :: k in st.flows && Idle(st.flows[k], now) ==> KeyLabels(k).value !in r.value.gauge
    ensures r.Some? ==> forall l :: l in r.value.gauge ==> l in st.gauge && r.value.gauge[l] == st.gauge[l]
    ensures r.Some? ==> forall l :: l in st.gauge ==>
      (l !in r.value.gauge <==> exists k :: k in st.flows && Idle(st.flows[k], now) && KeyLabels(k) == Some(l))
    ensures r.Some? ==> forall l :: l in st.gauge && LabelKey(l) in r.value.flows ==> l in r.value.gauge
  {
    if SweepFails(st, now) then None
    else
      var gone := set k | k in st.flows && Idle(st.flows[k], now);
      var goneLabels := set k | k in gone :: KeyLabels(k).value;
      var r := Exporter(map k | k in st.flows && k !in gone :: st.flows[k], st.gauge - goneLabels);
      assert forall l :: l in st.gauge && LabelKey(l) in r.flows ==> l in r.gauge by {
        forall l | l in st.gauge && LabelKey(l) in r.flows
          ensures l !in goneLabels
        {
          if l in goneLabels {
            var k :| k in gone && KeyLabels(k).value == l;
            LabelKeyOfKeyLabels(k);
          }
        }
      }
      forall l | l in st.gauge
        ensures l !in r.gauge <==> exists k :: k in st.flows && Idle(st.flows[k], now) && KeyLabels(k) == Some(l)
      {
        if l in goneLabels {
          var k :| k in gone && KeyLabels(k).value == l;
          assert KeyLabels(k) == Some(l);
        }
      }
      Some(r)
  }

  /** Ingesting a line keeps the table and the gauge in agreement, provided an accepted
      destination has exactly one ':' (otherwise the later sweep could not split its key). */
  lemma IngestKeepsConsistent(env: Env, st: Exporter, line: string, now: real)
    requires Consistent(st)
    requires ParseLine(env, line).Accepted? ==> |Split(ParseLine(env, line).sample.dst, ':')| == 2
    ensures Consistent(Ingest(env, st, line, now))
  {
    if ParseLine(env, line).Accepted? {
      var s := ParseLine(env, line).sample;
      assert '+' !in s.srcIP && '+' !in s.dst;
      assert Split(s.dst, ':') == [s.dstIP, s.dstPort];
      RecordKeepsConsistent(st, s, now);
    }
  }

  lemma RecordKeepsConsistent(st: Exporter, s: Sample, now: real)
    requires Consistent(st)
    requires '+' !in s.srcIP && '+' !in s.dst
    requires Split(s.dst, ':') == [s.dstIP, s.dstPort]
    ensures Consistent(Record(st, s, now))
  {
    SampleKeyRoundTrip(s);
    LabelKeyOfKeyLabels(s.Key());
    RecordTrackersAgree(st, s, now);
    RecordSeriesBacked(st, s, now);
  }

  lemma RecordTrackersAgree(st: Exporter, s: Sample, now: real)
    requires TrackersAgree(st)
    requires KeyLabels(s.Key()) == Some(s.Labels())
    ensures TrackersAgree(Record(st, s, now))
  {
    var r := Record(st, s, now);
    var key := s.Key();
    forall k | k in r.flows
      ensures r.flows[k].flow == k && r.flows[k].lastUpdated.Some?
      ensures 0 < |r.flows[k].samples| <= WindowSize
      ensures KeyLabels(k).Some? && KeyLabels(k).value in r.gauge
      ensures r.gauge[KeyLabels(k).value] == Median(r.flows[k].samples)
    {
      if k != key {
        assert r.flows[k] == st.flows[k];
        if KeyLabels(k).value == s.Labels() {
          KeyLabelsInjective(k, key);
        }
        assert r.gauge[KeyLabels(k).value] == st.gauge[KeyLabels(k).value];
      }
    }
  }

  lemma RecordSeriesBacked(st: Exporter, s: Sample, now: real)
    requires SeriesBacked(st)
    requires PlainLabels(s.Labels()) && LabelKey(s.Labels()) == s.Key()
    ensures SeriesBacked(Record(st, s, now))
  {
    var r := Record(st, s, now);
    forall l | l in r.gauge
      ensures PlainLabels(l) && LabelKey(l) in r.flows
    {
      if l != s.Labels() {
        assert l in st.gauge;
      }
    }
  }

  /** In a consistent exporter the sweep never raises, and it keeps the table and the
      gauge in agreement. */
  lemma ExpireKeepsConsistent(st: Exporter, now: real)
    requires Consistent(st)
    ensures Expire(st, now).Some?
    ensures Consistent(Expire(st, now).value)
  {
    ExpireTrackersAgree(st, now);
    ExpireSeriesBacked(st, now);
  }

  lemma ExpireTrackersAgree(st: Exporter, now: real)
    requires TrackersAgree(st)
    ensures Expire(st, now).Some?
    ensures TrackersAgree(Expire(st, now).value)
  {
    var r := Expire(st, now).value;
    forall k | k in r.flows
      ensures KeyLabels(k).value in r.gauge
    {
      LabelKeyOfKeyLabels(k);
    }
  }

  lemma ExpireSeriesBacked(st: Exporter, now: real)
    requires TrackersAgree(st) && SeriesBacked(st)
    ensures SeriesBacked(Expire(st, now).value)
  {
    ExpireTrackersAgree(st, now);
    var r := Expire(st, now).value;
    forall l | l in r.gauge
      ensures LabelKey(l) in r.flows
    {
      KeyLabelsOfLabelKey(l);
    }
  }

  /** In a consistent exporter, the gauge series are exactly the labels of the live flows. */
  lemma GaugeMirrorsFlows(st: Exporter)
    requires Consistent(st)
    ensures forall l :: l in st.gauge <==> exists k :: k in st.flows && KeyLabels(k) == Some(l)
  {
    forall l | l in st.gauge
      ensures exists k :: k in st.flows && KeyLabels(k) == Some(l)
    {
      KeyLabelsOfLabelKey(l);
    }
  }

  /** Concrete scenario: pping's line
      "1567578632.260233 0.001452 0.001452 74 0 66 10.0.0.254:40622+100.200.3.38:9000"
      creates the flow keyed "10.0.0.254+100.200.3.38:9000" with median 1.452 ms when the source is
      outside the excluded subnet, and creates nothing when it is inside. */
  lemma ExampleLine(env: Env, words: seq<string>, now: real)
    requires words == ["1567578632.260233", "0.001452", "0.001452", "74", "0", "66",
                       FlowField("10.0.0.254", "40622", "100.200.3.38", "9000")]
    requires env.parseFloat("0.001452") == Some(0.001452) && env.isAddress("10.0.0.254")
    ensures var r := Ingest(env, Exporter(map[], map[]), Join(words, ' '), now);
      !env.inSubnet("10.0.0.254") ==>
        && r.flows.Keys == {LabelKey(Labels("10.0.0.254", "100.200.3.38", "9000"))}
        && r.gauge.Keys == {Labels("10.0.0.254", "100.200.3.38", "9000")}
        && r.gauge[Labels("10.0.0.254", "100.200.3.38", "9000")] == 1.452
    ensures env.inSubnet("10.0.0.254") ==>
      Ingest(env, Exporter(map[], map[]), Join(words, ' '), now) == Exporter(map[], map[])
  {
    var srcIP, srcPort, dstIP, dstPort := "10.0.0.254", "40622", "100.200.3.38", "9000";
    ExampleWords(words);
    FirstLineOfFlow(env, words, srcIP, srcPort, dstIP, dstPort, now);
    assert 0.001452 * 1000.0 == 1.452;
  }

  /** The example line's fields are words and its flow field is made of plain parts. */
  lemma ExampleWords(words: seq<string>)
    requires words == ["1567578632.260233", "0.001452", "0.001452", "74", "0", "66",
                       FlowField("10.0.0.254", "40622", "100.200.3.38", "9000")]
    ensures forall i :: 0 <= i < 7 ==> IsWord(words[i])
    ensures Plain("10.0.0.254") && Plain("40622") && Plain("100.200.3.38") && Plain("9000")
  {
    ExampleNumbersAreWords();
    ExampleEndpoints();
    FlowFieldIsWord("10.0.0.254", "40622", "100.200.3.38", "9000");
  }

  lemma ExampleNumbersAreWords()
    ensures IsWord("1567578632.260233") && IsWord("0.001452") && IsWord("74")
    ensures IsWord("0") && IsWord("66")
  {
  }

  lemma ExampleEndpoints()
    ensures IsWord("10.0.0.254") && IsWord("40622") && IsWord("100.200.3.38") && IsWord("9000")
    ensures Plain("10.0.0.254") && Plain("40622") && Plain("100.200.3.38") && Plain("9000")
  {
  }

  /** A well-formed line fed to an empty exporter creates exactly its flow and one series
      holding that one RTT, or nothing at all when its source is excluded. */
  lemma FirstLineOfFlow(env: Env, words: seq<string>,
                        srcIP: string, srcPort: string, dstIP: string, dstPort: string, now: real)
    requires |words| == 7 && forall i :: 0 <= i < 7 ==> IsWord(words[i])
    requires words[6] == FlowField(srcIP, srcPort, dstIP, dstPort)
    requires Plain(srcIP) && Plain(srcPort) && Plain(dstIP) && Plain(dstPort)
    requires env.parseFloat(words[1]).Some?
    requires env.isAddress(srcIP) && dstPort != ""
    ensures !env.inSubnet(srcIP) ==>
      Ingest(env, Exporter(map[], map[]), Join(words, ' '), now).flows.Keys == {LabelKey(Labels(srcIP, dstIP, dstPort))}
    ensures !env.inSubnet(srcIP) ==>
      var gauge := Ingest(env, Exporter(map[], map[]), Join(words, ' '), now).gauge;
      gauge.Keys == {Labels(srcIP, dstIP, dstPort)} &&
      gauge[Labels(srcIP, dstIP, dstPort)] == env.parseFloat(words[1]).value * 1000.0
    ensures env.inSubnet(srcIP) ==>
      Ingest(env, Exporter(map[], map[]), Join(words, ' '), now) == Exporter(map[], map[])
  {
    ParseWellFormedLine(env, words, srcIP, srcPort, dstIP, dstPort);
    if !env.inSubnet(srcIP) {
      var sample := Sample(srcIP, dstIP + ":" + dstPort, dstIP, dstPort, env.parseFloat(words[1]).value * 1000.0);
      KeyOfJoinedDst(sample);
      RecordIntoEmpty(sample, now);
    }
  }

  /** The first sample of an empty exporter creates its flow and a series holding that sample. */
  lemma RecordIntoEmpty(s: Sample, now: real)
    ensures Record(Exporter(map[], map[]), s, now).flows.Keys == {s.Key()}
    ensures Record(Exporter(map[], map[]), s, now).gauge.Keys == {s.Labels()}
    ensures Record(Exporter(map[], map[]), s, now).gauge[s.Labels()] == s.rttMillis
  {
    var r := Record(Exporter(map[], map[]), s, now);
    assert r.flows[s.Key()].samples == [s.rttMillis];
    MedianOfOne(s.rttMillis);
  }

  lemma KeyOfJoinedDst(s: Sample)
    requires s.dst == s.dstIP + ":" + s.dstPort
    ensures s.Key() == LabelKey(s.Labels())
  {
  }
}
