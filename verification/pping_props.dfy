/**
 Properties of the C++ exporter's tables over sequences of packets and
 clean-ups: the bookkeeping invariant, the absence of the `out_of_range`
 exception when TSvals do not outlive flows, the `invalid_address` exception of
 the local-range test, the minimum RTT bound, and the summaries a clean-up
 deletes.
 */
module PpingProperties {
  import opened Wrappers
  import opened Strings
  import opened MetricLabels
  import FlowLabels
  import opened Pping

  /** The flow a TSval table key belongs to: everything before its last '+'. */
  function TsFlow(key: string): string
  {
    match RFind(key, '+')
    case None => key
    case Some(i) => key[..i]
  }

  lemma DecimalStringPlain(n: nat)
    ensures '+' !in DecimalString(n) && ':' !in DecimalString(n)
  {
  }

  lemma TsFlowOfKey(f: string, ts: TsVal)
    ensures TsFlow(TsKey(f, ts)) == f
  {
    var k := TsKey(f, ts);
    DecimalStringPlain(ts);
    assert k[|f| + 1..] == DecimalString(ts);
    RFindAt(k, '+', |f|);
    assert k[..|f|] == f;
  }

  /** Every flow record carries its own name. */
  predicate NamesMatch(st: State)
  {
    forall k :: k in st.flows ==> st.flows[k].name == k
  }

  /** Every unused TSval entry belongs to a known flow and is no later than that flow's
      last activity, so its match can always reach the flow's record. */
  predicate Matchable(st: State)
  {
    forall k :: k in st.tsTbl && st.tsTbl[k].t > 0.0 ==>
      TsFlow(k) in st.flows && st.tsTbl[k].t <= st.flows[TsFlow(k)].lastTm
  }

  /** Flow records carry their names, and the flow count is the number of records and
      within the admission bound. */
  predicate Counted(cfg: Config, st: State)
  {
    && NamesMatch(st)
    && st.flowCnt == |st.flows|
    && st.flowCnt <= Capacity(cfg)
  }

  /** The tables' bookkeeping, with every unused entry matchable. */
  predicate Inv(cfg: Config, st: State)
  {
    Counted(cfg, st) && Matchable(st)
  }

  /** No flow was active after time `t`. */
  predicate NotAfter(st: State, t: real)
  {
    forall k :: k in st.flows ==> st.flows[k].lastTm <= t
  }

  /** The tables at start-up. */
  function Initial(): (st: State)
    ensures forall cfg: Config :: Inv(cfg, st)
    ensures NotAfter(st, 0.0)
  {
    State(map[], map[], 0, 0)
  }

  /** A packet never throws `out_of_range` while every unused TSval entry's flow is known:
      the entry a packet matches belongs to its reverse flow. */
  lemma StepNeverThrows(cfg: Config, st: State, p: Packet)
    requires Matchable(st)
    ensures !ProcessPacket(cfg, st, p).OutOfRange?
  {
    if ProcessPacket(cfg, st, p).OutOfRange? {
      TsFlowOfKey(ReverseOf(p), p.tsecr);
      TsFlowOfKey(FlowOf(p), p.tsval);
    }
  }

  /** An unused entry after a packet was either unused before, or is the packet's own
      TSval; either way its flow is known and was active no earlier. */
  lemma EntryStaysMatchable(cfg: Config, st: State, p: Packet, k: string)
    requires Matchable(st) && NotAfter(st, p.capTm)
    requires ProcessPacket(cfg, st, p).Next?
    requires k in ProcessPacket(cfg, st, p).st.tsTbl && ProcessPacket(cfg, st, p).st.tsTbl[k].t > 0.0
    ensures var st2 := ProcessPacket(cfg, st, p).st;
      TsFlow(k) in st2.flows && st2.tsTbl[k].t <= st2.flows[TsFlow(k)].lastTm
  {
    var st2 := ProcessPacket(cfg, st, p).st;
    if !Handled(cfg, st, p) {
      assert st2 == st;
    } else {
      TsFlowOfKey(FlowOf(p), p.tsval);
      MatchableEntryAfter(st, st2, FlowOf(p), TsKey(FlowOf(p), p.tsval), p.capTm, k);
    }
  }

  /** The step of `EntryStaysMatchable` over any pair of tables: entries are kept or marked
      used, at most one entry `added` of flow `f` appears, and only `f` is touched, at time `t`. */
  lemma MatchableEntryAfter(st: State, st2: State, f: string, added: string, t: real, k: string)
    requires Matchable(st) && NotAfter(st, t)
    requires k in st2.tsTbl && st2.tsTbl[k].t > 0.0
    requires forall j :: j in st.tsTbl ==> j in st2.tsTbl && SameOrUsed(st.tsTbl[j], st2.tsTbl[j])
    requires st2.tsTbl.Keys <= st.tsTbl.Keys + {added}
    requires forall j :: j in st2.tsTbl && j !in st.tsTbl ==> st2.tsTbl[j].t <= t
    requires TsFlow(added) == f && f in st2.flows && st2.flows[f].lastTm == t
    requires forall j :: j in st.flows ==> j in st2.flows && (j != f ==> st2.flows[j].lastTm == st.flows[j].lastTm)
    ensures TsFlow(k) in st2.flows && st2.tsTbl[k].t <= st2.flows[TsFlow(k)].lastTm
  {
    if k in st.tsTbl {
      assert st2.tsTbl[k] == st.tsTbl[k];
      var g := TsFlow(k);
      assert g in st.flows && st.tsTbl[k].t <= st.flows[g].lastTm;
    }
  }

  /** After a packet no flow was active later than the packet's capture time. */
  lemma StepKeepsClock(cfg: Config, st: State, p: Packet)
    requires NotAfter(st, p.capTm)
    requires ProcessPacket(cfg, st, p).Next?
    ensures NotAfter(ProcessPacket(cfg, st, p).st, p.capTm)
  {
    var st2 := ProcessPacket(cfg, st, p).st;
    forall k | k in st2.flows
      ensures st2.flows[k].lastTm <= p.capTm
    {
      if k in st.flows && k != FlowOf(p) {
        assert st2.flows[k].lastTm == st.flows[k].lastTm;
      }
    }
  }

  lemma StepKeepsMatchable(cfg: Config, st: State, p: Packet)
    requires Matchable(st) && NotAfter(st, p.capTm)
    requires ProcessPacket(cfg, st, p).Next?
    ensures Matchable(ProcessPacket(cfg, st, p).st)
  {
    var st2 := ProcessPacket(cfg, st, p).st;
    forall k | k in st2.tsTbl && st2.tsTbl[k].t > 0.0
      ensures TsFlow(k) in st2.flows && st2.tsTbl[k].t <= st2.flows[TsFlow(k)].lastTm
    {
      EntryStaysMatchable(cfg, st, p, k);
    }
  }

  /** A packet adds a flow record exactly when it creates a flow. */
  lemma StepCardinality(cfg: Config, st: State, p: Packet)
    requires ProcessPacket(cfg, st, p).Next?
    ensures |ProcessPacket(cfg, st, p).st.flows|
      == |st.flows| + (if Handled(cfg, st, p) && FlowOf(p) !in st.flows then 1 else 0)
  {
    var r := ProcessPacket(cfg, st, p);
    if Handled(cfg, st, p) {
      KeysGrow(st.flows, r.st.flows, FlowOf(p));
    } else {
      assert r.st == st;
    }
  }

  /** Adding a key to a map's key set adds one to its size unless the key was there. */
  lemma KeysGrow<V>(m: map<string, V>, m2: map<string, V>, f: string)
    requires m2.Keys == m.Keys + {f}
    ensures |m2| == |m| + (if f in m then 0 else 1)
  {
    assert |m2| == |m2.Keys| && |m| == |m.Keys|;
    if f in m {
      assert m.Keys + {f} == m.Keys;
    }
  }

  lemma StepKeepsCount(cfg: Config, st: State, p: Packet)
    requires Counted(cfg, st) && ProcessPacket(cfg, st, p).Next?
    ensures Counted(cfg, ProcessPacket(cfg, st, p).st)
  {
    var r := ProcessPacket(cfg, st, p);
    if Handled(cfg, st, p) {
      var added := FlowOf(p) !in st.flows;
      assert added ==> st.flowCnt <= cfg.maxFlows && r.st.flows[FlowOf(p)].name == FlowOf(p);
      CountedAfter(cfg, st, r.st, FlowOf(p), added);
    } else {
      assert r.st == st;
    }
  }

  /** The bookkeeping survives a change that keeps every record's name and adds at most
      one new, correctly named record while counting it within the admission bound. */
  lemma CountedAfter(cfg: Config, st: State, st2: State, f: string, added: bool)
    requires Counted(cfg, st)
    requires st2.flows.Keys == st.flows.Keys + {f} && added == (f !in st.flows)
    requires added ==> st.flowCnt <= cfg.maxFlows && st2.flows[f].name == f
    requires forall k :: k in st.flows ==> st2.flows[k].name == st.flows[k].name
    requires st2.flowCnt == st.flowCnt + (if added then 1 else 0)
    ensures Counted(cfg, st2)
  {
    KeysGrow(st.flows, st2.flows, f);
  }

  /** A packet of a flow not (yet) known to be two-way only notes its capture time on the
      flow's record (creating and counting the record first if needed) and counts as
      one-way: no TSval is stored and no RTT is produced. */
  lemma OneWayPacket(cfg: Config, st: State, p: Packet)
    requires Handled(cfg, st, p) && !TwoWay(st, p)
    ensures var r := ProcessPacket(cfg, st, p);
      var f := FlowOf(p);
      && r.Next? && r.sample.None?
      && r.st.tsTbl == st.tsTbl
      && r.st.uniDir == st.uniDir + 1
      && r.st.flowCnt == st.flowCnt + (if f in st.flows then 0 else 1)
      && r.st.flows == st.flows[f := (if f in st.flows then st.flows[f] else NewFlow(f)).(lastTm := p.capTm)]
  {
    var f := FlowOf(p);
    var fr := if f in st.flows then st.flows[f] else NewFlow(f);
    OneWayAdmit(cfg, st, p);
    var st1 := st.(flows := st.flows[f := fr], flowCnt := st.flowCnt + (if f in st.flows then 0 else 1));
    assert ProcessPacket(cfg, st, p) == Touch(cfg, st1, p);
    OneWayTouch(cfg, st1, p);
    assert st1.flows[f := fr.(lastTm := p.capTm)] == st.flows[f := fr.(lastTm := p.capTm)];
  }

  /** Admitting a packet of a flow not known to be two-way files a one-way record under
      its name and changes nothing else but the count. */
  lemma OneWayAdmit(cfg: Config, st: State, p: Packet)
    requires Handled(cfg, st, p) && !TwoWay(st, p)
    ensures var f := FlowOf(p);
      Admit(cfg, st, p) == Some(st.(flows := st.flows[f := if f in st.flows then st.flows[f] else NewFlow(f)],
                                    flowCnt := st.flowCnt + (if f in st.flows then 0 else 1)))
  {
    var f := FlowOf(p);
    if f !in st.flows {
      var st1 := Admit(cfg, st, p).value;
      assert st1.flows == st.flows[f := NewFlow(f)];
    } else {
      assert st.flows[f := st.flows[f]] == st.flows;
    }
  }

  /** A registered one-way flow's packet only notes its capture time and counts as one-way. */
  lemma OneWayTouch(cfg: Config, st: State, p: Packet)
    requires FlowOf(p) in st.flows && !st.flows[FlowOf(p)].revFlow
    ensures Touch(cfg, st, p) ==
      Next(st.(flows := st.flows[FlowOf(p) := st.flows[FlowOf(p)].(lastTm := p.capTm)], uniDir := st.uniDir + 1), None)
  {
  }

  /** One packet, no flow having been active after its capture time: it throws only when a
      two-way flow's destination fails the address parse of the local-range test, and
      otherwise keeps the invariant. */
  lemma StepKeepsInv(cfg: Config, st: State, p: Packet)
    requires Inv(cfg, st) && NotAfter(st, p.capTm)
    ensures ProcessPacket(cfg, st, p).Next? <==> !(Handled(cfg, st, p) && TwoWay(st, p) && BadDestination(cfg, p))
    ensures ProcessPacket(cfg, st, p).Next? ==>
      Inv(cfg, ProcessPacket(cfg, st, p).st) && NotAfter(ProcessPacket(cfg, st, p).st, p.capTm)
  {
    StepNeverThrows(cfg, st, p);
    if ProcessPacket(cfg, st, p).Next? {
      StepKeepsMatchable(cfg, st, p);
      StepKeepsClock(cfg, st, p);
      StepKeepsCount(cfg, st, p);
    }
  }

  /** A clean-up keeps the invariant when TSval entries are not kept longer than flows:
      an entry that survives then always finds its flow still present. */
  lemma CleanUpKeepsInv(cfg: Config, st: State, n: real)
    requires Inv(cfg, st) && cfg.tsvalMaxAge <= cfg.flowMaxIdle
    ensures Inv(cfg, CleanUp(cfg, st, n).st)
  {
    var st2 := CleanUp(cfg, st, n).st;
    forall k | k in st2.tsTbl && st2.tsTbl[k].t > 0.0
      ensures TsFlow(k) in st2.flows && st2.tsTbl[k].t <= st2.flows[TsFlow(k)].lastTm
    {
      assert st2.tsTbl[k] == st.tsTbl[k];
      assert !Expired(cfg, st.flows[TsFlow(k)], n);
    }
  }

  /** What happens to the tables: a packet arrives, or a clean-up runs at time `n`. */
  datatype Event = Arrive(p: Packet) | CleanAt(n: real)

  /** The result of a sequence of events: the final tables, the RTT samples in order and
      the deleted summaries, or the exception. */
  datatype Outcome = Ran(st: State, samples: seq<RttSample>, deleted: set<Labels>) | Aborted

  /** The RTT lines one packet prints: none or one. */
  function Printed(s: Option<RttSample>): seq<RttSample>
  {
    if s.Some? then [s.value] else []
  }

  function Run(cfg: Config, st: State, evs: seq<Event>): Outcome
    decreases |evs|
  {
    if |evs| == 0 then Ran(st, [], {})
    else match evs[0]
      case Arrive(p) =>
        (match ProcessPacket(cfg, st, p)
         case OutOfRange => Aborted
         case InvalidAddress => Aborted
         case Next(st1, s) =>
           match Run(cfg, st1, evs[1..])
           case Aborted => Aborted
           case Ran(st2, ss, d) => Ran(st2, Printed(s) + ss, d))
      case CleanAt(n) =>
        var c := CleanUp(cfg, st, n);
        match Run(cfg, c.st, evs[1..])
        case Aborted => Aborted
        case Ran(st2, ss, d) => Ran(st2, ss, c.deleted + d)
  }

  /** Packets arrive in capture order, none earlier than `t`. */
  predicate InOrder(evs: seq<Event>, t: real)
    decreases |evs|
  {
    |evs| == 0 ||
    match evs[0]
    case Arrive(p) => t <= p.capTm && InOrder(evs[1..], p.capTm)
    case CleanAt(_) => InOrder(evs[1..], t)
  }

  /** Every packet of the run passes the local-range test's address parse (trivially so
      when local destinations are not filtered). */
  predicate DestinationsParse(cfg: Config, evs: seq<Event>)
  {
    forall i :: 0 <= i < |evs| && evs[i].Arrive? ==> !BadDestination(cfg, evs[i].p)
  }

  lemma DestinationsParseRest(cfg: Config, evs: seq<Event>)
    requires |evs| > 0 && DestinationsParse(cfg, evs)
    ensures DestinationsParse(cfg, evs[1..])
  {
    assert forall i :: 0 <= i < |evs[1..]| ==> evs[1..][i] == evs[i + 1];
  }

  lemma NotAfterLater(st: State, t: real, u: real)
    requires NotAfter(st, t) && t <= u
    ensures NotAfter(st, u)
  {
  }

  /** With `tsvalMaxAge <= flowMaxIdle` (the defaults are 10 s and 300 s), packets in
      capture order, and every destination an IPv4 address whenever local destinations
      are filtered, no interleaving of packets and clean-ups throws, and the invariant
      holds throughout. */
  lemma {:induction false} RunNeverAborts(cfg: Config, st: State, evs: seq<Event>, t: real)
    requires Inv(cfg, st) && NotAfter(st, t) && InOrder(evs, t)
    requires cfg.tsvalMaxAge <= cfg.flowMaxIdle
    requires DestinationsParse(cfg, evs)
    ensures Run(cfg, st, evs).Ran?
    ensures Inv(cfg, Run(cfg, st, evs).st)
    decreases |evs|
  {
    if |evs| > 0 {
      DestinationsParseRest(cfg, evs);
      match evs[0]
      case Arrive(p) =>
        NotAfterLater(st, t, p.capTm);
        StepKeepsInv(cfg, st, p);
        RunNeverAborts(cfg, ProcessPacket(cfg, st, p).st, evs[1..], p.capTm);
      case CleanAt(n) =>
        CleanUpKeepsInv(cfg, st, n);
        RunNeverAborts(cfg, CleanUp(cfg, st, n).st, evs[1..], t);
    }
  }

  lemma CleanUpKeepsCount(cfg: Config, st: State, n: real)
    requires Counted(cfg, st)
    ensures Counted(cfg, CleanUp(cfg, st, n).st)
  {
    var st2 := CleanUp(cfg, st, n).st;
    assert st2.flows.Keys <= st.flows.Keys;
    SubsetCard(st2.flows.Keys, st.flows.Keys);
  }

  lemma SubsetCard<T>(a: set<T>, b: set<T>)
    requires a <= b
    ensures |a| <= |b|
  {
    assert b == a + (b - a);
  }

  /** Whatever the settings and the order of events, a completed run keeps the count. */
  lemma {:induction false} RunKeepsCount(cfg: Config, st: State, evs: seq<Event>)
    requires Counted(cfg, st)
    ensures Run(cfg, st, evs).Ran? ==> Counted(cfg, Run(cfg, st, evs).st)
    decreases |evs|
  {
    if |evs| > 0 && Run(cfg, st, evs).Ran? {
      match evs[0]
      case Arrive(p) =>
        StepKeepsCount(cfg, st, p);
        RunKeepsCount(cfg, ProcessPacket(cfg, st, p).st, evs[1..]);
      case CleanAt(n) =>
        CleanUpKeepsCount(cfg, st, n);
        RunKeepsCount(cfg, CleanUp(cfg, st, n).st, evs[1..]);
    }
  }

  /** The flow count is the number of flow records and never exceeds `maxFlows + 1`: the
      admission test lets a new flow in while the count is at most `maxFlows`. */
  lemma FlowCountBound(cfg: Config, evs: seq<Event>)
    ensures var o := Run(cfg, Initial(), evs);
      o.Ran? ==> |o.st.flows| == o.st.flowCnt <= Capacity(cfg)
  {
    RunKeepsCount(cfg, Initial(), evs);
  }

  /** A run of packets only (no clean-up in between). */
  predicate PacketsOnly(evs: seq<Event>)
  {
    forall i :: 0 <= i < |evs| ==> evs[i].Arrive?
  }

  /** A run that starts with a packet and completes: the packet's step, then the rest. */
  lemma RunArrive(cfg: Config, st: State, evs: seq<Event>)
    requires |evs| > 0 && evs[0].Arrive? && Run(cfg, st, evs).Ran?
    ensures ProcessPacket(cfg, st, evs[0].p).Next?
    ensures var r := ProcessPacket(cfg, st, evs[0].p);
      var rest := Run(cfg, r.st, evs[1..]);
      && rest.Ran?
      && Run(cfg, st, evs).st == rest.st
      && Run(cfg, st, evs).samples == Printed(r.sample) + rest.samples
  {
  }

  /** Over packets alone, no flow is forgotten and no flow's minimum RTT rises. */
  lemma {:induction false} MinimumNeverRises(cfg: Config, st: State, evs: seq<Event>)
    requires PacketsOnly(evs)
    ensures var o := Run(cfg, st, evs);
      o.Ran? ==> forall k :: k in st.flows ==> k in o.st.flows && o.st.flows[k].min <= st.flows[k].min
    decreases |evs|
  {
    if |evs| > 0 && Run(cfg, st, evs).Ran? {
      RunArrive(cfg, st, evs);
      assert PacketsOnly(evs[1..]) by {
        assert forall i :: 0 <= i < |evs[1..]| ==> evs[1..][i] == evs[i + 1];
      }
      MinimumNeverRises(cfg, ProcessPacket(cfg, st, evs[0].p).st, evs[1..]);
    }
  }

  /** A used TSval entry (negative time) survives every packet unchanged. */
  lemma {:induction false} UsedEntryStays(cfg: Config, st: State, evs: seq<Event>, k: string)
    requires PacketsOnly(evs) && k in st.tsTbl && st.tsTbl[k].t < 0.0
    ensures var o := Run(cfg, st, evs);
      o.Ran? ==> k in o.st.tsTbl && o.st.tsTbl[k] == st.tsTbl[k]
    decreases |evs|
  {
    if |evs| > 0 && Run(cfg, st, evs).Ran? {
      RunArrive(cfg, st, evs);
      assert PacketsOnly(evs[1..]) by {
        assert forall i :: 0 <= i < |evs[1..]| ==> evs[1..][i] == evs[i + 1];
      }
      var r := ProcessPacket(cfg, st, evs[0].p);
      assert SameOrUsed(st.tsTbl[k], r.st.tsTbl[k]);
      UsedEntryStays(cfg, r.st, evs[1..], k);
    }
  }

  /** Use-once matching: once a packet has produced an RTT from a TSval entry, no later
      packet looking up the same entry produces another, as long as no clean-up runs. */
  lemma MatchedOnce(cfg: Config, st: State, p: Packet, evs: seq<Event>, q: Packet)
    requires ProcessPacket(cfg, st, p).Next? && ProcessPacket(cfg, st, p).sample.Some?
    requires PacketsOnly(evs)
    requires TsKey(ReverseOf(q), q.tsecr) == TsKey(ReverseOf(p), p.tsecr)
    ensures var mid := Run(cfg, ProcessPacket(cfg, st, p).st, evs);
      mid.Ran? && ProcessPacket(cfg, mid.st, q).Next? ==> ProcessPacket(cfg, mid.st, q).sample.None?
  {
    UsedEntryStays(cfg, ProcessPacket(cfg, st, p).st, evs, TsKey(ReverseOf(p), p.tsecr));
  }

  /** The sample's flow is known in `st`, with a minimum no larger than the sample. */
  predicate BoundedBy(st: State, s: RttSample)
  {
    s.flow in st.flows && st.flows[s.flow].min <= s.rtt
  }

  predicate AllBounded(st: State, ss: seq<RttSample>)
  {
    forall i :: 0 <= i < |ss| ==> BoundedBy(st, ss[i])
  }

  lemma ConcatBounded(st: State, a: seq<RttSample>, b: seq<RttSample>)
    requires AllBounded(st, a) && AllBounded(st, b)
    ensures AllBounded(st, a + b)
  {
    forall i | 0 <= i < |a + b|
      ensures BoundedBy(st, (a + b)[i])
    {
      if i >= |a| {
        assert (a + b)[i] == b[i - |a|];
      }
    }
  }

  /** The sample a packet prints stays bounded as long as its flow's minimum does not rise. */
  lemma PrintedBounded(cfg: Config, st: State, p: Packet, later: State)
    requires ProcessPacket(cfg, st, p).Next?
    requires forall k :: k in ProcessPacket(cfg, st, p).st.flows ==>
      k in later.flows && later.flows[k].min <= ProcessPacket(cfg, st, p).st.flows[k].min
    ensures AllBounded(later, Printed(ProcessPacket(cfg, st, p).sample))
  {
  }

  /** Over packets alone, every RTT sample's flow is still known at the end, and the flow's
      final minimum is no larger than that sample. */
  lemma {:induction false} MinimumBoundsSamples(cfg: Config, st: State, evs: seq<Event>)
    requires PacketsOnly(evs)
    ensures Run(cfg, st, evs).Ran? ==> AllBounded(Run(cfg, st, evs).st, Run(cfg, st, evs).samples)
    decreases |evs|
  {
    if |evs| > 0 && Run(cfg, st, evs).Ran? {
      RunArrive(cfg, st, evs);
      assert PacketsOnly(evs[1..]) by {
        assert forall i :: 0 <= i < |evs[1..]| ==> evs[1..][i] == evs[i + 1];
      }
      var r := ProcessPacket(cfg, st, evs[0].p);
      var rest := Run(cfg, r.st, evs[1..]);
      MinimumBoundsSamples(cfg, r.st, evs[1..]);
      MinimumNeverRises(cfg, r.st, evs[1..]);
      PrintedBounded(cfg, st, evs[0].p, rest.st);
      ConcatBounded(rest.st, Printed(r.sample), rest.samples);
    }
  }

  /** The tables of the stranding scenario: the packet's flow active at `n`, its reverse
      flow last active `tsvalMaxAge` before `n` and holding one unused TSval from then. */
  function Stranding(cfg: Config, p: Packet, n: real): State
  {
    var t0 := n - cfg.tsvalMaxAge;
    State(
      map[FlowOf(p) := NewFlow(FlowOf(p)).(lastTm := n, revFlow := true),
          ReverseOf(p) := NewFlow(ReverseOf(p)).(lastTm := t0, revFlow := true)],
      map[TsKey(ReverseOf(p), p.tsecr) := TsInfo(t0, 0.0, 0.0)],
      2, 0)
  }

  lemma StrandingInv(cfg: Config, p: Packet, n: real)
    requires cfg.tsvalMaxAge > 0.0 && cfg.maxFlows >= 1 && FlowOf(p) != ReverseOf(p)
    ensures Inv(cfg, Stranding(cfg, p, n)) && NotAfter(Stranding(cfg, p, n), n)
  {
    var st := Stranding(cfg, p, n);
    TsFlowOfKey(ReverseOf(p), p.tsecr);
    assert st.flows.Keys == {FlowOf(p), ReverseOf(p)};
    assert |st.flows.Keys| == 2;
  }

  /** A clean-up of two flows, one idle and one not, keeps only the active one. */
  lemma CleanUpOfPair(cfg: Config, st: State, n: real, keep: string, drop: string, key: string)
    requires st.flows.Keys == {keep, drop} && keep != drop
    requires !Expired(cfg, st.flows[keep], n) && Expired(cfg, st.flows[drop], n)
    requires key in st.tsTbl && !Stale(cfg, st.tsTbl[key], n)
    ensures var c := CleanUp(cfg, st, n).st;
      && c.flows.Keys == {keep}
      && c.flows[keep] == st.flows[keep]
      && c.flowCnt == st.flowCnt - 1
      && key in c.tsTbl && c.tsTbl[key] == st.tsTbl[key]
  {
    CleanUpPairFlows(cfg, st, n, keep, drop);
  }

  lemma CleanUpPairFlows(cfg: Config, st: State, n: real, keep: string, drop: string)
    requires st.flows.Keys == {keep, drop} && keep != drop
    requires !Expired(cfg, st.flows[keep], n) && Expired(cfg, st.flows[drop], n)
    ensures var c := CleanUp(cfg, st, n).st;
      c.flows.Keys == {keep} && c.flowCnt == st.flowCnt - 1
  {
    var c := CleanUp(cfg, st, n).st;
    var u := Unexpired(cfg, st.flows, n);
    assert c.flows == u;
    forall k
      ensures k in u <==> k in st.flows && k != drop
    {
      UnexpiredPairMember(cfg, st.flows, n, keep, drop, k);
    }
    PairLosesOne(st.flows, u, keep, drop);
  }

  lemma UnexpiredPairMember(cfg: Config, flows: map<string, FlowRec>, n: real, keep: string, drop: string, k: string)
    requires flows.Keys == {keep, drop} && keep != drop
    requires !Expired(cfg, flows[keep], n) && Expired(cfg, flows[drop], n)
    ensures k in Unexpired(cfg, flows, n) <==> k in flows && k != drop
  {
    if k in flows {
      assert k == keep || k == drop;
    }
  }

  /** Removing one of two keys leaves the other alone. */
  lemma PairLosesOne<V>(m: map<string, V>, m2: map<string, V>, keep: string, drop: string)
    requires m.Keys == {keep, drop} && keep != drop
    requires forall k :: k in m2 <==> k in m && k != drop
    ensures m2.Keys == {keep} && |m| == 2 && |m2| == 1
  {
    assert |m| == |m.Keys| && |m2| == |m2.Keys|;
    assert m2.Keys == {keep};
  }

  /** The clean-up at `n` removes the reverse flow but keeps its TSval. */
  lemma StrandingCleanUp(cfg: Config, p: Packet, n: real)
    requires cfg.tsvalMaxAge > cfg.flowMaxIdle >= 0.0 && FlowOf(p) != ReverseOf(p)
    ensures var c := CleanUp(cfg, Stranding(cfg, p, n), n).st;
      && c.flows.Keys == {FlowOf(p)}
      && c.flows[FlowOf(p)].revFlow
      && c.flowCnt == 1
      && TsKey(ReverseOf(p), p.tsecr) in c.tsTbl
      && c.tsTbl[TsKey(ReverseOf(p), p.tsecr)].t == n - cfg.tsvalMaxAge
  {
    var st := Stranding(cfg, p, n);
    var f := FlowOf(p);
    var rev := ReverseOf(p);
    var lk := TsKey(rev, p.tsecr);
    assert st.flows.Keys == {f, rev};
    assert st.flows[f].lastTm == n && st.flows[f].revFlow;
    assert st.flows[rev].lastTm == n - cfg.tsvalMaxAge;
    assert st.tsTbl[lk].t == n - cfg.tsvalMaxAge;
    CleanUpOfPair(cfg, st, n, f, rev, lk);
  }

  /** The packet echoing the stranded TSval throws `out_of_range`, unless the range test
      has already thrown `invalid_address`. */
  lemma StrandedEntryThrows(cfg: Config, st: State, p: Packet)
    requires Timestamped(p) && FlowOf(p) in st.flows && st.flows[FlowOf(p)].revFlow
    requires ReverseOf(p) !in st.flows
    requires TsKey(ReverseOf(p), p.tsecr) in st.tsTbl && st.tsTbl[TsKey(ReverseOf(p), p.tsecr)].t > 0.0
    ensures ProcessPacket(cfg, st, p) == if BadDestination(cfg, p) then InvalidAddress else OutOfRange
  {
    var f := FlowOf(p);
    assert Admit(cfg, st, p) == Some(st);
    var fr := st.flows[f].(lastTm := p.capTm);
    var fw := Forward(cfg, st.(flows := st.flows[f := fr]), p);
    if fw.Some? {
      assert TsKey(ReverseOf(p), p.tsecr) in fw.value.tsTbl;
    }
  }

  /** The clean-up followed by the echoing packet aborts. */
  lemma StrandingRun(cfg: Config, p: Packet, n: real)
    requires cfg.tsvalMaxAge > cfg.flowMaxIdle >= 0.0
    requires n - cfg.tsvalMaxAge > 0.0
    requires Timestamped(p) && FlowOf(p) != ReverseOf(p)
    ensures Run(cfg, Stranding(cfg, p, n), [CleanAt(n), Arrive(p)]) == Aborted
  {
    StrandingCleanUp(cfg, p, n);
    StrandedEntryThrows(cfg, CleanUp(cfg, Stranding(cfg, p, n), n).st, p);
    AbortAfterCleanUp(cfg, Stranding(cfg, p, n), n, p);
  }

  lemma AbortAfterCleanUp(cfg: Config, st: State, n: real, p: Packet)
    requires !ProcessPacket(cfg, CleanUp(cfg, st, n).st, p).Next?
    ensures Run(cfg, st, [CleanAt(n), Arrive(p)]) == Aborted
  {
    var evs := [CleanAt(n), Arrive(p)];
    assert evs[1..] == [Arrive(p)];
    ArriveAborts(cfg, CleanUp(cfg, st, n).st, evs[1..]);
    CleanAtAborts(cfg, st, evs);
  }

  /** A run whose first packet throws is aborted. */
  lemma ArriveAborts(cfg: Config, st: State, evs: seq<Event>)
    requires |evs| > 0 && evs[0].Arrive? && !ProcessPacket(cfg, st, evs[0].p).Next?
    ensures Run(cfg, st, evs) == Aborted
  {
  }

  /** A run that starts with a clean-up is aborted when the rest aborts after it. */
  lemma CleanAtAborts(cfg: Config, st: State, evs: seq<Event>)
    requires |evs| > 0 && evs[0].CleanAt? && Run(cfg, CleanUp(cfg, st, evs[0].n).st, evs[1..]) == Aborted
    ensures Run(cfg, st, evs) == Aborted
  {
  }

  /** The condition `tsvalMaxAge <= flowMaxIdle` cannot be dropped: when TSvals outlive
      flows, a clean-up can remove a flow while keeping its unused TSval, and the next
      packet echoing that TSval throws `out_of_range` (its destination parsing, every
      other condition of `RunNeverAborts` holds). */
  lemma CleanUpCanStrandEntries(cfg: Config, p: Packet, n: real)
    requires cfg.tsvalMaxAge > cfg.flowMaxIdle >= 0.0 && cfg.maxFlows >= 1
    requires n - cfg.tsvalMaxAge > 0.0 && n <= p.capTm
    requires Timestamped(p) && FlowOf(p) != ReverseOf(p)
    ensures Inv(cfg, Stranding(cfg, p, n)) && NotAfter(Stranding(cfg, p, n), n)
    ensures InOrder([CleanAt(n), Arrive(p)], n)
    ensures DestinationsParse(cfg, [CleanAt(n), Arrive(p)]) <==> !BadDestination(cfg, p)
    ensures Run(cfg, Stranding(cfg, p, n), [CleanAt(n), Arrive(p)]) == Aborted
  {
    StrandingInv(cfg, p, n);
    StrandingRun(cfg, p, n);
    CleanThenArrive(cfg, p, n);
  }

  /** A clean-up at `n` followed by a packet captured no earlier is in order, and its
      destinations parse exactly when the packet's does. */
  lemma CleanThenArrive(cfg: Config, p: Packet, n: real)
    requires n <= p.capTm
    ensures InOrder([CleanAt(n), Arrive(p)], n)
    ensures DestinationsParse(cfg, [CleanAt(n), Arrive(p)]) <==> !BadDestination(cfg, p)
  {
    var evs := [CleanAt(n), Arrive(p)];
    assert evs[1..] == [Arrive(p)];
    assert [Arrive(p)][1..] == [];
    assert evs[1] == Arrive(p);
  }

  /** The packet answering `p` in the opposite direction. */
  predicate Reply(p: Packet, q: Packet)
  {
    q.srcIP == p.dstIP && q.srcPort == p.dstPort && q.dstIP == p.srcIP && q.dstPort == p.srcPort
  }

  /** The address condition of `RunNeverAborts` cannot be dropped: with local destinations
      filtered, the first reply of a new connection whose destination is not an IPv4
      address (any IPv6 one) makes the range test throw `invalid_address`, from empty
      tables and with packets in order. */
  lemma UnparsedDestinationAborts(cfg: Config, p: Packet, q: Packet)
    requires Reply(p, q) && Timestamped(p) && Timestamped(q) && FlowOf(p) != ReverseOf(p)
    requires cfg.maxFlows >= 1 && BadDestination(cfg, q)
    ensures p.capTm <= q.capTm ==> InOrder([Arrive(p), Arrive(q)], p.capTm)
    ensures Run(cfg, Initial(), [Arrive(p), Arrive(q)]) == Aborted
  {
    var evs := [Arrive(p), Arrive(q)];
    var st := Initial();
    OneWayPacket(cfg, st, p);
    var st1 := ProcessPacket(cfg, st, p).st;
    assert st1.flows.Keys == {FlowOf(p)};
    assert FlowOf(q) == ReverseOf(p) && ReverseOf(q) == FlowOf(p);
    assert ProcessPacket(cfg, st1, q) == InvalidAddress;
    assert evs[1..] == [Arrive(q)];
    ArriveAborts(cfg, st1, evs[1..]);
    assert [Arrive(q)][1..] == [];
  }

  /** Packet labels and flow names agree when the source address holds no '+' (no address
      text does) and the name fits in a `std::string`. */
  predicate PlainSource(p: Packet)
  {
    '+' !in p.srcIP && |FlowOf(p)| < FlowLabels.Npos
  }

  lemma FlowOfIsFlowName(p: Packet)
    ensures FlowOf(p) == FlowLabels.FlowName(p.srcIP, DecimalString(p.srcPort), p.dstIP, DecimalString(p.dstPort))
  {
  }

  /** The corrected parse recovers, from a flow's name, the labels its samples were
      observed on, so the corrected clean-up deletes exactly that flow's summary. */
  lemma CleanUpDeletesObservedSeries(cfg: Config, st: State, p: Packet, n: real)
    requires PlainSource(p)
    requires FlowOf(p) in st.flows && Expired(cfg, st.flows[FlowOf(p)], n)
    ensures FlowLabels.ParseFlowLabels(FlowOf(p)) == ObservedLabels(p)
    ensures ObservedLabels(p) in CleanUpCorrected(cfg, st, n).deleted
  {
    DecimalStringPlain(p.srcPort);
    DecimalStringPlain(p.dstPort);
    FlowOfIsFlowName(p);
    FlowLabels.ParseFlowLabelsOfName(p.srcIP, DecimalString(p.srcPort), p.dstIP, DecimalString(p.dstPort));
  }

  /** As written, `parseLabels` gives back the observed labels exactly when the source
      address has no ':': for IPv6 sources the deleted label set never matches the
      series, which therefore outlives its flow. */
  lemma ParseLabelsMatchesObservedIffNoColon(p: Packet)
    requires PlainSource(p)
    ensures FlowLabels.ParseLabels(FlowOf(p)) == ObservedLabels(p) <==> ':' !in p.srcIP
  {
    DecimalStringPlain(p.srcPort);
    DecimalStringPlain(p.dstPort);
    FlowOfIsFlowName(p);
    if ':' in p.srcIP {
      FlowLabels.ParseLabelsTruncatesColonSource(p.srcIP, DecimalString(p.srcPort), p.dstIP, DecimalString(p.dstPort));
    } else {
      FlowLabels.ParseLabelsOfIPv4Name(p.srcIP, DecimalString(p.srcPort), p.dstIP, DecimalString(p.dstPort));
    }
  }

  /** As written, the clean-up of an expired flow deletes the series `parseLabels` names,
      which is the one its RTTs were observed on exactly when the source address has no ':'. */
  lemma CleanUpDeletesParsedSeries(cfg: Config, st: State, p: Packet, n: real)
    requires PlainSource(p)
    requires FlowOf(p) in st.flows && Expired(cfg, st.flows[FlowOf(p)], n)
    ensures FlowLabels.ParseLabels(FlowOf(p)) in CleanUp(cfg, st, n).deleted
    ensures FlowLabels.ParseLabels(FlowOf(p)) == ObservedLabels(p) <==> ':' !in p.srcIP
  {
    ParseLabelsMatchesObservedIffNoColon(p);
  }
}
