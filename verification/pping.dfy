/**
 The table logic of the C++ exporter's packet handler: per-flow records keyed
 by "srcIP:srcPort+dstIP:dstPort", the TSval table keyed by flow name plus
 TSval, RTT samples from matching a packet's TSecr against the reverse flow's
 TSvals, and the periodic clean-up of both tables. Packets arrive already
 decoded; the capture clock, the address parser, the local-range test and the
 metric sink are outside the model.
 */
module Pping {
  import opened Wrappers
  import opened Strings
  import opened MetricLabels
  import FlowLabels
  import Cidr

  type Port = x: int | 0 <= x < 0x1_0000

  /** A TCP timestamp value (32 bits). */
  type TsVal = x: int | 0 <= x < 0x1_0000_0000

  /** Initial minimum RTT of a flow record (1e30 seconds). */
  const InitialMin: real := 1000000000000000000000000000000.0

  /** A flow record: last activity, minimum RTT, byte counters, and whether the
      reverse direction has been seen. */
  datatype FlowRec = FlowRec(
    name: string,
    lastTm: real,
    min: real,
    bytesSnt: real,
    lstBytesSnt: real,
    bytesDep: real,
    revFlow: bool)

  /** A TSval table entry: capture time (negated once matched) and byte counts. */
  datatype TsInfo = TsInfo(t: real, fBytes: real, dBytes: real)

  datatype State = State(
    flows: map<string, FlowRec>,
    tsTbl: map<string, TsInfo>,
    flowCnt: int,
    uniDir: int)

  /** Command-line settings. `parseAddr` stands for libtins' `IPv4Address` constructor, which
      the destination text passes through on its way to the range test (None where it throws
      `invalid_address`, as for every IPv6 address); `isLocal` stands for `ipRangesContains`
      over the local ranges. */
  datatype Config = Config(
    maxFlows: int,
    tsvalMaxAge: real,
    flowMaxIdle: real,
    filtLocal: bool,
    parseAddr: string -> Option<Cidr.Addr>,
    isLocal: Cidr.Addr -> bool)

  /** A decoded TCP packet carrying the timestamp option. `synOnly` holds when its flags
      are exactly SYN; `capTm` is its capture time and `size` its length in bytes. */
  datatype Packet = Packet(
    srcIP: string,
    srcPort: Port,
    dstIP: string,
    dstPort: Port,
    tsval: TsVal,
    tsecr: TsVal,
    synOnly: bool,
    capTm: real,
    size: nat)

  /** One printed RTT line, together with the labels of the summary it is observed on. */
  datatype RttSample = RttSample(
    flow: string,
    at: real,
    rtt: real,
    min: real,
    fBytes: real,
    dBytes: real,
    pBytes: real,
    labels: Labels)

  /** Result of handling one packet: the next state, or one of the two exceptions it can
      end in: `out_of_range` when the reverse flow's record is missing, `invalid_address`
      when the destination text is not an IPv4 address but must be tested against the
      local ranges. Neither is caught, so either ends the program. */
  datatype Step = Next(st: State, sample: Option<RttSample>) | OutOfRange | InvalidAddress

  function SrcName(p: Packet): string
  {
    p.srcIP + ":" + DecimalString(p.srcPort)
  }

  function DstName(p: Packet): string
  {
    p.dstIP + ":" + DecimalString(p.dstPort)
  }

  /** Name of the packet's flow. */
  function FlowOf(p: Packet): string
  {
    SrcName(p) + "+" + DstName(p)
  }

  /** Name of the opposite direction of the packet's flow. */
  function ReverseOf(p: Packet): string
  {
    DstName(p) + "+" + SrcName(p)
  }

  /** Key of a TSval table entry. */
  function TsKey(flow: string, ts: TsVal): string
  {
    flow + "+" + DecimalString(ts)
  }

  /** Labels the summary observation of the packet is made on. */
  function ObservedLabels(p: Packet): Labels
  {
    Labels(p.srcIP, p.dstIP, DecimalString(p.dstPort))
  }

  /** Whether the local-range test of the packet's destination throws: local destinations
      are filtered and the destination text is not an IPv4 address. */
  predicate BadDestination(cfg: Config, p: Packet)
  {
    cfg.filtLocal && cfg.parseAddr(p.dstIP).None?
  }

  /** Whether a two-way flow's packet records its TSval: local destinations are not
      filtered, or this one is not local. */
  predicate RecordsTsVal(cfg: Config, p: Packet)
    requires !BadDestination(cfg, p)
  {
    !cfg.filtLocal || !cfg.isLocal(cfg.parseAddr(p.dstIP).value)
  }

  /** The minimum RTT of a flow after a packet: lowered to the packet's RTT, if it
      produced a smaller one. */
  function Lowered(min: real, s: Option<RttSample>): (m: real)
    ensures m <= min
    ensures s.Some? ==> m <= s.value.rtt
    ensures m == min || (s.Some? && m == s.value.rtt)
  {
    if s.Some? && min > s.value.rtt then s.value.rtt else min
  }

  /** Packets without a usable timestamp pair are ignored: TSval 0, or TSecr 0 on
      anything but a pure SYN. */
  predicate Timestamped(p: Packet)
  {
    p.tsval != 0 && (p.tsecr != 0 || p.synOnly)
  }

  /** Whether the packet reaches the flow table: it is timestamped, and its flow is
      known or may still be created. */
  predicate Handled(cfg: Config, st: State, p: Packet)
  {
    Timestamped(p) && (FlowOf(p) in st.flows || st.flowCnt <= cfg.maxFlows)
  }

  /** Largest number of flow records the admission test lets in. */
  function Capacity(cfg: Config): nat
  {
    if cfg.maxFlows >= 0 then cfg.maxFlows + 1 else 0
  }

  /** `addTS`: record `ti` under `key` unless the key is already present. */
  function AddTS(tbl: map<string, TsInfo>, key: string, ti: TsInfo): (r: map<string, TsInfo>)
    ensures r.Keys == tbl.Keys + {key}
    ensures forall k :: k in tbl ==> r[k] == tbl[k]
    ensures key !in tbl ==> r[key] == ti
  {
    if key in tbl then tbl else tbl[key := ti]
  }

  /** `getTStm`: the entry under `key`, if any. */
  function GetTStm(tbl: map<string, TsInfo>, key: string): (r: Option<TsInfo>)
    ensures r.None? <==> key !in tbl
    ensures r.Some? ==> r.value == tbl[key]
  {
    if key in tbl then Some(tbl[key]) else None
  }

  /** The first appearance of a key wins: later additions under it change nothing, and the
      first one is what a lookup returns. */
  lemma AddTSFirstWins(tbl: map<string, TsInfo>, key: string, first: TsInfo, later: TsInfo)
    ensures AddTS(AddTS(tbl, key, first), key, later) == AddTS(tbl, key, first)
    ensures GetTStm(AddTS(tbl, key, first), key) == Some(if key in tbl then tbl[key] else first)
  {
  }

  function NewFlow(name: string): FlowRec
  {
    FlowRec(name, 0.0, InitialMin, 0.0, 0.0, 0.0, false)
  }

  /** A new record for `f`; when the reverse flow `rev` is known (which includes `f`
      itself), both are marked two-way. */
  function Register(flows: map<string, FlowRec>, f: string, rev: string): (r: map<string, FlowRec>)
    requires f !in flows
    ensures r.Keys == flows.Keys + {f}
    ensures r[f] == NewFlow(f).(revFlow := rev in flows || rev == f)
    ensures rev in flows ==> r[rev] == flows[rev].(revFlow := true)
    ensures forall k :: k in flows && k != rev ==> r[k] == flows[k]
  {
    var added := flows[f := NewFlow(f)];
    if rev in added then added[rev := added[rev].(revFlow := true)][f := NewFlow(f).(revFlow := true)]
    else added
  }

  /** The admission test: a packet of an unknown flow is dropped while the flow count
      exceeds `maxFlows`; otherwise its flow is registered and counted. */
  function Admit(cfg: Config, st: State, p: Packet): (r: Option<State>)
    ensures r.None? <==> FlowOf(p) !in st.flows && st.flowCnt > cfg.maxFlows
    ensures r.Some? ==> r.value.flows.Keys == st.flows.Keys + {FlowOf(p)}
    ensures r.Some? ==> r.value.tsTbl == st.tsTbl && r.value.uniDir == st.uniDir
    ensures r.Some? ==> r.value.flowCnt == st.flowCnt + (if FlowOf(p) in st.flows then 0 else 1)
    ensures r.Some? ==> r.value.flows[FlowOf(p)].revFlow == TwoWay(st, p)
    ensures r.Some? ==> forall k :: k in st.flows ==>
      && r.value.flows[k].lastTm == st.flows[k].lastTm
      && r.value.flows[k].min == st.flows[k].min
      && r.value.flows[k].name == st.flows[k].name
    ensures r.Some? && FlowOf(p) !in st.flows ==> r.value.flows[FlowOf(p)] == NewFlow(FlowOf(p)).(revFlow := TwoWay(st, p))
  {
    var f := FlowOf(p);
    if f in st.flows then Some(st)
    else if st.flowCnt > cfg.maxFlows then None
    else Some(st.(flows := Register(st.flows, f, ReverseOf(p)), flowCnt := st.flowCnt + 1))
  }

  /** Whether, once admitted, the packet's flow is known to be two-way. */
  predicate TwoWay(st: State, p: Packet)
  {
    if FlowOf(p) in st.flows then st.flows[FlowOf(p)].revFlow
    else ReverseOf(p) in st.flows || ReverseOf(p) == FlowOf(p)
  }

  /** An entry is either as it was, or was unused and has now been marked used. */
  predicate SameOrUsed(before: TsInfo, after: TsInfo)
  {
    after == before || (before.t > 0.0 && after == before.(t := -before.t))
  }

  /** First half of handling a packet of a two-way flow: count its bytes and record its
      TSval, unless local destinations are filtered and this one is local. None when the
      range test throws `invalid_address`. */
  function Forward(cfg: Config, st: State, p: Packet): (r: Option<State>)
    requires FlowOf(p) in st.flows
    ensures r.None? <==> BadDestination(cfg, p)
    ensures r.Some? ==> r.value.flows.Keys == st.flows.Keys
    ensures r.Some? ==>
      r.value.flows[FlowOf(p)] == st.flows[FlowOf(p)].(bytesSnt := st.flows[FlowOf(p)].bytesSnt + p.size as real)
    ensures r.Some? ==> forall k :: k in st.flows && k != FlowOf(p) ==> r.value.flows[k] == st.flows[k]
    ensures r.Some? ==> r.value.flowCnt == st.flowCnt && r.value.uniDir == st.uniDir
    ensures r.Some? ==>
      r.value.tsTbl.Keys == st.tsTbl.Keys + (if RecordsTsVal(cfg, p) then {TsKey(FlowOf(p), p.tsval)} else {})
    ensures r.Some? ==> forall k :: k in st.tsTbl ==> r.value.tsTbl[k] == st.tsTbl[k]
    ensures r.Some? && TsKey(FlowOf(p), p.tsval) in r.value.tsTbl - st.tsTbl.Keys ==>
      r.value.tsTbl[TsKey(FlowOf(p), p.tsval)] ==
        TsInfo(p.capTm, r.value.flows[FlowOf(p)].bytesSnt, st.flows[FlowOf(p)].bytesDep)
  {
    var f := FlowOf(p);
    var fr := st.flows[f];
    var arrFwd := fr.bytesSnt + p.size as real;
    if BadDestination(cfg, p) then None
    else
      var tbl :=
        if RecordsTsVal(cfg, p)
        then AddTS(st.tsTbl, TsKey(f, p.tsval), TsInfo(p.capTm, arrFwd, fr.bytesDep))
        else st.tsTbl;
      Some(st.(flows := st.flows[f := fr.(bytesSnt := arrFwd)], tsTbl := tbl))
  }

  /** Second half: match the packet's TSecr against the reverse flow's unused TSvals; on a
      match, produce an RTT sample, lower the flow's minimum if needed, and mark the entry
      used. The reverse flow's record must exist, or `out_of_range` is thrown. */
  function Answer(st: State, p: Packet): (r: Step)
    requires FlowOf(p) in st.flows
    ensures !r.InvalidAddress?
    ensures r.OutOfRange? || r.sample.Some? <==>
      TsKey(ReverseOf(p), p.tsecr) in st.tsTbl && st.tsTbl[TsKey(ReverseOf(p), p.tsecr)].t > 0.0
    ensures r.OutOfRange? ==> ReverseOf(p) !in st.flows
    ensures r.Next? ==> r.st.flows.Keys == st.flows.Keys && r.st.tsTbl.Keys == st.tsTbl.Keys
    ensures r.Next? ==> r.st.flowCnt == st.flowCnt && r.st.uniDir == st.uniDir
    ensures r.Next? ==> forall k :: k in st.flows ==>
      && r.st.flows[k].lastTm == st.flows[k].lastTm
      && r.st.flows[k].min <= st.flows[k].min
      && r.st.flows[k].name == st.flows[k].name
    ensures r.Next? ==> forall k :: k in st.tsTbl ==> SameOrUsed(st.tsTbl[k], r.st.tsTbl[k])
    ensures r.Next? ==> r.st.flows[FlowOf(p)].min == Lowered(st.flows[FlowOf(p)].min, r.sample)
    ensures r.Next? ==> forall k :: k in st.flows && k != FlowOf(p) ==> r.st.flows[k].min == st.flows[k].min
    ensures r.Next? && r.sample.None? ==> r.st == st
    ensures r.Next? && r.sample.Some? ==>
      var lk := TsKey(ReverseOf(p), p.tsecr);
      && r.st.tsTbl[lk].t == -st.tsTbl[lk].t < 0.0
      && r.sample.value.rtt == p.capTm - st.tsTbl[lk].t
      && r.sample.value.flow == FlowOf(p)
      && r.sample.value.labels == ObservedLabels(p)
      && r.sample.value.min == r.st.flows[FlowOf(p)].min <= r.sample.value.rtt
  {
    var f := FlowOf(p);
    var rev := ReverseOf(p);
    var fr := st.flows[f];
    var lk := TsKey(rev, p.tsecr);
    var found := GetTStm(st.tsTbl, lk);
    if found.Some? && found.value.t > 0.0 then
      var ti := found.value;
      var rtt := p.capTm - ti.t;
      var fr2 := fr.(min := if fr.min > rtt then rtt else fr.min, lstBytesSnt := fr.bytesSnt);
      var flows2 := st.flows[f := fr2];
      if rev !in flows2 then OutOfRange
      else
        var flows3 := flows2[rev := flows2[rev].(bytesDep := ti.fBytes)];
        var sample := RttSample(f, p.capTm, rtt, fr2.min, ti.fBytes, ti.dBytes, fr.bytesSnt - fr.lstBytesSnt,
                                ObservedLabels(p));
        Next(State(flows3, st.tsTbl[lk := ti.(t := -ti.t)], st.flowCnt, st.uniDir), Some(sample))
    else
      Next(st, None)
  }

  /** Handling of a packet whose flow is registered: note its capture time on the flow,
      then count it as one-way or go on to `Forward` and `Answer`. */
  function Touch(cfg: Config, st: State, p: Packet): (r: Step)
    requires FlowOf(p) in st.flows
    ensures r.Next? ==> r.st.flows.Keys == st.flows.Keys && r.st.flowCnt == st.flowCnt
    ensures r.Next? ==> r.st.flows[FlowOf(p)].lastTm == p.capTm
    ensures r.InvalidAddress? <==> st.flows[FlowOf(p)].revFlow && BadDestination(cfg, p)
    ensures r.Next? ==> forall k :: k in st.flows ==>
      && (k != FlowOf(p) ==> r.st.flows[k].lastTm == st.flows[k].lastTm)
      && (k != FlowOf(p) ==> r.st.flows[k].min == st.flows[k].min)
      && r.st.flows[k].name == st.flows[k].name
    ensures r.Next? ==> r.st.flows[FlowOf(p)].min == Lowered(st.flows[FlowOf(p)].min, r.sample)
    ensures r.Next? ==> r.st.uniDir == st.uniDir + (if st.flows[FlowOf(p)].revFlow then 0 else 1)
    ensures r.Next? && !st.flows[FlowOf(p)].revFlow ==> r.st.tsTbl == st.tsTbl && r.sample.None?
    ensures r.Next? ==> forall k :: k in st.tsTbl ==> k in r.st.tsTbl && SameOrUsed(st.tsTbl[k], r.st.tsTbl[k])
    ensures r.Next? ==> r.st.tsTbl.Keys <= st.tsTbl.Keys + {TsKey(FlowOf(p), p.tsval)}
    ensures r.Next? ==> forall k :: k in r.st.tsTbl && k !in st.tsTbl ==> r.st.tsTbl[k].t <= p.capTm
    ensures r.OutOfRange? ==> ReverseOf(p) !in st.flows
    ensures r.OutOfRange? ==>
      var lk := TsKey(ReverseOf(p), p.tsecr);
      (lk in st.tsTbl && st.tsTbl[lk].t > 0.0) || lk == TsKey(FlowOf(p), p.tsval)
    ensures r.Next? && r.sample.Some? ==>
      var lk := TsKey(ReverseOf(p), p.tsecr);
      && lk in r.st.tsTbl && r.st.tsTbl[lk].t < 0.0
      && r.sample.value.rtt == p.capTm + r.st.tsTbl[lk].t
      && (lk in st.tsTbl ==> st.tsTbl[lk].t > 0.0)
      && r.sample.value.flow == FlowOf(p)
      && r.sample.value.labels == ObservedLabels(p)
      && r.sample.value.min == r.st.flows[FlowOf(p)].min <= r.sample.value.rtt
  {
    var st1 := Stamp(st, p);
    if !st1.flows[FlowOf(p)].revFlow then Next(st1.(uniDir := st.uniDir + 1), None)
    else Exchange(cfg, st1, p)
  }

  /** `fr->lastTm = capTm` on the packet's flow. */
  function Stamp(st: State, p: Packet): (r: State)
    requires FlowOf(p) in st.flows
    ensures r.flows.Keys == st.flows.Keys && r.tsTbl == st.tsTbl
    ensures r.flowCnt == st.flowCnt && r.uniDir == st.uniDir
    ensures r.flows[FlowOf(p)] == st.flows[FlowOf(p)].(lastTm := p.capTm)
    ensures forall k :: k in st.flows && k != FlowOf(p) ==> r.flows[k] == st.flows[k]
  {
    st.(flows := st.flows[FlowOf(p) := st.flows[FlowOf(p)].(lastTm := p.capTm)])
  }

  /** A packet of a two-way flow: `Forward`, then `Answer`. */
  function Exchange(cfg: Config, st: State, p: Packet): (r: Step)
    requires FlowOf(p) in st.flows
    ensures r.Next? ==> r.st.flows.Keys == st.flows.Keys && r.st.flowCnt == st.flowCnt
    ensures r.InvalidAddress? <==> BadDestination(cfg, p)
    ensures r.Next? ==> r.st.uniDir == st.uniDir
    ensures r.Next? ==> forall k :: k in st.flows ==>
      && r.st.flows[k].lastTm == st.flows[k].lastTm
      && (k != FlowOf(p) ==> r.st.flows[k].min == st.flows[k].min)
      && r.st.flows[k].name == st.flows[k].name
    ensures r.Next? ==> r.st.flows[FlowOf(p)].min == Lowered(st.flows[FlowOf(p)].min, r.sample)
    ensures r.Next? ==> forall k :: k in st.tsTbl ==> k in r.st.tsTbl && SameOrUsed(st.tsTbl[k], r.st.tsTbl[k])
    ensures r.Next? ==> r.st.tsTbl.Keys <= st.tsTbl.Keys + {TsKey(FlowOf(p), p.tsval)}
    ensures r.Next? ==> forall k :: k in r.st.tsTbl && k !in st.tsTbl ==> r.st.tsTbl[k].t <= p.capTm
    ensures r.OutOfRange? ==> ReverseOf(p) !in st.flows
    ensures r.OutOfRange? ==>
      var lk := TsKey(ReverseOf(p), p.tsecr);
      (lk in st.tsTbl && st.tsTbl[lk].t > 0.0) || lk == TsKey(FlowOf(p), p.tsval)
    ensures r.Next? && r.sample.Some? ==>
      var lk := TsKey(ReverseOf(p), p.tsecr);
      && lk in r.st.tsTbl && r.st.tsTbl[lk].t < 0.0
      && r.sample.value.rtt == p.capTm + r.st.tsTbl[lk].t
      && (lk in st.tsTbl ==> st.tsTbl[lk].t > 0.0)
      && r.sample.value.flow == FlowOf(p)
      && r.sample.value.labels == ObservedLabels(p)
      && r.sample.value.min == r.st.flows[FlowOf(p)].min <= r.sample.value.rtt
  {
    match Forward(cfg, st, p)
    case None => InvalidAddress
    case Some(st1) => Answer(st1, p)
  }

  /** The table logic of the packet handler. */
  function ProcessPacket(cfg: Config, st: State, p: Packet): (r: Step)
    ensures !Handled(cfg, st, p) ==> r == Next(st, None)
    ensures r.Next? && Handled(cfg, st, p) ==> r.st.flows.Keys == st.flows.Keys + {FlowOf(p)}
    ensures r.Next? && Handled(cfg, st, p) ==> r.st.flows[FlowOf(p)].lastTm == p.capTm
    ensures r.Next? ==> r.st.flowCnt == st.flowCnt + (if Handled(cfg, st, p) && FlowOf(p) !in st.flows then 1 else 0)
    ensures r.Next? ==> r.st.uniDir == st.uniDir + (if Handled(cfg, st, p) && !TwoWay(st, p) then 1 else 0)
    ensures r.Next? && !TwoWay(st, p) ==> r.st.tsTbl == st.tsTbl && r.sample.None?
    ensures r.InvalidAddress? <==> Handled(cfg, st, p) && TwoWay(st, p) && BadDestination(cfg, p)
    ensures r.Next? ==> forall k :: k in st.flows ==>
      && k in r.st.flows
      && (k != FlowOf(p) ==> r.st.flows[k].lastTm == st.flows[k].lastTm)
      && (k != FlowOf(p) ==> r.st.flows[k].min == st.flows[k].min)
      && r.st.flows[k].min <= st.flows[k].min
      && r.st.flows[k].name == st.flows[k].name
    ensures r.Next? && Handled(cfg, st, p) ==>
      r.st.flows[FlowOf(p)].min == Lowered(if FlowOf(p) in st.flows then st.flows[FlowOf(p)].min else InitialMin, r.sample)
    ensures r.Next? && FlowOf(p) in r.st.flows - st.flows.Keys ==> r.st.flows[FlowOf(p)].name == FlowOf(p)
    ensures r.Next? ==> forall k :: k in st.tsTbl ==> k in r.st.tsTbl && SameOrUsed(st.tsTbl[k], r.st.tsTbl[k])
    ensures r.Next? ==> r.st.tsTbl.Keys <= st.tsTbl.Keys + {TsKey(FlowOf(p), p.tsval)}
    ensures r.Next? ==> forall k :: k in r.st.tsTbl && k !in st.tsTbl ==> r.st.tsTbl[k].t <= p.capTm
    ensures r.OutOfRange? ==> ReverseOf(p) !in st.flows && ReverseOf(p) != FlowOf(p)
    ensures r.OutOfRange? ==>
      var lk := TsKey(ReverseOf(p), p.tsecr);
      (lk in st.tsTbl && st.tsTbl[lk].t > 0.0) || lk == TsKey(FlowOf(p), p.tsval)
    ensures r.Next? && r.sample.Some? ==>
      var lk := TsKey(ReverseOf(p), p.tsecr);
      && lk in r.st.tsTbl && r.st.tsTbl[lk].t < 0.0
      && r.sample.value.rtt == p.capTm + r.st.tsTbl[lk].t
      && (lk in st.tsTbl ==> st.tsTbl[lk].t > 0.0)
      && r.sample.value.flow == FlowOf(p)
      && r.sample.value.labels == ObservedLabels(p)
      && r.sample.value.min == r.st.flows[FlowOf(p)].min <= r.sample.value.rtt
  {
    if !Timestamped(p) then Next(st, None)
    else match Admit(cfg, st, p)
      case None => Next(st, None)
      case Some(st1) => Touch(cfg, st1, p)
  }

  function Abs(x: real): real
  {
    if x < 0.0 then -x else x
  }

  /** A TSval entry older than `tsvalMaxAge` at time `n`, used or not. */
  predicate Stale(cfg: Config, ti: TsInfo, n: real)
  {
    n - Abs(ti.t) > cfg.tsvalMaxAge
  }

  /** A flow idle for longer than `flowMaxIdle` at time `n`. */
  predicate Expired(cfg: Config, fr: FlowRec, n: real)
  {
    n - fr.lastTm > cfg.flowMaxIdle
  }

  /** The tables after a clean-up, and the label sets of the summaries it deletes. */
  datatype Cleaned = Cleaned(st: State, deleted: set<Labels>)

  /** `cleanUp(n)`: drop stale TSval entries and expired flows, uncount the flows and
      delete their summaries, whose labels `parseLabels` recovers from the flow names. */
  function CleanUp(cfg: Config, st: State, n: real): (r: Cleaned)
    ensures forall k :: k in r.st.tsTbl <==> k in st.tsTbl && !Stale(cfg, st.tsTbl[k], n)
    ensures forall k :: k in r.st.tsTbl ==> r.st.tsTbl[k] == st.tsTbl[k]
    ensures forall k :: k in r.st.flows <==> k in st.flows && !Expired(cfg, st.flows[k], n)
    ensures forall k :: k in r.st.flows ==> r.st.flows[k] == st.flows[k]
    ensures r.st.flowCnt == st.flowCnt - (|st.flows| - |r.st.flows|)
    ensures r.st.uniDir == st.uniDir
    ensures forall k :: k in st.flows && Expired(cfg, st.flows[k], n) ==> FlowLabels.ParseLabels(k) in r.deleted
    ensures forall l :: l in r.deleted ==>
      exists k :: k in st.flows && Expired(cfg, st.flows[k], n) && FlowLabels.ParseLabels(k) == l
  {
    var gone := ExpiredNames(cfg, st.flows, n);
    var flows := Unexpired(cfg, st.flows, n);
    Cleaned(State(flows, Unstale(cfg, st.tsTbl, n), st.flowCnt - |gone|, st.uniDir),
            DeletedLabels(gone, FlowLabels.ParseLabels))
  }

  /** The clean-up with the corrected `parseLabels`: the same tables, with the deleted
      summaries' labels recovered so that IPv6 source addresses are kept whole. */
  function CleanUpCorrected(cfg: Config, st: State, n: real): (r: Cleaned)
    ensures r.st == CleanUp(cfg, st, n).st
    ensures forall k :: k in st.flows && Expired(cfg, st.flows[k], n) ==> FlowLabels.ParseFlowLabels(k) in r.deleted
    ensures forall l :: l in r.deleted ==>
      exists k :: k in st.flows && Expired(cfg, st.flows[k], n) && FlowLabels.ParseFlowLabels(k) == l
  {
    Cleaned(CleanUp(cfg, st, n).st, DeletedLabels(ExpiredNames(cfg, st.flows, n), FlowLabels.ParseFlowLabels))
  }

  /** The TSval entries the clean-up keeps. */
  function Unstale(cfg: Config, tbl: map<string, TsInfo>, n: real): (r: map<string, TsInfo>)
    ensures forall k :: k in r <==> k in tbl && !Stale(cfg, tbl[k], n)
    ensures forall k :: k in r ==> r[k] == tbl[k]
  {
    map k | k in tbl && !Stale(cfg, tbl[k], n) :: tbl[k]
  }

  /** The names of the flows the clean-up removes. */
  function ExpiredNames(cfg: Config, flows: map<string, FlowRec>, n: real): (gone: set<string>)
    ensures forall k :: k in gone <==> k in flows && Expired(cfg, flows[k], n)
    ensures gone <= flows.Keys
  {
    set k | k in flows && Expired(cfg, flows[k], n)
  }

  /** The flow records the clean-up keeps. */
  function Unexpired(cfg: Config, flows: map<string, FlowRec>, n: real): (r: map<string, FlowRec>)
    ensures forall k :: k in r <==> k in flows && !Expired(cfg, flows[k], n)
    ensures forall k :: k in r ==> r[k] == flows[k]
    ensures |r| == |flows| - |ExpiredNames(cfg, flows, n)|
  {
    var gone := ExpiredNames(cfg, flows, n);
    var r := map k | k in flows && k !in gone :: flows[k];
    assert r.Keys == flows.Keys - gone;
    CardDifference(flows.Keys, gone);
    r
  }

  /** The label sets of the summaries deleted for the flows `gone`, each recovered from
      the flow's name by `parse`. */
  function DeletedLabels(gone: set<string>, parse: string -> Labels): (r: set<Labels>)
    ensures forall k :: k in gone ==> parse(k) in r
    ensures forall l :: l in r ==> exists k :: k in gone && parse(k) == l
  {
    set k | k in gone :: parse(k)
  }

  lemma CardDifference<T>(a: set<T>, b: set<T>)
    requires b <= a
    ensures |a - b| == |a| - |b|
  {
    assert a == (a - b) + b;
  }
}
