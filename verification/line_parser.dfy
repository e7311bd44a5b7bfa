/**
 The per-line body of the Python exporter's ingest loop: one line of pping's
 machine-readable output becomes one RTT sample for a flow, or is dropped.

 Number parsing, address validity and the excluded-subnet test belong to
 libraries (`float`, netaddr) and are parameters of the model.
 */
module LineParser {
  import opened Wrappers
  import opened Strings
  import opened MetricLabels

  /** The collaborators the parser calls: `float(text)`, `IPAddress(text)` succeeding,
      and `IPAddress(text) in CONTAINER_SUBNET`. */
  datatype Env = Env(
    parseFloat: string -> Option<real>,
    isAddress: string -> bool,
    inSubnet: string -> bool)

  /** Why a line was dropped. */
  datatype Drop =
    | WrongFieldCount   // not exactly seven fields: skipped silently
    | RttNotNumber      // float() raised: logged
    | NotTwoEndpoints   // flow field is not "src+dst": logged
    | DstWithoutColon   // dst.split(':')[1] raised: logged
    | SrcNotAddress     // IPAddress(srcIP) raised: logged
    | SrcExcluded       // source inside the excluded subnet: skipped silently
    | EmptyDstPort      // destination port is empty: skipped silently

  /** A parsed measurement; `dst` is the destination exactly as it appeared ("dstIP:dstPort"). */
  datatype Sample = Sample(srcIP: string, dst: string, dstIP: string, dstPort: string, rttMillis: real)
  {
    /** The flow key "srcIP+dstIP:dstPort". */
    function Key(): string
    {
      srcIP + "+" + dst
    }

    function Labels(): MetricLabels.Labels
    {
      MetricLabels.Labels(srcIP, dstIP, dstPort)
    }
  }

  datatype LineOutcome = Dropped(why: Drop) | Accepted(sample: Sample)

  /** Drops that go through the `except` handler and print a traceback. */
  predicate IsLogged(d: Drop)
  {
    d in {RttNotNumber, NotTwoEndpoints, DstWithoutColon, SrcNotAddress}
  }

  /** One line of input, processed as the ingest loop does. */
  function ParseLine(env: Env, line: string): (r: LineOutcome)
    ensures |SplitWhitespace(line)| != 7 ==> r == Dropped(WrongFieldCount)
    ensures r.Accepted? ==> |SplitWhitespace(line)| == 7
  {
    var fields := SplitWhitespace(line);
    if |fields| != 7 then Dropped(WrongFieldCount) else ParseFields(env, fields)
  }

  /** The seven fields of a line: timestamp, RTT and minimum RTT in seconds, three byte
      counts, and the flow "srcIP:srcPort+dstIP:dstPort". Only the RTT and the flow are read. */
  function ParseFields(env: Env, fields: seq<string>): (r: LineOutcome)
    requires |fields| == 7
    ensures r.Accepted? ==>
      var s := r.sample;
      && env.parseFloat(fields[1]).Some?
      && s.rttMillis == env.parseFloat(fields[1]).value * 1000.0
      && |Split(fields[6], '+')| == 2 && s.dst == Split(fields[6], '+')[1]
      && s.srcIP == Split(Split(fields[6], '+')[0], ':')[0]
      && '+' !in s.srcIP && ':' !in s.srcIP && '+' !in s.dst
      && |Split(s.dst, ':')| >= 2
      && s.dstIP == Split(s.dst, ':')[0] && s.dstPort == Split(s.dst, ':')[1]
      && env.isAddress(s.srcIP) && !env.inSubnet(s.srcIP)
      && s.dstPort != ""
  {
    match env.parseFloat(fields[1])
    case None => Dropped(RttNotNumber)
    case Some(seconds) =>
      var ends := Split(fields[6], '+');
      if |ends| != 2 then Dropped(NotTwoEndpoints)
      else
        var srcIP := Split(ends[0], ':')[0];
        var dstParts := Split(ends[1], ':');
        if |dstParts| < 2 then Dropped(DstWithoutColon)
        else if !env.isAddress(srcIP) then Dropped(SrcNotAddress)
        else if env.inSubnet(srcIP) then Dropped(SrcExcluded)
        else if dstParts[1] == "" then Dropped(EmptyDstPort)
        else Accepted(Sample(srcIP, ends[1], dstParts[0], dstParts[1], seconds * 1000.0))
  }

  /** The flow field pping prints for a connection: "srcIP:srcPort+dstIP:dstPort". */
  function FlowField(srcIP: string, srcPort: string, dstIP: string, dstPort: string): string
  {
    srcIP + ":" + srcPort + "+" + dstIP + ":" + dstPort
  }

  /** A flow field built from words is itself one word. */
  lemma FlowFieldIsWord(srcIP: string, srcPort: string, dstIP: string, dstPort: string)
    requires IsWord(srcIP) && IsWord(srcPort) && IsWord(dstIP) && IsWord(dstPort)
    ensures IsWord(FlowField(srcIP, srcPort, dstIP, dstPort))
  {
    assert IsWord(":") && IsWord("+");
    WordConcat(srcIP, ":");
    WordConcat(srcIP + ":", srcPort);
    WordConcat(srcIP + ":" + srcPort, "+");
    WordConcat(srcIP + ":" + srcPort + "+", dstIP);
    WordConcat(srcIP + ":" + srcPort + "+" + dstIP, ":");
    WordConcat(srcIP + ":" + srcPort + "+" + dstIP + ":", dstPort);
  }

  /** Endpoint text pping can print: no '+' and no ':' inside an address or a port. */
  predicate Plain(s: string)
  {
    '+' !in s && ':' !in s
  }

  /** A well-formed seven-field line about an IPv4 flow whose source is outside the
      excluded subnet yields the sample for key "srcIP+dstIP:dstPort", with the RTT in ms. */
  lemma {:induction false} ParseWellFormedLine(env: Env, words: seq<string>,
                                               srcIP: string, srcPort: string, dstIP: string, dstPort: string)
    requires |words| == 7 && forall i :: 0 <= i < 7 ==> IsWord(words[i])
    requires words[6] == FlowField(srcIP, srcPort, dstIP, dstPort)
    requires Plain(srcIP) && Plain(srcPort) && Plain(dstIP) && Plain(dstPort)
    requires env.parseFloat(words[1]).Some?
    requires env.isAddress(srcIP) && dstPort != ""
    ensures !env.inSubnet(srcIP) ==>
      ParseLine(env, Join(words, ' ')) ==
        Accepted(Sample(srcIP, dstIP + ":" + dstPort, dstIP, dstPort, env.parseFloat(words[1]).value * 1000.0))
    ensures env.inSubnet(srcIP) ==> ParseLine(env, Join(words, ' ')) == Dropped(SrcExcluded)
  {
    SplitWhitespaceJoin(words);
    ParseWellFormedFields(env, words, srcIP, srcPort, dstIP, dstPort);
  }

  lemma ParseWellFormedFields(env: Env, words: seq<string>,
                              srcIP: string, srcPort: string, dstIP: string, dstPort: string)
    requires |words| == 7
    requires words[6] == FlowField(srcIP, srcPort, dstIP, dstPort)
    requires Plain(srcIP) && Plain(srcPort) && Plain(dstIP) && Plain(dstPort)
    requires env.parseFloat(words[1]).Some?
    requires env.isAddress(srcIP) && dstPort != ""
    ensures !env.inSubnet(srcIP) ==>
      ParseFields(env, words) ==
        Accepted(Sample(srcIP, dstIP + ":" + dstPort, dstIP, dstPort, env.parseFloat(words[1]).value * 1000.0))
    ensures env.inSubnet(srcIP) ==> ParseFields(env, words) == Dropped(SrcExcluded)
  {
    SplitFlowField(srcIP, srcPort, dstIP, dstPort);
    ParseFieldsOfParts(env, words, srcIP, dstIP + ":" + dstPort, dstIP, dstPort);
  }

  /** What the field checks conclude from the pieces the flow field splits into. */
  lemma ParseFieldsOfParts(env: Env, fields: seq<string>, srcIP: string, dst: string, dstIP: string, dstPort: string)
    requires |fields| == 7 && env.parseFloat(fields[1]).Some?
    requires var ends := Split(fields[6], '+');
      |ends| == 2 && ends[1] == dst && Split(ends[0], ':')[0] == srcIP
    requires var dstParts := Split(dst, ':');
      |dstParts| == 2 && dstParts[0] == dstIP && dstParts[1] == dstPort
    requires env.isAddress(srcIP) && dstPort != ""
    ensures !env.inSubnet(srcIP) ==>
      ParseFields(env, fields) == Accepted(Sample(srcIP, dst, dstIP, dstPort, env.parseFloat(fields[1]).value * 1000.0))
    ensures env.inSubnet(srcIP) ==> ParseFields(env, fields) == Dropped(SrcExcluded)
  {
  }

  /** Splitting the flow field at '+' and then at ':' recovers its four parts. */
  lemma SplitFlowField(srcIP: string, srcPort: string, dstIP: string, dstPort: string)
    requires Plain(srcIP) && Plain(srcPort) && Plain(dstIP) && Plain(dstPort)
    ensures var ends := Split(FlowField(srcIP, srcPort, dstIP, dstPort), '+');
      && |ends| == 2 && ends[0] == srcIP + ":" + srcPort && ends[1] == dstIP + ":" + dstPort
      && Split(ends[0], ':')[0] == srcIP
      && var dstParts := Split(ends[1], ':');
      && |dstParts| == 2 && dstParts[0] == dstIP && dstParts[1] == dstPort
  {
    var src, dst := srcIP + ":" + srcPort, dstIP + ":" + dstPort;
    SplitTwo(srcIP, srcPort, ':');
    SplitTwo(dstIP, dstPort, ':');
    assert FlowField(srcIP, srcPort, dstIP, dstPort) == src + "+" + dst;
    assert '+' !in src && '+' !in dst;
    SplitTwo(src, dst, '+');
  }
}
