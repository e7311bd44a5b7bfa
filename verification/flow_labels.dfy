/**
 `parseLabels` of the C++ exporter: recovering the metric labels (source IP,
 destination IP, destination port) from a flow name
 "srcIP:srcPort+dstIP:dstPort", with `std::string::find`/`rfind` returning
 `npos` on a miss and index arithmetic done in `size_t` (modulo 2^64).
 */
module FlowLabels {
  import opened Wrappers
  import opened Strings
  import opened MetricLabels

  /** `std::string::npos`, the largest `size_t`. */
  const Npos: int := 0xFFFF_FFFF_FFFF_FFFF

  /** Number of `size_t` values: unsigned arithmetic wraps modulo this. */
  const SizeMod: int := 0x1_0000_0000_0000_0000

  /** `s.find(c)`. */
  function FindPos(s: string, c: char): (i: int)
    ensures 0 <= i < |s| || i == Npos
  {
    match Find(s, c)
    case None => Npos
    case Some(i) => i
  }

  /** `s.rfind(c)`. */
  function RFindPos(s: string, c: char): (i: int)
    ensures 0 <= i < |s| || i == Npos
  {
    match RFind(s, c)
    case None => Npos
    case Some(i) => i
  }

  /** An index expression reduced to `size_t`; the cases the index arithmetic here
      meets (at most one wrap) are spelled out. */
  function SizeT(x: int): (r: int)
    ensures 0 <= r < SizeMod
    ensures 0 <= x < SizeMod ==> r == x
    ensures -SizeMod <= x < 0 ==> r == x + SizeMod
    ensures x == SizeMod ==> r == 0
  {
    if 0 <= x < SizeMod then x else if -SizeMod <= x < 0 then x + SizeMod else x % SizeMod
  }

  /** The reduction is unsigned arithmetic modulo 2^64. */
  lemma SizeTIsMod(x: int)
    ensures SizeT(x) == x % SizeMod
  {
  }

  /** `s.substr(pos, count)`: at most `count` characters from `pos`. */
  function Substr(s: string, pos: int, count: int): (r: string)
    requires 0 <= pos <= |s| && 0 <= count
    ensures |r| == Min(count, |s| - pos)
    ensures r == s[pos..pos + |r|]
  {
    s[pos..pos + Min(count, |s| - pos)]
  }

  /** The source's `parseLabels`, as written: the source IP is taken up to the FIRST ':'
      of the whole name. */
  function ParseLabels(flowStr: string): Labels
  {
    Labels(Substr(flowStr, 0, FindPos(flowStr, ':')), DstIPOf(flowStr), DstPortOf(flowStr))
  }

  /** The destination address: between the first '+' and the last ':'. */
  function DstIPOf(flowStr: string): string
  {
    var sepIdx := FindPos(flowStr, '+');
    var colIdx := RFindPos(flowStr, ':');
    Substr(flowStr, SizeT(sepIdx + 1), SizeT(colIdx - sepIdx - 1))
  }

  /** The destination port: after the last ':'. */
  function DstPortOf(flowStr: string): string
  {
    Substr(flowStr, SizeT(RFindPos(flowStr, ':') + 1), Npos)
  }

  lemma DstPartsAt(s: string, sep: nat, col: nat)
    requires sep < col < |s| < Npos && FindPos(s, '+') == sep && RFindPos(s, ':') == col
    ensures DstIPOf(s) == s[sep + 1..col] && DstPortOf(s) == s[col + 1..]
  {
  }

  /** `parseLabels` with the source IP taken up to the LAST ':' before the '+', so that
      addresses containing ':' (IPv6) are kept whole; the destination part is unchanged. */
  function ParseFlowLabels(flowStr: string): Labels
  {
    var src := Substr(flowStr, 0, FindPos(flowStr, '+'));
    Labels(Substr(src, 0, RFindPos(src, ':')), DstIPOf(flowStr), DstPortOf(flowStr))
  }

  /** A flow name as the packet handler builds it. */
  function FlowName(ip: string, port: string, ip2: string, port2: string): string
  {
    ip + ":" + port + "+" + ip2 + ":" + port2
  }

  /** `parseLabels` once the three separators are located, with the '+' before the last ':'. */
  lemma ParseLabelsAt(s: string, first: nat, sep: nat, col: nat)
    requires first < |s| && FindPos(s, ':') == first
    requires sep < col < |s| < Npos && FindPos(s, '+') == sep && RFindPos(s, ':') == col
    ensures ParseLabels(s) == Labels(s[..first], s[sep + 1..col], s[col + 1..])
  {
    DstPartsAt(s, sep, col);
  }

  /** The corrected parse once the separators are located, `srcCol` being the last ':' before the '+'. */
  lemma ParseFlowLabelsAt(s: string, srcCol: nat, sep: nat, col: nat)
    requires srcCol < sep < col < |s| < Npos && FindPos(s, '+') == sep && RFindPos(s, ':') == col
    requires RFindPos(s[..sep], ':') == srcCol
    ensures ParseFlowLabels(s) == Labels(s[..srcCol], s[sep + 1..col], s[col + 1..])
  {
    DstPartsAt(s, sep, col);
    assert Substr(s, 0, sep) == s[..sep];
    assert s[..sep][..srcCol] == s[..srcCol];
  }

  /** `s` is laid out as the flow name of the four parts: where each part and each
      separator sits. */
  predicate NameShape(s: string, ip: string, port: string, ip2: string, port2: string)
  {
    var sep := |ip| + 1 + |port|;
    var col := sep + 1 + |ip2|;
    && |s| == col + 1 + |port2|
    && s[..|ip|] == ip && s[|ip|] == ':' && s[|ip| + 1..sep] == port
    && s[sep] == '+' && s[sep + 1..col] == ip2 && s[col] == ':' && s[col + 1..] == port2
  }

  lemma FlowNameShape(ip: string, port: string, ip2: string, port2: string)
    ensures NameShape(FlowName(ip, port, ip2, port2), ip, port, ip2, port2)
  {
    var s := FlowName(ip, port, ip2, port2);
    var sep := |ip| + 1 + |port|;
    assert s == (ip + ":" + port) + ("+" + ip2 + ":" + port2);
    assert s[..sep] == ip + ":" + port;
    assert s[..|ip|] == s[..sep][..|ip|];
    assert s[|ip| + 1..sep] == s[..sep][|ip| + 1..];
    assert s[sep + 1..] == ip2 + ":" + port2;
  }

  /** The '+' of a flow name follows the source port. */
  lemma ShapePlus(s: string, ip: string, port: string, ip2: string, port2: string)
    requires NameShape(s, ip, port, ip2, port2) && '+' !in ip && '+' !in port
    ensures FindPos(s, '+') == |ip| + 1 + |port|
  {
    var sep := |ip| + 1 + |port|;
    forall k | 0 <= k < sep
      ensures s[k] != '+'
    {
      if k < |ip| {
        assert s[k] == s[..|ip|][k];
      } else if k > |ip| {
        assert s[k] == s[|ip| + 1..sep][k - |ip| - 1];
      }
    }
    FindAt(s, '+', sep);
  }

  /** The last ':' of a flow name precedes the destination port. */
  lemma ShapeLastColon(s: string, ip: string, port: string, ip2: string, port2: string)
    requires NameShape(s, ip, port, ip2, port2) && ':' !in port2
    ensures RFindPos(s, ':') == |ip| + 1 + |port| + 1 + |ip2|
  {
    RFindAt(s, ':', |ip| + 1 + |port| + 1 + |ip2|);
  }

  /** The first ':' of a flow name: inside the source address when it has one, after it otherwise. */
  lemma ShapeFirstColon(s: string, ip: string, port: string, ip2: string, port2: string)
    requires NameShape(s, ip, port, ip2, port2)
    ensures ':' !in ip ==> FindPos(s, ':') == |ip|
    ensures ':' in ip ==> FindPos(s, ':') == Find(ip, ':').value
  {
    match Find(ip, ':')
    case None =>
      FindAt(s, ':', |ip|);
    case Some(i) =>
      assert s[..i] == s[..|ip|][..i];
      assert s[i] == s[..|ip|][i];
      FindAt(s, ':', i);
  }

  /** The last ':' before the '+' separates the source address from the source port. */
  lemma ShapeSourceColon(s: string, ip: string, port: string, ip2: string, port2: string)
    requires NameShape(s, ip, port, ip2, port2) && ':' !in port
    ensures RFindPos(s[..|ip| + 1 + |port|], ':') == |ip|
  {
    var src := s[..|ip| + 1 + |port|];
    assert src[|ip| + 1..] == s[|ip| + 1..|ip| + 1 + |port|];
    RFindAt(src, ':', |ip|);
  }

  /** For a name built from an address without ':' (IPv4), `parseLabels` returns the
      address, the destination address and the destination port. */
  lemma ParseLabelsOfIPv4Name(ip: string, port: string, ip2: string, port2: string)
    requires ':' !in ip && '+' !in ip && '+' !in port && ':' !in port2
    requires |FlowName(ip, port, ip2, port2)| < Npos
    ensures ParseLabels(FlowName(ip, port, ip2, port2)) == Labels(ip, ip2, port2)
  {
    FlowNameShape(ip, port, ip2, port2);
    ParseLabelsOfIPv4Shape(FlowName(ip, port, ip2, port2), ip, port, ip2, port2);
  }

  lemma ParseLabelsOfIPv4Shape(s: string, ip: string, port: string, ip2: string, port2: string)
    requires NameShape(s, ip, port, ip2, port2) && |s| < Npos
    requires ':' !in ip && '+' !in ip && '+' !in port && ':' !in port2
    ensures ParseLabels(s) == Labels(ip, ip2, port2)
  {
    ShapePlus(s, ip, port, ip2, port2);
    ShapeLastColon(s, ip, port, ip2, port2);
    ShapeFirstColon(s, ip, port, ip2, port2);
    ParseLabelsAt(s, |ip|, |ip| + 1 + |port|, |ip| + 1 + |port| + 1 + |ip2|);
  }

  /** Finding, as written: when the source address contains ':' (every IPv6 address does),
      `parseLabels` cuts it at its first ':', so the labels it returns are not the ones
      the flow's series was created with. */
  lemma ParseLabelsTruncatesColonSource(ip: string, port: string, ip2: string, port2: string)
    requires ':' in ip && '+' !in ip && '+' !in port && ':' !in port2
    requires |FlowName(ip, port, ip2, port2)| < Npos
    ensures ParseLabels(FlowName(ip, port, ip2, port2)).srcIP == ip[..Find(ip, ':').value]
    ensures ParseLabels(FlowName(ip, port, ip2, port2)) != Labels(ip, ip2, port2)
  {
    FlowNameShape(ip, port, ip2, port2);
    ParseLabelsOfColonShape(FlowName(ip, port, ip2, port2), ip, port, ip2, port2);
  }

  lemma ParseLabelsOfColonShape(s: string, ip: string, port: string, ip2: string, port2: string)
    requires NameShape(s, ip, port, ip2, port2) && |s| < Npos
    requires ':' in ip && '+' !in ip && '+' !in port && ':' !in port2
    ensures ParseLabels(s).srcIP == ip[..Find(ip, ':').value]
    ensures ParseLabels(s) != Labels(ip, ip2, port2)
  {
    var i := Find(ip, ':').value;
    ShapePlus(s, ip, port, ip2, port2);
    ShapeLastColon(s, ip, port, ip2, port2);
    ShapeFirstColon(s, ip, port, ip2, port2);
    ParseLabelsAt(s, i, |ip| + 1 + |port|, |ip| + 1 + |port| + 1 + |ip2|);
    assert s[..i] == s[..|ip|][..i];
    assert |ip[..i]| < |ip|;
  }

  /** The corrected parse returns the three labels for every flow name, IPv4 or IPv6. */
  lemma ParseFlowLabelsOfName(ip: string, port: string, ip2: string, port2: string)
    requires '+' !in ip && '+' !in port && ':' !in port && ':' !in port2
    requires |FlowName(ip, port, ip2, port2)| < Npos
    ensures ParseFlowLabels(FlowName(ip, port, ip2, port2)) == Labels(ip, ip2, port2)
  {
    FlowNameShape(ip, port, ip2, port2);
    ParseFlowLabelsOfShape(FlowName(ip, port, ip2, port2), ip, port, ip2, port2);
  }

  lemma ParseFlowLabelsOfShape(s: string, ip: string, port: string, ip2: string, port2: string)
    requires NameShape(s, ip, port, ip2, port2) && |s| < Npos
    requires '+' !in ip && '+' !in port && ':' !in port && ':' !in port2
    ensures ParseFlowLabels(s) == Labels(ip, ip2, port2)
  {
    ShapePlus(s, ip, port, ip2, port2);
    ShapeLastColon(s, ip, port, ip2, port2);
    ShapeSourceColon(s, ip, port, ip2, port2);
    ParseFlowLabelsAt(s, |ip|, |ip| + 1 + |port|, |ip| + 1 + |port| + 1 + |ip2|);
  }
}
