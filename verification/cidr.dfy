/**
 The checks `convertStrRange` applies to each `-L` (`--localSubnet`)
 argument before building an IPv4 range: an address part and a prefix part
 around the first '/', both non-empty, the address accepted by the address
 parser, the prefix read by `std::stoi`, and a /32 prefix turned into the
 one-address range.
 */
module Cidr {
  import opened Wrappers
  import opened Strings

  /** An IPv4 address as a 32-bit number. */
  type Addr = x: int | 0 <= x < 0x1_0000_0000

  const IntMin: int := -0x8000_0000
  const IntMax: int := 0x7FFF_FFFF

  /** Why a range argument is rejected: each is an exception in the source. */
  datatype CidrError =
    | NoSlash          // no '/' at all
    | EmptyPart        // nothing before or nothing after the '/'
    | BadAddress       // the address parser rejects the part before the '/'
    | NoDigits         // `std::stoi` finds no number (`invalid_argument`)
    | PrefixOutOfRange // `std::stoi`'s number does not fit an `int` (`out_of_range`)

  /** The range built from a valid argument: the single address for /32, otherwise
      the address masked to the given prefix length. */
  datatype Range = Single(addr: Addr) | Masked(addr: Addr, prefix: int)

  /** `s` without its leading white space. */
  function SkipSpace(s: string): (r: string)
    ensures |r| <= |s| && r == s[|s| - |r|..]
    ensures |r| > 0 ==> !IsSpace(r[0])
    ensures forall i :: 0 <= i < |s| - |r| ==> IsSpace(s[i])
  {
    if |s| > 0 && IsSpace(s[0]) then SkipSpace(s[1..]) else s
  }

  /** The longest prefix of `s` made of decimal digits. */
  function LeadingDigits(s: string): (r: string)
    ensures |r| <= |s| && r == s[..|r|]
    ensures forall i :: 0 <= i < |r| ==> IsDigit(r[i])
    ensures |r| < |s| ==> !IsDigit(s[|r|])
  {
    if |s| > 0 && IsDigit(s[0]) then [s[0]] + LeadingDigits(s[1..]) else []
  }

  /** `std::stoi(s)` in base 10: skip white space, read an optional sign and the digits
      after it, ignore whatever follows; fail when there is no digit or the value does
      not fit an `int`. */
  function Stoi(s: string): (r: Result<int, CidrError>)
    ensures r.Ok? ==> IntMin <= r.value <= IntMax
    ensures r.Err? ==> r.error == NoDigits || r.error == PrefixOutOfRange
  {
    var u := SkipSpace(s);
    var signed := |u| > 0 && (u[0] == '-' || u[0] == '+');
    var ds := LeadingDigits(if signed then u[1..] else u);
    if |ds| == 0 then Err(NoDigits)
    else
      var magnitude: int := DigitsValue(ds);
      var v := if signed && u[0] == '-' then -magnitude else magnitude;
      if v < IntMin || v > IntMax then Err(PrefixOutOfRange) else Ok(v)
  }

  /** The digits at the front of `a + b` are `a` when `a` is all digits and `b` does not
      start with one. */
  lemma {:induction false} LeadingDigitsOfNumber(a: string, b: string)
    requires forall i :: 0 <= i < |a| ==> IsDigit(a[i])
    requires |b| == 0 || !IsDigit(b[0])
    ensures LeadingDigits(a + b) == a
    decreases |a|
  {
    if |a| > 0 {
      assert (a + b)[1..] == a[1..] + b;
      LeadingDigitsOfNumber(a[1..], b);
      assert a == [a[0]] + a[1..];
    } else {
      assert a + b == b;
    }
  }

  /** `std::stoi` reads back a rendered number, whatever non-digit text follows it. */
  lemma StoiOfDecimal(n: nat, rest: string)
    requires n <= IntMax
    requires |rest| == 0 || !IsDigit(rest[0])
    ensures Stoi(DecimalString(n) + rest) == Ok(n)
  {
    var s := DecimalString(n) + rest;
    assert s[0] == DecimalString(n)[0];
    assert !IsSpace(s[0]) && s[0] != '-' && s[0] != '+';
    assert SkipSpace(s) == s;
    LeadingDigitsOfNumber(DecimalString(n), rest);
    DecimalStringValue(n);
  }

  /** `convertStrRange`: split at the first '/', reject empty parts, parse the address
      (`parseAddr` stands for the address constructor) and then the prefix. */
  function ConvertStrRange(parseAddr: string -> Option<Addr>, range: string): (r: Result<Range, CidrError>)
    ensures '/' !in range ==> r == Err(NoSlash)
    ensures '/' in range && (range[0] == '/' || '/' !in range[..|range| - 1]) ==> r == Err(EmptyPart)
    ensures r.Ok? ==>
      (exists i :: 0 < i < |range| - 1 && range[i] == '/' && '/' !in range[..i]
        && parseAddr(range[..i]) == Some(r.value.addr))
    ensures r.Ok? && r.value.Masked? ==> r.value.prefix != 32
    ensures r.Ok? ==>
      Find(range, '/').Some?
      && Stoi(range[Find(range, '/').value + 1..]) == Ok(if r.value.Single? then 32 else r.value.prefix)
    ensures Find(range, '/').Some? && 0 < Find(range, '/').value < |range| - 1
      && parseAddr(range[..Find(range, '/').value]).Some?
      && Stoi(range[Find(range, '/').value + 1..]).Err?
      ==> r == Err(Stoi(range[Find(range, '/').value + 1..]).error)
  {
    match Find(range, '/')
    case None => Err(NoSlash)
    case Some(slash) =>
      var ip := range[..slash];
      var prefix := range[slash + 1..];
      if |ip| == 0 || |prefix| == 0 then Err(EmptyPart)
      else match parseAddr(ip)
        case None => Err(BadAddress)
        case Some(addr) =>
          match Stoi(prefix)
          case Err(e) => Err(e)
          case Ok(n) => if n == 32 then Ok(Single(addr)) else Ok(Masked(addr, n))
  }

  /** A well-formed argument "address/prefix" gives the expected range. */
  lemma ConvertWellFormed(parseAddr: string -> Option<Addr>, ip: string, addr: Addr, n: nat)
    requires |ip| > 0 && '/' !in ip && parseAddr(ip) == Some(addr)
    requires n <= IntMax
    ensures ConvertStrRange(parseAddr, ip + "/" + DecimalString(n))
      == Ok(if n == 32 then Single(addr) else Masked(addr, n))
  {
    var s := ip + "/" + DecimalString(n);
    assert s[..|ip|] == ip && s[|ip|] == '/';
    FindAt(s, '/', |ip|);
    assert s[|ip| + 1..] == DecimalString(n) + [];
    StoiOfDecimal(n, []);
  }

  /** An argument whose address part is rejected fails with `BadAddress`, whatever the prefix. */
  lemma ConvertBadAddress(parseAddr: string -> Option<Addr>, ip: string, prefix: string)
    requires |ip| > 0 && '/' !in ip && parseAddr(ip).None? && |prefix| > 0
    ensures ConvertStrRange(parseAddr, ip + "/" + prefix) == Err(BadAddress)
  {
    var s := ip + "/" + prefix;
    assert s[..|ip|] == ip && s[|ip|] == '/';
    FindAt(s, '/', |ip|);
    assert s[|ip| + 1..] == prefix;
  }

  /** An argument whose prefix part does not start with a number ("10.0.0.0/x") fails
      with `NoDigits` once the address part is accepted: `std::stoi` throws. */
  lemma ConvertNonNumericPrefix(parseAddr: string -> Option<Addr>, ip: string, prefix: string)
    requires |ip| > 0 && '/' !in ip && parseAddr(ip).Some?
    requires |prefix| > 0 && !IsDigit(prefix[0]) && !IsSpace(prefix[0])
    requires prefix[0] != '-' && prefix[0] != '+'
    ensures ConvertStrRange(parseAddr, ip + "/" + prefix) == Err(NoDigits)
  {
    var s := ip + "/" + prefix;
    assert s[..|ip|] == ip && s[|ip|] == '/';
    FindAt(s, '/', |ip|);
    assert s[|ip| + 1..] == prefix;
    assert SkipSpace(prefix) == prefix;
  }
}
