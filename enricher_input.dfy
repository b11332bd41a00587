/** `parse_input_line` of ip_enricher_whois.py: one input line is a CIDR
    block, an "a-b" address range, or a single address, and becomes the
    first and last address it covers and the list of CIDR blocks that cover it.

    The `ipaddress` text parsers are parameters: `addrOf(t)` is the IPv4
    address `ip_address(t)` yields (`None` when it raises or yields an IPv6
    address), and `netOf(t)` likewise for `ip_network(t, strict=False)`. */
module EnricherInput {
  import opened Common
  import opened Ipv4

  datatype Kind = Cidr | Range | Single

  /** `(raw, type, start_ip, end_ip, cidrs)`. */
  datatype Input = Input(raw: string, kind: Kind, start: Addr, end: Addr, cidrs: seq<string>)

  /** Why a line raises `ValueError` instead. */
  datatype Rejection = EmptyInput | NotANetwork(text: string) | NotAnAddress(text: string)

  datatype Parsed = Accepted(input: Input) | Rejected(why: Rejection)

  /** The two operands of an "a-b" range: split at the first '-', each stripped. */
  function RangeOperands(raw: string): (r: (string, string))
    requires '-' in raw
  {
    var i := IndexOf(raw, '-');
    (Strip(raw[..i]), Strip(raw[i + 1..]))
  }

  function BlockTexts(blocks: seq<Block>): (r: seq<string>)
    ensures |r| == |blocks| && forall k :: 0 <= k < |r| ==> r[k] == BlockText(blocks[k])
  {
    seq(|blocks|, k requires 0 <= k < |blocks| => BlockText(blocks[k]))
  }

  /** `parse_input_line`: the line is stripped and the rest decides. */
  function ParseInputLine(line: string, addrOf: string -> Option<Addr>, netOf: string -> Option<Block>): Parsed {
    ParseRaw(Strip(line), addrOf, netOf)
  }

  /** The stripped line parsed: '/' is looked for before '-'. */
  function ParseRaw(raw: string, addrOf: string -> Option<Addr>, netOf: string -> Option<Block>): (r: Parsed)
    ensures r.Accepted? ==> r.input.raw == raw && raw != [] && r.input.start <= r.input.end
    ensures r == Rejected(EmptyInput) <==> raw == []
  {
    if raw == [] then Rejected(EmptyInput)
    else if '/' in raw then
      match netOf(raw)
      case None => Rejected(NotANetwork(raw))
      case Some(b) => Accepted(Input(raw, Cidr, First(b), Last(b), [BlockText(b)]))
    else if '-' in raw then
      var (a, b) := RangeOperands(raw);
      match (addrOf(a), addrOf(b))
      case (None, _) => Rejected(NotAnAddress(a))
      case (_, None) => Rejected(NotAnAddress(b))
      case (Some(x), Some(y)) =>
        var (start, end) := if y < x then (y, x) else (x, y);
        Accepted(Input(raw, Range, start, end, BlockTexts(Summarize(start, end))))
    else
      match addrOf(raw)
      case None => Rejected(NotAnAddress(raw))
      case Some(ip) => Accepted(Input(raw, Single, ip, ip, [FormatAddr(ip) + "/32"]))
  }

  /** A line holding '/' is a CIDR block whatever else it holds: host bits are
      ignored, the range is the block from its network to its broadcast
      address, and the one CIDR is the normalised block. */
  lemma CidrIgnoresHostBits(raw: string, addrOf: string -> Option<Addr>, netOf: string -> Option<Block>)
    requires '/' in raw && netOf(raw).Some?
    ensures var b := netOf(raw).value;
      ParseRaw(raw, addrOf, netOf)
        == Accepted(Input(raw, Cidr, NetworkOf(b.base, b.prefix), BroadcastOf(b.base, b.prefix), [BlockText(b)]))
    ensures var i := ParseRaw(raw, addrOf, netOf).input;
      i.end - i.start + 1 == BlockSize(netOf(raw).value.prefix)
  {
  }

  /** An "a-b" line is ordered whichever way round it is written, and its
      CIDR list names the blocks `summarize_address_range` gives, in order. */
  lemma RangeIsOrdered(raw: string, addrOf: string -> Option<Addr>, netOf: string -> Option<Block>)
    requires '/' !in raw && '-' in raw
    requires addrOf(RangeOperands(raw).0).Some? && addrOf(RangeOperands(raw).1).Some?
    ensures var x, y := addrOf(RangeOperands(raw).0).value, addrOf(RangeOperands(raw).1).value;
      var r := ParseRaw(raw, addrOf, netOf);
      r.Accepted? && r.input.kind == Range
      && r.input.start == Min(x, y) && r.input.end == (if x <= y then y else x)
      && r.input.cidrs == BlockTexts(Summarize(r.input.start, r.input.end))
  {
  }

  /** The blocks behind a range's CIDR list hold exactly its addresses. */
  lemma RangeBlocksCoverRange(start: Addr, end: Addr, x: int)
    requires start <= end
    ensures (exists k :: 0 <= k < |Summarize(start, end)| && InBlock(x, Summarize(start, end)[k])) <==> start <= x <= end
  {
    SummarizeCovers(start, end, x);
  }

  /** A line with neither '/' nor '-' is one address: start and end are that
      address and its CIDR list is the address as a /32. */
  lemma SingleIsSlash32(raw: string, addrOf: string -> Option<Addr>, netOf: string -> Option<Block>)
    requires raw != [] && '/' !in raw && '-' !in raw && addrOf(raw).Some?
    ensures var ip := addrOf(raw).value;
      ParseRaw(raw, addrOf, netOf) == Accepted(Input(raw, Single, ip, ip, [FormatAddr(ip) + "/32"]))
  {
  }

  /** "Empty input" is raised exactly for a line of whitespace only. */
  lemma EmptyInputIsBlankLine(line: string, addrOf: string -> Option<Addr>, netOf: string -> Option<Block>)
    ensures ParseInputLine(line, addrOf, netOf) == Rejected(EmptyInput) <==> AllSpace(line)
  {
    StripEmpty(line);
  }
}
