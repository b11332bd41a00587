/** `subnet_calculator` of subnet_calc.py: the network and broadcast
    address, host count, wildcard, mask and usable range of the network a
    CIDR text names (read non-strictly, so host bits are ignored). The text
    parser is left to `ip_network`; the model starts from the block it yields. */
module SubnetCalc {
  import opened Common
  import opened Ipv4

  /** `network.hosts()`: every address but the network and broadcast ones;
      a /31 has both of its addresses and a /32 its one address. */
  function Hosts(b: Block): (r: seq<Addr>)
    ensures forall i :: 0 <= i < |r| ==> InBlock(r[i], b)
  {
    var first, last := First(b), Last(b);
    if b.prefix == 32 then [first]
    else if b.prefix == 31 then [first, last]
    else
      assert BlockSize(b.prefix) >= 4 by { Pow2Monotone(2, 32 - b.prefix); }
      seq(BlockSize(b.prefix) - 2, i requires 0 <= i < BlockSize(b.prefix) - 2 => (first + 1 + i) as Addr)
  }

  /** The text after "Usable IP Range: ". */
  function UsableRange(b: Block): string {
    var hosts := Hosts(b);
    if |hosts| > 0 then FormatAddr(hosts[0]) + " - " + FormatAddr(hosts[|hosts| - 1]) else "No usable IPs"
  }

  /** The dictionary `subnet_calculator` returns. */
  datatype SubnetInfo = SubnetInfo(network: Addr, broadcast: Addr, hosts: int, wildcard: Addr, mask: Addr, usable: string)

  function SubnetCalculator(b: Block): SubnetInfo {
    SubnetInfo(First(b), Last(b), BlockSize(b.prefix) - 2, Wildcard(b.prefix), Netmask(b.prefix), UsableRange(b))
  }

  /** The network address clears the host bits of the address and the broadcast
      address sets them: the address lies between them, and they span exactly
      2^(32 - prefix) addresses. */
  lemma NetworkAndBroadcast(b: Block)
    ensures var s := SubnetCalculator(b);
      s.network <= b.base <= s.broadcast
      && s.broadcast - s.network + 1 == Pow2(32 - b.prefix)
      && s.network == ClearLowBits(b.base, 32 - b.prefix)
      && ClearLowBits(s.network, 32 - b.prefix) == s.network
  {
    var s := SubnetCalculator(b);
    assert s.network == First(b) && s.broadcast == Last(b);
    BlockEnds(b);
  }

  lemma BlockEnds(b: Block)
    ensures First(b) <= b.base <= Last(b)
      && Last(b) - First(b) + 1 == Pow2(32 - b.prefix)
      && First(b) == ClearLowBits(b.base, 32 - b.prefix)
      && ClearLowBits(First(b), 32 - b.prefix) == First(b)
  {
    ClearedIsCleared(b.base, 32 - b.prefix);
  }

  lemma {:induction false} ClearedIsCleared(a: nat, k: nat)
    ensures ClearLowBits(ClearLowBits(a, k), k) == ClearLowBits(a, k)
    decreases k
  {
    if k > 0 {
      ClearedIsCleared(a / 2, k - 1);
      assert 2 * ClearLowBits(a / 2, k - 1) / 2 == ClearLowBits(a / 2, k - 1);
    }
  }

  /** The host count is the block size less two: 0 for a /31 and -1 for a
      /32, although `hosts()` lists two and one address for those. */
  lemma HostCount(b: Block)
    ensures SubnetCalculator(b).hosts == Pow2(32 - b.prefix) - 2
    ensures b.prefix <= 30 ==> |Hosts(b)| == SubnetCalculator(b).hosts
    ensures b.prefix == 31 ==> SubnetCalculator(b).hosts == 0 && |Hosts(b)| == 2
    ensures b.prefix == 32 ==> SubnetCalculator(b).hosts == -1 && |Hosts(b)| == 1
  {
  }

  /** Clearing the `k` low bits of `2^m - 1` leaves `2^m - 2^k`: ones above bit `k`. */
  lemma {:induction false} ClearOnes(m: nat, k: nat)
    requires k <= m
    ensures ClearLowBits(Pow2(m) - 1, k) == Pow2(m) - Pow2(k)
    decreases k
  {
    if k > 0 {
      assert (Pow2(m) - 1) / 2 == Pow2(m - 1) - 1;
      ClearOnes(m - 1, k - 1);
    }
  }

  /** The mask is `prefix` ones followed by zeros, the wildcard is its
      complement within 32 bits (the host bits all set), and the two add up to
      0xFFFFFFFF. */
  lemma MaskAndWildcard(b: Block)
    ensures var s := SubnetCalculator(b);
      s.mask == ClearLowBits(0xFFFF_FFFF, 32 - b.prefix)
      && s.wildcard == Pow2(32 - b.prefix) - 1
      && s.mask + s.wildcard == 0xFFFF_FFFF
  {
    var s := SubnetCalculator(b);
    assert s.mask == Netmask(b.prefix) && s.wildcard == Wildcard(b.prefix);
    MaskBits(b.prefix);
  }

  lemma MaskBits(p: PrefixLen)
    ensures Netmask(p) == ClearLowBits(0xFFFF_FFFF, 32 - p) && Wildcard(p) == Pow2(32 - p) - 1
  {
    var k := 32 - p;
    Pow2Is32();
    assert Pow2(32) - 1 == 0xFFFF_FFFF;
    ClearOnes(32, k);
    assert Netmask(p) == Pow2(32) - Pow2(k);
  }

  /** Up to a /30 the usable range runs from the address after the network
      address to the one before the broadcast address. */
  lemma UsableRangeInside(b: Block)
    requires b.prefix <= 30
    ensures UsableRange(b) == FormatAddr(First(b) + 1) + " - " + FormatAddr(Last(b) - 1)
  {
    var hosts := Hosts(b);
    assert |hosts| == BlockSize(b.prefix) - 2 && |hosts| >= 2;
    assert hosts[0] == First(b) + 1;
    assert hosts[|hosts| - 1] == Last(b) - 1;
  }

  /** `hosts()` is never empty, so "No usable IPs" is never shown: a /31 shows
      its two addresses and a /32 its one address twice. */
  lemma NoUsableIpsNeverShown(b: Block)
    ensures UsableRange(b) != "No usable IPs"
    ensures b.prefix == 31 ==> UsableRange(b) == FormatAddr(First(b)) + " - " + FormatAddr(Last(b))
    ensures b.prefix == 32 ==> UsableRange(b) == FormatAddr(b.base) + " - " + FormatAddr(b.base)
  {
    var hosts := Hosts(b);
    assert |hosts| >= 1;
    var u := FormatAddr(hosts[0]) + " - " + FormatAddr(hosts[|hosts| - 1]);
    DigitsOnlyFormat(hosts[0]);
    assert IsDigit(u[0]) && !IsDigit("No usable IPs"[0]);
    if b.prefix == 32 {
      assert BlockSize(32) == 1;
    }
  }

  /** Dotted-quad text starts with a digit. */
  lemma DigitsOnlyFormat(a: Addr)
    ensures FormatAddr(a) != [] && IsDigit(FormatAddr(a)[0])
  {
    var n := NatToString(a / 0x100_0000);
    assert FormatAddr(a)[0] == n[0];
  }
}
