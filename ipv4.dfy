/** IPv4 addresses as naturals below 2^32, prefix lengths, address blocks
    (`ipaddress.IPv4Network`), their dotted-quad text, and
    `ipaddress.summarize_address_range`. */
module Ipv4 {
  import opened Common

  const AddressSpace: nat := 0x1_0000_0000

  type Addr = n: nat | n < 0x1_0000_0000

  type PrefixLen = p: nat | p <= 32

  function Pow2(k: nat): (r: nat)
    ensures r >= 1
  {
    if k == 0 then 1 else 2 * Pow2(k - 1)
  }

  lemma {:induction false} Pow2Monotone(a: nat, b: nat)
    requires a <= b
    ensures Pow2(a) <= Pow2(b)
    decreases b
  {
    if a < b { Pow2Monotone(a, b - 1); }
  }

  lemma {:induction false} Pow2Add(a: nat, b: nat)
    ensures Pow2(a + b) == Pow2(a) * Pow2(b)
    decreases a
  {
    if a > 0 { Pow2Add(a - 1, b); }
  }

  lemma Pow2Is32()
    ensures Pow2(32) == AddressSpace
  {
    assert Pow2(2) == 4;
    Pow2Add(2, 2);
    Pow2Add(4, 4);
    Pow2Add(8, 8);
    Pow2Add(16, 16);
  }

  /** Number of addresses in a block of the given prefix length. */
  function BlockSize(p: PrefixLen): (r: nat)
    ensures 1 <= r <= AddressSpace
  {
    Pow2Monotone(32 - p, 32);
    Pow2Is32();
    Pow2(32 - p)
  }

  /** `a` with its `k` lowest bits set to zero. */
  function ClearLowBits(a: nat, k: nat): (r: nat)
    ensures r <= a < r + Pow2(k)
  {
    if k == 0 then a else 2 * ClearLowBits(a / 2, k - 1)
  }

  /** Clearing bits of an address below `2^m` leaves room for the whole block below `2^m`. */
  lemma {:induction false} ClearLowBitsRoom(a: nat, k: nat, m: nat)
    requires a < Pow2(m) && k <= m
    ensures ClearLowBits(a, k) + Pow2(k) <= Pow2(m)
    decreases k
  {
    if k > 0 { ClearLowBitsRoom(a / 2, k - 1, m - 1); }
  }

  /** A number whose `j` low bits are zero also has its `k <= j` low bits zero. */
  lemma {:induction false} ClearedStaysCleared(n: nat, j: nat, k: nat)
    requires k <= j && ClearLowBits(n, j) == n
    ensures ClearLowBits(n, k) == n
    decreases k
  {
    if k > 0 { ClearedStaysCleared(n / 2, j - 1, k - 1); }
  }

  /** The address with its host bits cleared (`network_address`, non-strict). */
  function NetworkOf(a: Addr, p: PrefixLen): (r: Addr)
    ensures r <= a && a - r < BlockSize(p)
  {
    ClearLowBits(a, 32 - p)
  }

  /** The address with its host bits set (`broadcast_address`, non-strict). */
  function BroadcastOf(a: Addr, p: PrefixLen): (r: Addr)
    ensures NetworkOf(a, p) <= a <= r
    ensures r - NetworkOf(a, p) == BlockSize(p) - 1
  {
    Pow2Is32();
    ClearLowBitsRoom(a, 32 - p, 32);
    NetworkOf(a, p) + BlockSize(p) - 1
  }

  /** `netmask`: ones in the prefix bits, zeros in the host bits. */
  function Netmask(p: PrefixLen): (r: Addr)
  {
    AddressSpace - BlockSize(p)
  }

  /** `~netmask & 0xFFFFFFFF`: the complement of the mask within 32 bits. */
  function Wildcard(p: PrefixLen): (r: Addr)
  {
    0xFFFF_FFFF - Netmask(p)
  }

  /** Dotted-quad text of an address (`str(IPv4Address)`). */
  function FormatAddr(a: Addr): string {
    NatToString(a / 0x100_0000) + "." + NatToString(a / 0x1_0000 % 0x100) + "."
      + NatToString(a / 0x100 % 0x100) + "." + NatToString(a % 0x100)
  }

  /** An `IPv4Network`: a base address and a prefix length. */
  datatype Block = Block(base: Addr, prefix: PrefixLen)

  /** `str(network)`: `"<network address>/<prefix length>"`. */
  function BlockText(b: Block): string {
    FormatAddr(NetworkOf(b.base, b.prefix)) + "/" + NatToString(b.prefix)
  }

  /** Host bits of the base are zero (what `ip_network(..., strict=True)` insists on). */
  predicate Aligned(b: Block) {
    ClearLowBits(b.base, 32 - b.prefix) == b.base
  }

  function First(b: Block): Addr { NetworkOf(b.base, b.prefix) }

  function Last(b: Block): Addr { BroadcastOf(b.base, b.prefix) }

  predicate InBlock(x: int, b: Block) { First(b) <= x <= Last(b) }

  /** `IPv4Network.overlaps`: either block holds an end point of the other. */
  predicate Overlaps(a: Block, b: Block) {
    InBlock(First(b), a) || InBlock(Last(b), a) || InBlock(First(a), b) || InBlock(Last(a), b)
  }

  /** Two blocks overlap exactly when some address lies in both. */
  lemma OverlapsMeansCommonAddress(a: Block, b: Block)
    ensures Overlaps(a, b) <==> exists x :: InBlock(x, a) && InBlock(x, b)
  {
    if exists x :: InBlock(x, a) && InBlock(x, b) {
      var x :| InBlock(x, a) && InBlock(x, b);
      if First(a) <= First(b) {
        assert InBlock(First(b), a);
      } else {
        assert InBlock(First(a), b);
      }
    }
  }

  // ---------------------------------------------------------------- summarize_address_range

  /** `_count_righthand_zero_bits(n, bits)`: trailing zero bits, `bits` for zero. */
  function TrailingZeros(n: nat, bits: nat): (r: nat)
    ensures r <= bits
    ensures ClearLowBits(n, r) == n
  {
    if bits == 0 then 0
    else if n == 0 then ZeroCleared(bits); bits
    else if n % 2 != 0 then 0
    else 1 + TrailingZeros(n / 2, bits - 1)
  }

  /** The count is the largest: one more cleared bit changes a nonzero `n`. */
  lemma {:induction false} TrailingZerosMaximal(n: nat, bits: nat)
    requires n > 0 && TrailingZeros(n, bits) < bits
    ensures ClearLowBits(n, TrailingZeros(n, bits) + 1) != n
  {
    if n % 2 == 0 {
      TrailingZerosMaximal(n / 2, bits - 1);
    }
  }

  lemma {:induction false} ZeroCleared(k: nat)
    ensures ClearLowBits(0, k) == 0
  {
    if k > 0 { ZeroCleared(k - 1); }
  }

  /** `n.bit_length() - 1` for a positive `n`: the largest `k` with `2^k <= n`. */
  function Log2Floor(n: nat): (k: nat)
    requires n >= 1
    ensures Pow2(k) <= n < 2 * Pow2(k)
  {
    if n == 1 then 0 else 1 + Log2Floor(n / 2)
  }

  /** Aligned blocks, in ascending order, that together hold exactly the
      addresses from `first` to `last`. */
  function Summarize(first: nat, last: Addr): (r: seq<Block>)
    ensures forall i :: 0 <= i < |r| ==> Aligned(r[i]) && first <= First(r[i]) && Last(r[i]) <= last
    ensures first <= last <==> |r| > 0
    decreases last + 1 - first
  {
    if first > last then []
    else
      var nbits := StepBits(first, last);
      SummarizeStep(first, last, nbits);
      var b := Block(first, 32 - nbits);
      [b] + Summarize(first + Pow2(nbits), last)
  }

  function Min(a: nat, b: nat): nat { if a <= b then a else b }

  /** Host bits of the next block: as many as the alignment of `first` and
      the length of what is left both allow. */
  function StepBits(first: nat, last: Addr): nat
    requires first <= last
  {
    Min(TrailingZeros(first, 32), Log2Floor(last - first + 1))
  }

  /** The step's block is aligned at `first` and does not pass `last`. */
  lemma StepBitsFit(first: nat, last: Addr)
    requires first <= last
    ensures StepBits(first, last) <= 32 && ClearLowBits(first, StepBits(first, last)) == first
    ensures first + Pow2(StepBits(first, last)) <= last + 1
  {
    var tz, lg := TrailingZeros(first, 32), Log2Floor(last - first + 1);
    ClearedStaysCleared(first, tz, StepBits(first, last));
    Pow2Monotone(StepBits(first, last), lg);
  }

  lemma SummarizeStep(first: nat, last: Addr, nbits: nat)
    requires first <= last
    requires nbits == StepBits(first, last)
    ensures nbits <= 32 && ClearLowBits(first, nbits) == first
    ensures first + Pow2(nbits) <= last + 1
    ensures Aligned(Block(first, 32 - nbits))
    ensures First(Block(first, 32 - nbits)) == first
    ensures Last(Block(first, 32 - nbits)) == first + Pow2(nbits) - 1
  {
    StepBitsFit(first, last);
    StepBlockBounds(first, last);
    StepBlockAligned(first, last);
  }

  lemma StepBlockAligned(first: nat, last: Addr)
    requires first <= last
    ensures StepBits(first, last) <= 32 && Aligned(Block(first, 32 - StepBits(first, last)))
  {
    StepBitsFit(first, last);
  }

  lemma StepBlockBounds(first: nat, last: Addr)
    requires first <= last
    ensures StepBits(first, last) <= 32
    ensures First(Block(first, 32 - StepBits(first, last))) == first
    ensures Last(Block(first, 32 - StepBits(first, last))) == first + Pow2(StepBits(first, last)) - 1
  {
    StepBitsFit(first, last);
  }

  /** No larger block would do: one more host bit either breaks the alignment
      of `first`, passes `last`, or exceeds the address space. */
  lemma SummarizeStepLargest(first: nat, last: Addr, nbits: nat)
    requires first <= last
    requires nbits == StepBits(first, last)
    ensures nbits == 32 || ClearLowBits(first, nbits + 1) != first || first + Pow2(nbits + 1) > last + 1
  {
    if first > 0 && TrailingZeros(first, 32) < 32 {
      TrailingZerosMaximal(first, 32);
    }
  }

  /** The first block of a non-empty summary starts at `first`, and the rest
      is the summary of what follows it. */
  lemma SummarizeHead(first: nat, last: Addr)
    requires first <= last
    ensures |Summarize(first, last)| > 0 && First(Summarize(first, last)[0]) == first
    ensures Last(Summarize(first, last)[0]) + 1 == first + Pow2(StepBits(first, last))
    ensures Summarize(first, last)[1..] == Summarize(first + Pow2(StepBits(first, last)), last)
  {
    SummarizeStep(first, last, StepBits(first, last));
  }

  /** Each block starts right after the one before it ends. */
  predicate Contiguous(bs: seq<Block>) {
    forall i :: 0 <= i < |bs| - 1 ==> Last(bs[i]) + 1 == First(bs[i + 1])
  }

  lemma ContiguousCons(b: Block, bs: seq<Block>)
    requires Contiguous(bs) && (|bs| > 0 ==> Last(b) + 1 == First(bs[0]))
    ensures Contiguous([b] + bs)
  {
    var r := [b] + bs;
    forall i | 0 <= i < |r| - 1
      ensures Last(r[i]) + 1 == First(r[i + 1])
    {
      if i > 0 {
        assert r[i] == bs[i - 1] && r[i + 1] == bs[i];
      }
    }
  }

  /** The blocks of the summary follow one another without gap or overlap,
      the first starting at `first` and the last ending at `last`. */
  lemma {:induction false} SummarizeContiguous(first: nat, last: Addr)
    requires first <= last
    ensures First(Summarize(first, last)[0]) == first
    ensures Last(Summarize(first, last)[|Summarize(first, last)| - 1]) == last
    ensures Contiguous(Summarize(first, last))
    decreases last + 1 - first
  {
    var r := Summarize(first, last);
    SummarizeHead(first, last);
    var next := first + Pow2(StepBits(first, last));
    var rest := Summarize(next, last);
    assert r == [r[0]] + rest;
    if next <= last {
      SummarizeContiguous(next, last);
      ContiguousCons(r[0], rest);
      assert r[|r| - 1] == rest[|rest| - 1];
    } else {
      assert |rest| == 0;
    }
  }

  /** The summary holds exactly the addresses of the range. */
  lemma SummarizeCovers(first: nat, last: Addr, x: int)
    ensures (exists i :: 0 <= i < |Summarize(first, last)| && InBlock(x, Summarize(first, last)[i]))
        <==> first <= x <= last
  {
    if first <= x <= last {
      var i := SummarizeFind(first, last, x);
    }
  }

  /** The block of the summary that holds a given address of the range. */
  lemma {:induction false} SummarizeFind(first: nat, last: Addr, x: int) returns (i: nat)
    requires first <= x <= last
    ensures i < |Summarize(first, last)| && InBlock(x, Summarize(first, last)[i])
    decreases last + 1 - first
  {
    var r := Summarize(first, last);
    var nbits := StepBits(first, last);
    SummarizeStep(first, last, nbits);
    var b := Block(first, 32 - nbits);
    var next := first + Pow2(nbits);
    assert r == [b] + Summarize(next, last);
    if x < next {
      i := 0;
    } else {
      var j := SummarizeFind(next, last, x);
      i := j + 1;
    }
  }
}
