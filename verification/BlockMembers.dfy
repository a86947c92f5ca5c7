/** Enumerating a block (pkg/utils/get_member_addrs.go) and indexing into it (pkg/utils/offset.go). */
module BlockMembers {
  import opened Wrappers
  import opened Bits
  import opened Bytes
  import opened Masks
  import opened Subnets

  const BUFFER_SIZE := 4
  const WORD := 0x1_0000_0000

  /** The blocks the enumerator supports: at most 32 host bits. */
  predicate Enumerable(n: IPNet) {
    n.Canonical() && n.HostBits() <= 32
  }

  /** Every address but the last four bytes, and those bytes as a 32-bit word. */
  lemma BaseParts(n: IPNet)
    requires Enumerable(n)
    ensures var cut := |n.ip| - BUFFER_SIZE;
            && n.Base() == Shl(BigEndian(n.ip[..cut]), 32) + BigEndian(n.ip[cut..])
            && BigEndian(n.ip[cut..]) + Pow2(n.HostBits()) <= WORD
  {
    hide Shl, Shr, Low, Pow2, BigEndian, ApplyMask, CidrMask, V4Mapped;
    var cut, h := |n.ip| - BUFFER_SIZE, n.HostBits();
    var lo := BigEndian(n.ip[cut..]);
    assert n.ip == n.ip[..cut] + n.ip[cut..];
    BigEndianConcat(n.ip[..cut], n.ip[cut..]);
    NoHostBits(n);
    LowOfBytes(n.ip, BUFFER_SIZE);
    LowLow(n.Base(), h, 32 - h);
    Pow2Of32();
    RoomForLowBits(lo, h, 32);
  }

  /** The address built from the fixed prefix and a 32-bit word. */
  lemma MemberValue(prefix: seq<byte>, addr: nat)
    requires addr < WORD
    ensures BigEndian(prefix + ToBytes(addr, BUFFER_SIZE)) == Shl(BigEndian(prefix), 32) + addr
  {
    hide Shl, Pow2, BigEndian, ToBytes;
    Pow2Of32();
    BigEndianOfToBytes(addr, BUFFER_SIZE);
    BigEndianConcat(prefix, ToBytes(addr, BUFFER_SIZE));
  }

  /** The channel's contents on an uncancelled run: address `i` is the network address plus `i`. */
  ghost predicate IsEnumeration(n: IPNet, out: seq<seq<byte>>)
    requires Enumerable(n)
  {
    && |out| == Pow2(n.HostBits())
    && forall i :: 0 <= i < |out| ==> |out[i]| == |n.ip| && BigEndian(out[i]) == n.Base() + i
  }

  /** The block may be given with host bits set; they are masked away first. */
  method GetMemberAddresses32(ipNet: IPNet) returns (out: seq<seq<byte>>)
    requires ipNet.WellFormed() && ipNet.HostBits() <= 32
    ensures IsEnumeration(ipNet.Network(), out)
  {
    hide Shl, Shr, Low, Pow2, BigEndian, ToBytes, ApplyMask, CidrMask;
    ghost var n := ipNet.Network();
    var ip := ApplyMask(ipNet.ip, ipNet.Mask());
    var prefix: seq<byte>, addr: nat, resultLen: nat;
    if ipNet.Total() == 32 {
      resultLen := BUFFER_SIZE;
      prefix := [];
      addr := BigEndian(ip);
      assert ip[0..] == ip && ip[..0] == prefix;
    } else {
      resultLen := 16;
      prefix := ip[..resultLen - BUFFER_SIZE];
      addr := BigEndian(ip[resultLen - BUFFER_SIZE..]);
    }
    BaseParts(n);
    ghost var first := addr;
    var total := Pow2(ipNet.HostBits());
    out := [];
    for k := 0 to total
      invariant addr == (if first + k == WORD then 0 else first + k)
      invariant |out| == k
      invariant forall i :: 0 <= i < k ==> |out[i]| == |n.ip| && BigEndian(out[i]) == n.Base() + i
    {
      MemberValue(prefix, addr);
      out := out + [prefix + ToBytes(addr, BUFFER_SIZE)];
      addr := (addr + 1) % WORD;
    }
  }

  /** The enumerated addresses are exactly those of the block, each once. */
  lemma EnumerationIsBlock(n: IPNet, out: seq<seq<byte>>)
    requires Enumerable(n) && IsEnumeration(n, out)
    ensures forall x: nat :: n.Contains(x) <==> exists i :: 0 <= i < |out| && BigEndian(out[i]) == x
    ensures forall i, j :: 0 <= i < j < |out| ==> out[i] != out[j]
  {
    hide Pow2, BigEndian, ApplyMask, CidrMask;
    forall x: nat
      ensures n.Contains(x) <==> exists i :: 0 <= i < |out| && BigEndian(out[i]) == x
    {
      BlockIsInterval(n, x);
      if n.Contains(x) {
        assert BigEndian(out[x - n.Base()]) == x;
      }
    }
  }

  const SHORT_PREFIX := "IPv6 prefix is shorter than /64, offset would overflow uint64"

  function GetOffset(network: IPNet, host: seq<byte>): Result<nat, string>
    requires network.Canonical() && PlainIP(host) && |host| == |network.ip|
  {
    if To4(host).Some? then
      MaskFits(network.ones, network.ip);
      Success(AndNot(BitXor(BigEndian(host), BigEndian(network.ip)), BigEndian(network.Mask()), 32))
    else if network.ones < 64 then Failure(SHORT_PREFIX)
    else
      var v, n, m := BigEndian(host[8..]), BigEndian(network.ip[8..]), BigEndian(network.Mask()[8..]);
      Success(AndNot(BitXor(v, n), m, 64))
  }

  lemma MaskFits(ones: nat, ip: seq<byte>)
    ensures BigEndian(CidrMask(ones, |ip|)) < Pow2(8 * |ip|)
  {
  }

  /** A mask as a number: all ones, less the host bits. */
  ghost predicate Complementary(ones: nat, size: nat)
    requires ones <= 8 * size
  {
    BigEndian(CidrMask(ones, size)) + Pow2(8 * size - ones) == Pow2(8 * size)
  }

  lemma ComplementStep(ones: nat, size: nat)
    requires size > 0 && ones <= 8 * size
    requires if ones <= 8 * (size - 1) then Complementary(ones, size - 1) else Complementary(8 * (size - 1), size - 1)
    ensures Complementary(ones, size)
  {
    hide Shl, Pow2, BigEndian;
    var m, mask := size - 1, CidrMask(ones, size);
    BigEndianLast(mask);
    Shift8(Pow2(8 * m));
    Pow2Sum(8 * m, 8);
    if ones <= 8 * m {
      assert mask[..m] == CidrMask(ones, m);
      Shift8(Pow2(8 * m - ones));
      Pow2Sum(8 * m - ones, 8);
    } else {
      assert mask[..m] == CidrMask(8 * m, m);
      Pow2OfZero();
    }
  }

  lemma {:induction false} MaskIsComplement(ones: nat, size: nat)
    requires ones <= 8 * size
    ensures Complementary(ones, size)
    decreases size
  {
    if size == 0 {
      assert CidrMask(ones, 0) == [];
    } else {
      MaskIsComplement(if ones <= 8 * (size - 1) then ones else 8 * (size - 1), size - 1);
      ComplementStep(ones, size);
    }
  }

  /** Clearing the masked bits of a difference leaves the host's own host bits. */
  lemma AndNotMask(host: nat, base: nat, ones: nat, size: nat)
    requires ones <= 8 * size && Low(base, 8 * size - ones) == 0
    ensures BigEndian(CidrMask(ones, size)) < Pow2(8 * size)
    ensures AndNot(BitXor(host, base), BigEndian(CidrMask(ones, size)), 8 * size) == Low(host, 8 * size - ones)
  {
    hide Shl, Shr, Low, Pow2, BigEndian, BitAnd, BitXor;
    var h := 8 * size - ones;
    MaskIsComplement(ones, size);
    AndLowMask(BitXor(host, base), h);
    XorLow(host, base, h);
  }

  /** The offset of any host address is its host bits, and the only failure is a prefix shorter than /64. */
  lemma OffsetIsHostBits(n: IPNet, host: seq<byte>)
    requires n.Canonical() && PlainIP(host) && |host| == |n.ip|
    ensures |host| == 16 && n.ones < 64 ==> GetOffset(n, host) == Failure(SHORT_PREFIX)
    ensures |host| == 4 || n.ones >= 64 ==> GetOffset(n, host) == Success(Low(BigEndian(host), n.HostBits()))
  {
    hide Shl, Shr, Low, Pow2, BigEndian, BitAnd, BitXor, ApplyMask, AndNot;
    NoHostBits(n);
    var h := n.HostBits();
    if |host| == 4 {
      AndNotMask(BigEndian(host), n.Base(), n.ones, 4);
    } else if n.ones >= 64 {
      assert n.Mask()[8..] == CidrMask(n.ones - 64, 8);
      LowOfBytes(host, 8);
      LowOfBytes(n.ip, 8);
      LowLow(n.Base(), h, 64 - h);
      LowLow(BigEndian(host), h, 64 - h);
      AndNotMask(BigEndian(host[8..]), BigEndian(n.ip[8..]), n.ones - 64, 8);
    }
  }

  /** No member of an enumerable block is an IPv4 address in disguise. */
  lemma MemberIsPlain(n: IPNet, out: seq<seq<byte>>, i: nat)
    requires Enumerable(n) && IsEnumeration(n, out) && i < |out|
    ensures PlainIP(out[i])
  {
    hide Shl, Shr, Low, Pow2, BigEndian, ApplyMask;
    if |n.ip| == 16 {
      var x := BigEndian(out[i]);
      BlockIsInterval(n, x);
      PrefixShorten(x, n.Base(), 128, 96, n.ones);
      PrefixOfBytes(out[i], 12);
      PrefixOfBytes(n.ip, 12);
      BigEndianInjective(out[i][..12], n.ip[..12]);
      assert out[i][..12][..10] == out[i][..10] && n.ip[..12][..10] == n.ip[..10];
      assert out[i][..12][10] == n.ip[..12][10] && out[i][..12][11] == n.ip[..12][11];
    }
  }

  /** Indexing undoes enumeration: the offset of the `i`-th address of a block is `i`. */
  lemma OffsetOfMember(n: IPNet, out: seq<seq<byte>>, i: nat)
    requires Enumerable(n) && IsEnumeration(n, out) && i < |out|
    ensures PlainIP(out[i]) && GetOffset(n, out[i]) == Success(i)
  {
    hide Shl, Shr, Low, Pow2, BigEndian, ApplyMask, GetOffset;
    MemberIsPlain(n, out, i);
    OffsetIsHostBits(n, out[i]);
    NoHostBits(n);
    Split(n.Base(), n.HostBits());
    Unsplit(Shr(n.Base(), n.HostBits()), i, n.HostBits());
  }

  /** Masking an address out of a block and adding its offset gives the address back. */
  lemma BasePlusOffset(n: IPNet, host: seq<byte>)
    requires n.Canonical() && PlainIP(host) && |host| == |n.ip| && n.Contains(BigEndian(host))
    requires |host| == 4 || n.ones >= 64
    ensures GetOffset(n, host).Success? && n.Base() + GetOffset(n, host).value == BigEndian(host)
  {
    hide Shl, Shr, Low, Pow2, BigEndian, ApplyMask, GetOffset;
    OffsetIsHostBits(n, host);
    NoHostBits(n);
    Split(n.Base(), n.HostBits());
    Split(BigEndian(host), n.HostBits());
  }
}
