/** CIDR blocks as `net.IPNet` holds them, and the interval of addresses a block stands for. */
module Subnets {
  import opened Wrappers
  import opened Bits
  import opened Bytes
  import opened Masks

  predicate V4Mapped(ip: seq<byte>) {
    |ip| == 16 && ip[..10] == seq(10, _ => 0 as byte) && ip[10] == 255 && ip[11] == 255
  }

  /** `net.IP.To4`: the four-byte form, when there is one. */
  function To4(ip: seq<byte>): Option<seq<byte>> {
    if |ip| == 4 then Some(ip)
    else if V4Mapped(ip) then Some(ip[12..])
    else None
  }

  /** The sixteen-byte form that `net.ParseIP` gives an IPv4 address. */
  function Mapped(v4: seq<byte>): seq<byte> {
    [0, 0, 0, 0, 0, 0, 0, 0, 0, 0, 255, 255] + v4
  }

  /** The address is the IPv4 address of these four bytes, in either form. */
  predicate IsIPv4(ip: seq<byte>, v4: seq<byte>) {
    |v4| == 4 && (ip == v4 || ip == Mapped(v4))
  }

  /** The four bytes come back from either form of an IPv4 address, and no other address has four. */
  lemma To4Exactly(ip: seq<byte>, v4: seq<byte>)
    ensures To4(ip) == Some(v4) <==> IsIPv4(ip, v4)
    ensures To4(ip) == None <==> |ip| != 4 && (|ip| == 16 ==> ip != Mapped(ip[12..]))
  {
    if |ip| == 16 {
      assert ip == ip[..10] + [ip[10], ip[11]] + ip[12..];
      assert Mapped(ip[12..])[..10] == seq(10, _ => 0 as byte);
      MappedMarks(ip[12..]);
    }
    if |v4| == 4 {
      MappedMarks(v4);
    }
  }

  lemma MappedMarks(v4: seq<byte>)
    requires |v4| == 4
    ensures V4Mapped(Mapped(v4)) && Mapped(v4)[12..] == v4 && To4(Mapped(v4)) == Some(v4)
  {
    assert Mapped(v4)[..10] == seq(10, _ => 0 as byte);
  }

  /** An address in the form this model covers: four bytes, or sixteen that are not an IPv4 address in disguise. */
  predicate PlainIP(ip: seq<byte>) {
    |ip| == 4 || (|ip| == 16 && !V4Mapped(ip))
  }

  /** The mask is the prefix mask of `ones` bits, as `net.ParseCIDR` builds it. */
  datatype IPNet = IPNet(ip: seq<byte>, ones: nat) {
    function Total(): nat {
      8 * |ip|
    }

    function Mask(): (m: seq<byte>)
      ensures |m| == |ip|
    {
      CidrMask(ones, |ip|)
    }

    predicate WellFormed() {
      PlainIP(ip) && ones <= Total()
    }

    /** The network address carries no host bits. */
    predicate Canonical() {
      WellFormed() && ApplyMask(ip, Mask()) == ip
    }

    /** The block with its host bits masked away. */
    function Network(): (n: IPNet)
      requires WellFormed()
      ensures n.Canonical() && |n.ip| == |ip| && n.ones == ones
      ensures Canonical() ==> n == this
    {
      MaskedIsPlain(ip, ones);
      MaskTwice(ip, ones);
      IPNet(ApplyMask(ip, Mask()), ones)
    }

    function HostBits(): nat
      requires WellFormed()
    {
      Total() - ones
    }

    function Base(): nat {
      BigEndian(ip)
    }

    /** The address with number `x` agrees with the network address on the prefix. */
    predicate Contains(x: nat)
      requires WellFormed()
    {
      x < Pow2(Total()) && Prefix(x, Total(), ones) == Prefix(Base(), Total(), ones)
    }

    function Last(): nat
      requires Canonical()
    {
      Base() + Pow2(HostBits()) - 1
    }
  }

  /** A byte that masks to all ones was all ones, under a full mask. */
  lemma FullByte(d: byte, k: nat)
    requires k <= 8
    ensures AndByte(d, HighOnes(k)) == 255 ==> d == 255 && k == 8
  {
    MaskedByte(d, k);
    assert k < 8 ==> Low(255, 8 - k) > 0;
  }

  lemma FullMask(bs: seq<byte>, ones: nat, n: nat)
    requires 8 * n <= ones && n <= |bs|
    ensures ApplyMask(bs, CidrMask(ones, |bs|))[..n] == bs[..n]
    ensures forall k :: 0 <= k <= n ==> ApplyMask(bs, CidrMask(ones, |bs|))[..k] == bs[..k]
  {
    forall i | 0 <= i < n
      ensures AndByte(bs[i], HighOnes(BitsInByte(ones, i))) == bs[i]
    {
      MaskedByte(bs[i], 8);
    }
  }

  /** Masking makes no IPv4 address in disguise of an address that was none. */
  lemma MaskedIsPlain(ip: seq<byte>, ones: nat)
    requires PlainIP(ip)
    ensures PlainIP(ApplyMask(ip, CidrMask(ones, |ip|)))
  {
    hide HighOnes, BitAnd;
    var masked := ApplyMask(ip, CidrMask(ones, |ip|));
    if V4Mapped(masked) {
      FullByte(ip[10], BitsInByte(ones, 10));
      FullByte(ip[11], BitsInByte(ones, 11));
      FullMask(ip, ones, 12);
    }
  }

  /** The masked prefix is the prefix. */
  lemma MaskKeepsPrefix(ip: seq<byte>, ones: nat)
    requires ones <= 8 * |ip|
    ensures var masked := ApplyMask(ip, CidrMask(ones, |ip|));
            Prefix(BigEndian(masked), 8 * |ip|, ones) == Prefix(BigEndian(ip), 8 * |ip|, ones)
  {
    hide Shl, Shr, Low, Pow2, BigEndian, ApplyMask, CidrMask;
    MaskedValue(ip, ones);
    Unsplit(Prefix(BigEndian(ip), 8 * |ip|, ones), 0, 8 * |ip| - ones);
  }

  lemma MaskTwice(ip: seq<byte>, ones: nat)
    requires ones <= 8 * |ip|
    ensures var masked := ApplyMask(ip, CidrMask(ones, |ip|)); ApplyMask(masked, CidrMask(ones, |ip|)) == masked
  {
    hide BigEndian, ApplyMask, CidrMask, Prefix;
    MaskKeepsPrefix(ip, ones);
    SameMasked(ApplyMask(ip, CidrMask(ones, |ip|)), ip, ones);
  }

  /** A block contains what its network contains. */
  lemma NetworkContains(n: IPNet, x: nat)
    requires n.WellFormed()
    ensures n.Contains(x) <==> n.Network().Contains(x)
  {
    hide BigEndian, ApplyMask, CidrMask, Prefix;
    MaskKeepsPrefix(n.ip, n.ones);
  }

  lemma NoHostBits(n: IPNet)
    requires n.Canonical()
    ensures Low(n.Base(), n.HostBits()) == 0
  {
    MaskClearsLow(n.ip, n.ones);
  }

  /** A number without low bits leaves room for all of them. */
  lemma RoomForLowBits(a: nat, h: nat, n: nat)
    requires h <= n && a < Pow2(n) && Low(a, h) == 0
    ensures a + Pow2(h) <= Pow2(n)
  {
    hide Shl, Shr, Low, Pow2;
    var q := Shr(a, h);
    Split(a, h);
    Pow2Sum(n - h, h);
    if q >= Pow2(n - h) {
      ShlMonotonic(Pow2(n - h), q, h);
    } else {
      ShlMonotonic(q + 1, Pow2(n - h), h);
      ShlSum(q, 1, h);
      ShlOfOne(h);
    }
  }

  /** A block is the interval from its network address to the address with all host bits set. */
  lemma BlockIsInterval(n: IPNet, x: nat)
    requires n.Canonical()
    ensures n.Last() < Pow2(n.Total())
    ensures n.Contains(x) <==> n.Base() <= x <= n.Last()
  {
    hide Shl, Shr, Low, Pow2, BigEndian, ApplyMask, CidrMask, V4Mapped;
    var h := n.HostBits();
    NoHostBits(n);
    RoomForLowBits(n.Base(), h, n.Total());
    Split(n.Base(), h);
    Split(x, h);
    var q, qx := Shr(n.Base(), h), Shr(x, h);
    if q < qx {
      ShlMonotonic(q + 1, qx, h);
      ShlSum(q, 1, h);
      ShlOfOne(h);
    } else if qx < q {
      ShlMonotonic(qx + 1, q, h);
      ShlSum(qx, 1, h);
      ShlOfOne(h);
    }
  }
}
