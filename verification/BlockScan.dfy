/** Scanning one CIDR block end to end (pkg/pinger/scaner.go): which blocks are admitted, and what the finished
    output says about the block. */
module BlockScan {
  import opened Wrappers
  import opened Bits
  import opened Bytes
  import opened Subnets
  import opened SubsetCheck
  import opened BlockMembers
  import Scanner

  /** `IsLinkLocalUnicast` or `IsLinkLocalMulticast`. */
  predicate LinkLocal(ip: seq<byte>) {
    match To4(ip)
    case Some(v4) =>
      |v4| == 4 && ((v4[0] == 169 && v4[1] == 254) || (v4[0] == 224 && v4[1] == 0 && v4[2] == 0))
    case None =>
      |ip| == 16 && ((ip[0] == 0xfe && ip[1] / 64 == 2) || (ip[0] == 0xff && ip[1] % 16 == 2))
  }

  /** Some address of the block is outside the configured range. */
  ghost predicate OutOfRange(n: IPNet, respondRange: seq<IPNet>)
    requires n.Canonical() && forall m :: m in respondRange ==> m.WellFormed()
  {
    respondRange != [] && exists x: nat :: n.Contains(x) && !Allowed(|n.ip|, respondRange, x)
  }

  /** The checks before a scan: `cidr` is what `net.ParseCIDR` makes of the argument, `nwAddr` its address part. */
  method AdmitBlock(nwAddr: seq<byte>, cidr: Option<IPNet>, respondRange: seq<IPNet>) returns (r: Result<IPNet, string>)
    requires cidr.Some? ==> cidr.value.Canonical()
    requires forall m :: m in respondRange ==> m.WellFormed()
    ensures r.Success? <==>
              && cidr.Some?
              && !OutOfRange(cidr.value, respondRange)
              && !LinkLocal(nwAddr)
              && cidr.value.HostBits() <= 32
    ensures r.Success? ==> r.value == cidr.value && Enumerable(r.value)
  {
    if cidr.None? {
      return Failure("invalid cidr");
    }
    var ipNet := cidr.value;
    if |respondRange| > 0 {
      var inside := IsSubset(ipNet, respondRange);
      if !inside {
        return Failure("it does not fall within the allowed set");
      }
    }
    if LinkLocal(nwAddr) {
      return Failure("link-local addresses are not supported");
    }
    var hostBits := ipNet.Total() - ipNet.ones;
    if hostBits > 32 {
      return Failure("too many host bits");
    }
    r := Success(ipNet);
  }

  // ----- the link-local blocks -----

  /** 169.254.0.0, where the unicast link-local block of 16 bits starts, and 224.0.0.0, where the multicast one of 24 does. */
  const LINK_LOCAL_UNICAST: seq<byte> := [169, 254, 0, 0]
  const LINK_LOCAL_MULTICAST: seq<byte> := [224, 0, 0, 0]

  /** fe80::, where the IPv6 unicast block of 10 bits starts. */
  const LINK_LOCAL_UNICAST6: seq<byte> := [0xfe, 0x80, 0, 0, 0, 0, 0, 0, 0, 0, 0, 0, 0, 0, 0, 0]

  /** ff02::, ff12::, ..., ffF2::, by the flags: where an IPv6 link-local multicast block of 16 bits starts. */
  function LinkLocalMulticast6(flags: nat): seq<byte>
    requires flags < 16
  {
    [0xff, (16 * flags + 2) as byte, 0, 0, 0, 0, 0, 0, 0, 0, 0, 0, 0, 0, 0, 0]
  }

  /** The address lies in the block of `ones` bits that starts at `start`. */
  predicate InBlock(ip: seq<byte>, start: seq<byte>, ones: nat)
    requires PlainIP(start) && ones <= 8 * |start|
  {
    |ip| == |start| && IPNet(start, ones).Contains(BigEndian(ip))
  }

  lemma InBlockOfBytes(ip: seq<byte>, start: seq<byte>, k: nat)
    requires PlainIP(start) && |ip| == |start| && k <= |start|
    ensures InBlock(ip, start, 8 * k) <==> ip[..k] == start[..k]
  {
    assert BigEndian(ip) < Pow2(8 * |ip|);
    hide BigEndian, Pow2, Prefix, V4Mapped;
    PrefixOfBytes(ip, k);
    PrefixOfBytes(start, k);
    if BigEndian(ip[..k]) == BigEndian(start[..k]) {
      BigEndianInjective(ip[..k], start[..k]);
    }
  }

  /** A block of one byte and two bits more. */
  lemma InBlockOfTenBits(ip: seq<byte>, start: seq<byte>)
    requires PlainIP(start) && |ip| == |start|
    ensures InBlock(ip, start, 10) <==> ip[0] == start[0] && ip[1] / 64 == start[1] / 64
  {
    assert BigEndian(ip) < Pow2(8 * |ip|);
    hide BigEndian, Pow2, Prefix, Field, V4Mapped;
    PrefixAgreement(BigEndian(ip), BigEndian(start), 8 * |ip|, 8, 2);
    PrefixOfBytes(ip, 1);
    PrefixOfBytes(start, 1);
    if BigEndian(ip[..1]) == BigEndian(start[..1]) {
      BigEndianInjective(ip[..1], start[..1]);
      assert ip[..1][0] == start[..1][0];
    } else {
      assert ip[..1] == [ip[0]] && start[..1] == [start[0]];
    }
    FieldInByte(ip, 1, 0, 2);
    FieldInByte(start, 1, 0, 2);
    TopTwoBits(ip[1] as nat);
    TopTwoBits(start[1] as nat);
  }

  lemma TopTwoBits(d: nat)
    requires d < 256
    ensures Low(Shr(d, 6), 2) == d / 64
  {
    assert Pow2(2) == 4 && Pow2(6) == 64;
    ShiftsAsArithmetic(d, 6);
    ShiftsAsArithmetic(d / 64, 2);
  }

  lemma FirstTwo(x: seq<byte>, y: seq<byte>)
    requires |x| >= 3 && |y| >= 3
    ensures x[..2] == y[..2] <==> x[0] == y[0] && x[1] == y[1]
    ensures x[..3] == y[..3] <==> x[0] == y[0] && x[1] == y[1] && x[2] == y[2]
  {
    assert x[..2] == [x[0], x[1]] && y[..2] == [y[0], y[1]];
    assert x[..3] == [x[0], x[1], x[2]] && y[..3] == [y[0], y[1], y[2]];
  }

  /** The link-local addresses are those of 169.254.0.0/16 and 224.0.0.0/24, in either form of an IPv4 address, and those of
      fe80::/10 and of the multicast blocks ffX2::/16. */
  lemma LinkLocalBlocks(ip: seq<byte>)
    ensures forall v4 :: IsIPv4(ip, v4) ==>
              (LinkLocal(ip) <==> InBlock(v4, LINK_LOCAL_UNICAST, 16) || InBlock(v4, LINK_LOCAL_MULTICAST, 24))
    ensures PlainIP(LINK_LOCAL_UNICAST6) && forall flags: nat :: flags < 16 ==> PlainIP(LinkLocalMulticast6(flags))
    ensures |ip| == 16 && (forall v4 :: !IsIPv4(ip, v4)) ==>
              (LinkLocal(ip) <==>
                 InBlock(ip, LINK_LOCAL_UNICAST6, 10)
                 || exists flags: nat :: flags < 16 && InBlock(ip, LinkLocalMulticast6(flags), 16))
  {
    StartsArePlain();
    hide InBlock;
    forall v4 | IsIPv4(ip, v4)
      ensures LinkLocal(ip) <==> InBlock(v4, LINK_LOCAL_UNICAST, 16) || InBlock(v4, LINK_LOCAL_MULTICAST, 24)
    {
      To4Exactly(ip, v4);
      InBlockOfBytes(v4, LINK_LOCAL_UNICAST, 2);
      InBlockOfBytes(v4, LINK_LOCAL_MULTICAST, 3);
      FirstTwo(v4, LINK_LOCAL_UNICAST);
      FirstTwo(v4, LINK_LOCAL_MULTICAST);
    }
    if |ip| == 16 && forall v4 :: !IsIPv4(ip, v4) {
      NoFourBytes(ip);
      InBlockOfTenBits(ip, LINK_LOCAL_UNICAST6);
      forall flags: nat | flags < 16
        ensures InBlock(ip, LinkLocalMulticast6(flags), 16) <==> ip[0] == 0xff && ip[1] as nat == 16 * flags + 2
      {
        InBlockOfBytes(ip, LinkLocalMulticast6(flags), 2);
        FirstTwo(ip, LinkLocalMulticast6(flags));
      }
      if ip[0] == 0xff && ip[1] % 16 == 2 {
        var flags := ip[1] as nat / 16;
        assert InBlock(ip, LinkLocalMulticast6(flags), 16);
      }
    }
  }

  lemma StartsArePlain()
    ensures PlainIP(LINK_LOCAL_UNICAST6) && forall flags: nat :: flags < 16 ==> PlainIP(LinkLocalMulticast6(flags))
  {
    assert LINK_LOCAL_UNICAST6[..10][0] == 0xfe;
    assert forall flags: nat :: flags < 16 ==> LinkLocalMulticast6(flags)[..10][0] == 0xff;
  }

  lemma NoFourBytes(ip: seq<byte>)
    requires forall v4 :: !IsIPv4(ip, v4)
    ensures To4(ip) == None
  {
    hide IsIPv4;
    if To4(ip).Some? {
      To4Exactly(ip, To4(ip).value);
    }
  }

  // ----- link-local addresses in an admitted block -----

  /** The four bytes of an IPv4 address, however it is held. */
  function Shortest(ip: seq<byte>): seq<byte> {
    if To4(ip).Some? then To4(ip).value else ip
  }

  ghost predicate HoldsLinkLocal(n: IPNet)
    requires n.WellFormed()
  {
    exists host: seq<byte> :: |host| == |n.ip| && n.Contains(BigEndian(host)) && LinkLocal(host)
  }

  /** Addresses of one block share the bytes of its prefix. */
  lemma SharedBytes(n: IPNet, x: seq<byte>, y: seq<byte>, k: nat)
    requires n.WellFormed() && |x| == |n.ip| && |y| == |n.ip| && 8 * k <= n.ones
    requires n.Contains(BigEndian(x)) && n.Contains(BigEndian(y))
    ensures x[..k] == y[..k]
  {
    hide Pow2, BigEndian, Prefix, V4Mapped;
    PrefixShorten(BigEndian(x), BigEndian(y), n.Total(), 8 * k, n.ones);
    PrefixOfBytes(x, k);
    PrefixOfBytes(y, k);
    BigEndianInjective(x[..k], y[..k]);
  }

  /** An address that shares more bytes with a member than the prefix has is a member. */
  lemma SharingIsMember(n: IPNet, x: seq<byte>, y: seq<byte>, k: nat)
    requires n.WellFormed() && |x| == |n.ip| && |y| == |n.ip| && n.ones <= 8 * k <= n.Total()
    requires n.Contains(BigEndian(x)) && x[..k] == y[..k]
    ensures n.Contains(BigEndian(y))
  {
    assert BigEndian(y) < Pow2(n.Total());
    hide Pow2, BigEndian, Prefix, V4Mapped;
    PrefixOfBytes(x, k);
    PrefixOfBytes(y, k);
    PrefixShorten(BigEndian(x), BigEndian(y), n.Total(), n.ones, 8 * k);
  }

  lemma FirstBytes(x: seq<byte>, y: seq<byte>, k: nat)
    requires k <= |x| && k <= |y| && x[..k] == y[..k]
    ensures forall i :: 0 <= i < k ==> x[i] == y[i]
  {
    assert forall i :: 0 <= i < k ==> x[..k][i] == x[i] && y[..k][i] == y[i];
  }

  /** An IPv6 block of at most 32 host bits is all link-local or not at all. */
  lemma LinkLocalOfSix(n: IPNet, host: seq<byte>, addr: seq<byte>)
    requires Enumerable(n) && |n.ip| == 16 && |host| == 16 && |addr| == 16
    requires n.Contains(BigEndian(host)) && n.Contains(BigEndian(addr))
    ensures LinkLocal(host) <==> LinkLocal(addr)
  {
    assert n.Contains(BigEndian(n.ip));
    SharedBytes(n, n.ip, host, 12);
    SharedBytes(n, n.ip, addr, 12);
    hide BigEndian, IPNet.Contains;
    FirstBytes(n.ip, host, 12);
    FirstBytes(n.ip, addr, 12);
    assert n.ip[..12][..10] == n.ip[..10] && host[..12][..10] == host[..10] && addr[..12][..10] == addr[..10];
  }

  /** A link-local IPv4 address in a block that is not within the link-local block brings that block's first address. */
  lemma LinkLocalOfFour(n: IPNet, host: seq<byte>, addr: seq<byte>)
    requires n.WellFormed() && |n.ip| == 4 && |host| == 4 && |addr| == 4
    requires n.Contains(BigEndian(host)) && n.Contains(BigEndian(addr)) && LinkLocal(host) && !LinkLocal(addr)
    ensures (n.ones < 16 && n.Contains(BigEndian(LINK_LOCAL_UNICAST))) || (n.ones < 24 && n.Contains(BigEndian(LINK_LOCAL_MULTICAST)))
  {
    hide BigEndian, IPNet.Contains;
    if host[0] == 169 {
      assert host[..2] == LINK_LOCAL_UNICAST[..2];
      if n.ones >= 16 {
        SharedBytes(n, host, addr, 2);
        FirstBytes(host, addr, 2);
      } else {
        SharingIsMember(n, host, LINK_LOCAL_UNICAST, 2);
      }
    } else {
      assert host[..3] == LINK_LOCAL_MULTICAST[..3];
      if n.ones >= 24 {
        SharedBytes(n, host, addr, 3);
        FirstBytes(host, addr, 3);
      } else {
        SharingIsMember(n, host, LINK_LOCAL_MULTICAST, 3);
      }
    }
  }

  /** The link-local check looks at the address as written only. Exactly when an admitted block holds a link-local address
      all the same: it is an IPv4 block that properly contains 169.254.0.0/16 or 224.0.0.0/24. */
  lemma AdmittedHoldsLinkLocal(n: IPNet, nwAddr: seq<byte>)
    requires Enumerable(n) && |Shortest(nwAddr)| == |n.ip| && n.Contains(BigEndian(Shortest(nwAddr))) && !LinkLocal(nwAddr)
    ensures HoldsLinkLocal(n) <==>
              && |n.ip| == 4
              && ((n.ones < 16 && n.Contains(BigEndian(LINK_LOCAL_UNICAST))) || (n.ones < 24 && n.Contains(BigEndian(LINK_LOCAL_MULTICAST))))
  {
    hide BigEndian, IPNet.Contains;
    var addr := Shortest(nwAddr);
    assert !LinkLocal(addr);
    if HoldsLinkLocal(n) {
      var host: seq<byte> :| |host| == |n.ip| && n.Contains(BigEndian(host)) && LinkLocal(host);
      if |n.ip| == 4 {
        LinkLocalOfFour(n, host, addr);
      } else {
        LinkLocalOfSix(n, host, addr);
      }
    }
    assert LinkLocal(LINK_LOCAL_UNICAST) && LinkLocal(LINK_LOCAL_MULTICAST);
  }

  // ----- the finished scan -----

  /** The addresses of an enumeration, as numbers. */
  function Numbers(out: seq<seq<byte>>): (xs: seq<nat>)
    ensures |xs| == |out|
  {
    seq(|out|, i requires 0 <= i < |out| => BigEndian(out[i]))
  }

  /** A scan of an admitted block that has closed its output reports every address of the block exactly once,
      reports no other address, and, when a range is configured, none outside it. */
  lemma FinishedBlockScan(n: IPNet, out: seq<seq<byte>>, respondRange: seq<IPNet>,
                          actions: seq<Scanner.Action>, s: Scanner.State)
    requires Enumerable(n) && IsEnumeration(n, out)
    requires (forall m :: m in respondRange ==> m.WellFormed()) && !OutOfRange(n, respondRange)
    requires Scanner.Reaches(Numbers(out), actions, s) && s.main == Scanner.Closed
    ensures |s.output| == Pow2(n.HostBits())
    ensures forall x: nat :: n.Contains(x) <==> exists j :: 0 <= j < |s.output| && s.output[j].peer == x
    ensures forall j, k :: 0 <= j < k < |s.output| ==> s.output[j].peer != s.output[k].peer
    ensures respondRange != [] ==> forall j :: 0 <= j < |s.output| ==> Allowed(|n.ip|, respondRange, s.output[j].peer)
  {
    hide BigEndian, Pow2, Scanner.Reaches;
    var addrs := Numbers(out);
    EnumerationIsBlock(n, out);
    forall i, j | 0 <= i < j < |addrs|
      ensures addrs[i] != addrs[j]
    {
      assert BigEndian(out[i]) == n.Base() + i && BigEndian(out[j]) == n.Base() + j;
    }
    Scanner.FinishedScanIsComplete(addrs, actions, s);
    forall x: nat
      ensures n.Contains(x) <==> exists j :: 0 <= j < |s.output| && s.output[j].peer == x
    {
      assert x in addrs <==> exists i :: 0 <= i < |out| && addrs[i] == x;
      assert forall i :: 0 <= i < |out| ==> addrs[i] == BigEndian(out[i]);
    }
  }
}
