/** The server's router (pkg/routing/routing.go): routes grouped by prefix length, longest group first. */
module GroupRouter {
  import opened Wrappers
  import opened Bytes
  import opened Masks
  import opened Subnets
  import opened IPAddresses
  import opened TrieRouter

  /** A nil payload is `None`. */
  type Value = Option<string>

  /** One successful call of AddRoute. */
  datatype Added = Added(net: IPNet, value: Value)

  /** The B-trees of the source as finite maps: prefix length to network address to payload. */
  type Table = map<nat, map<seq<byte>, Value>>

  function Find(t: Table, ones: nat, prefix: seq<byte>): Option<Value> {
    if ones in t && prefix in t[ones] then Some(t[ones][prefix]) else None
  }

  /** The payload last added for exactly this block. */
  function LastValue(log: seq<Added>, net: IPNet): Option<Value> {
    if log == [] then None
    else if log[|log| - 1].net == net then Some(log[|log| - 1].value)
    else LastValue(log[..|log| - 1], net)
  }

  lemma LastValueAppend(log: seq<Added>, a: Added, net: IPNet)
    ensures LastValue(log + [a], net) == if a.net == net then Some(a.value) else LastValue(log, net)
  {
    assert (log + [a])[..|log|] == log;
  }

  ghost predicate AllCanonical(log: seq<Added>) {
    forall a :: a in log ==> a.net.Canonical()
  }

  ghost predicate Covering(a: Added, addr: seq<byte>)
    requires a.net.Canonical()
  {
    |a.net.ip| == |addr| && a.net.Contains(BigEndian(addr))
  }

  /** Specification of a lookup, by linear scan: the last added among the longest blocks that contain the address. */
  ghost function BestAdded(log: seq<Added>, addr: seq<byte>): Option<Added>
    requires AllCanonical(log)
  {
    if log == [] then None
    else
      var best, a := BestAdded(log[..|log| - 1], addr), log[|log| - 1];
      if Covering(a, addr) && (best.None? || a.net.ones >= best.value.net.ones) then Some(a) else best
  }

  ghost function BestValue(log: seq<Added>, addr: seq<byte>): Value
    requires AllCanonical(log)
  {
    var best := BestAdded(log, addr);
    if best.Some? then best.value.value else None
  }

  function Masked(addr: seq<byte>, ones: nat): seq<byte> {
    ApplyMask(addr, CidrMask(ones, |addr|))
  }

  /** A block contains an address exactly when the address masks to the block's network address. */
  lemma CoveringIsMasked(a: Added, addr: seq<byte>)
    requires a.net.Canonical() && |a.net.ip| == |addr|
    ensures Covering(a, addr) <==> Masked(addr, a.net.ones) == a.net.ip
  {
    SameMasked(addr, a.net.ip, a.net.ones);
  }

  /** The scan finds a longest covering block, and the payload last added for it. */
  lemma {:induction false} BestAddedIsLongest(log: seq<Added>, addr: seq<byte>)
    requires AllCanonical(log)
    ensures var best := BestAdded(log, addr);
            && (best.None? ==> forall a :: a in log ==> !Covering(a, addr))
            && (best.Some? ==>
                  && best.value in log && Covering(best.value, addr)
                  && LastValue(log, best.value.net) == Some(best.value.value)
                  && forall a :: a in log && Covering(a, addr) ==> a.net.ones <= best.value.net.ones)
  {
    hide IPNet.Contains, IPNet.Canonical;
    if log != [] {
      var front, a := log[..|log| - 1], log[|log| - 1];
      BestAddedIsLongest(front, addr);
      assert log == front + [a];
    }
  }

  lemma {:induction false} LastValueWasAdded(log: seq<Added>, net: IPNet)
    ensures LastValue(log, net).Some? ==> Added(net, LastValue(log, net).value) in log
  {
    if log != [] && log[|log| - 1].net != net {
      LastValueWasAdded(log[..|log| - 1], net);
    }
  }

  lemma MaxExists(s: set<nat>) returns (m: nat)
    requires s != {}
    ensures m in s && forall k :: k in s ==> k <= m
    decreases |s|
  {
    var x :| x in s;
    m := x;
    if s - {x} != {} {
      var m' := MaxExists(s - {x});
      m := if m' > x then m' else x;
    }
    forall k | k in s
      ensures k <= m
    {
      assert k == x || k in s - {x};
    }
  }

  /** The table holds exactly the history's last value for every block of one family. */
  ghost predicate Holds(log: seq<Added>, table: Table, size: nat) {
    forall n: nat, p: seq<byte> :: |p| == size ==> Find(table, n, p) == LastValue(log, IPNet(p, n))
  }

  /** One more entry of the table's family. */
  function InsertedInto(table: Table, net: IPNet, value: Value): Table {
    var group := if net.ones in table then table[net.ones] else map[];
    table[net.ones := group[net.ip := value]]
  }

  lemma HoldsInserted(log: seq<Added>, table: Table, net: IPNet, value: Value)
    requires Holds(log, table, |net.ip|)
    ensures Holds(log + [Added(net, value)], InsertedInto(table, net, value), |net.ip|)
  {
    hide LastValue;
    forall n: nat, p: seq<byte> | |p| == |net.ip|
      ensures Find(InsertedInto(table, net, value), n, p) == LastValue(log + [Added(net, value)], IPNet(p, n))
    {
      LastValueAppend(log, Added(net, value), IPNet(p, n));
      assert Find(table, n, p) == LastValue(log, IPNet(p, n));
    }
  }

  /** A route of the other family changes nothing in this table. */
  lemma HoldsOther(log: seq<Added>, table: Table, size: nat, net: IPNet, value: Value)
    requires Holds(log, table, size) && |net.ip| != size
    ensures Holds(log + [Added(net, value)], table, size)
  {
    hide LastValue;
    forall n: nat, p: seq<byte> | |p| == size
      ensures Find(table, n, p) == LastValue(log + [Added(net, value)], IPNet(p, n))
    {
      LastValueAppend(log, Added(net, value), IPNet(p, n));
      assert Find(table, n, p) == LastValue(log, IPNet(p, n));
    }
  }

  class SimpleRouter {
    var routes: Table
    var routes6: Table
    /** Every route added so far, in order. */
    ghost var log: seq<Added>

    ghost predicate Valid()
      reads this
    {
      AllCanonical(log) && Represents(routes, 4) && Represents(routes6, 16)
    }

    ghost predicate Represents(t: Table, size: nat)
      reads this
    {
      (forall ones :: ones in t ==> ones <= 8 * size) && Holds(log, t, size)
    }

    constructor ()
      ensures Valid() && log == []
    {
      routes := map[];
      routes6 := map[];
      log := [];
    }

    method DoAddRoute(net: IPNet, value: Value)
      requires Valid() && net.Canonical() && |net.ip| == 4
      modifies this
      ensures Valid() && log == old(log) + [Added(net, value)] && routes6 == old(routes6)
    {
      HoldsInserted(log, routes, net, value);
      HoldsOther(log, routes6, 16, net, value);
      hide Holds, LastValue, ApplyMask, CidrMask, V4Mapped;
      if net.ones !in routes {
        routes := routes[net.ones := map[]];
      }
      routes := routes[net.ones := routes[net.ones][net.ip := value]];
      assert routes == InsertedInto(old(routes), net, value);
      log := log + [Added(net, value)];
    }

    method DoAddRoute6(net: IPNet, value: Value)
      requires Valid() && net.Canonical() && |net.ip| == 16
      modifies this
      ensures Valid() && log == old(log) + [Added(net, value)] && routes == old(routes)
    {
      HoldsInserted(log, routes6, net, value);
      HoldsOther(log, routes, 4, net, value);
      hide Holds, LastValue, ApplyMask, CidrMask, V4Mapped;
      if net.ones !in routes6 {
        routes6 := routes6[net.ones := map[]];
      }
      routes6 := routes6[net.ones := routes6[net.ones][net.ip := value]];
      assert routes6 == InsertedInto(old(routes6), net, value);
      log := log + [Added(net, value)];
    }

    /** `cidr` is what `net.ParseCIDR` makes of the argument. */
    method AddRoute(cidr: Option<IPNet>, value: Value) returns (r: Result<(), string>)
      requires Valid() && (cidr.Some? ==> cidr.value.Canonical())
      modifies this
      ensures Valid()
      ensures cidr.Some? ==> r.Success? && log == old(log) + [Added(cidr.value, value)]
      ensures cidr.None? ==> r.Failure? && log == old(log) && routes == old(routes) && routes6 == old(routes6)
    {
      if cidr.None? {
        return Failure("failed to parse CIDR");
      }
      if To4(cidr.value.ip).Some? {
        DoAddRoute(cidr.value, value);
      } else {
        DoAddRoute6(cidr.value, value);
      }
      r := Success(());
    }

    /** `ip` is what `net.ParseIP` makes of the argument. */
    method GetRoute(ip: Option<seq<byte>>) returns (r: Result<Value, string>)
      requires Valid() && (ip.Some? ==> |ip.value| == 4 || |ip.value| == 16)
      ensures ip.None? ==> r.Failure?
      ensures ip.Some? ==> forall v4 :: IsIPv4(ip.value, v4) ==> r == Success(BestValue(log, v4))
      ensures ip.Some? && (forall v4 :: !IsIPv4(ip.value, v4)) ==> r == Success(BestValue(log, ip.value))
    {
      hide IsIPv4, To4;
      if ip.None? {
        return Failure("invalid ip address");
      }
      var table: Table, addr := routes6, ip.value;
      if To4(ip.value).Some? {
        table, addr := routes, To4(ip.value).value;
      }
      AddressForm(ip.value, addr);
      assert Represents(table, |addr|);
      var rest := table.Keys;
      BestAddedIsLongest(log, addr);
      while rest != {}
        invariant rest <= table.Keys
        invariant forall ones :: ones in table.Keys - rest ==> Masked(addr, ones) !in table[ones]
        decreases |rest|
      {
        ghost var m := MaxExists(rest);
        var ones :| ones in rest && forall k :: k in rest ==> k <= ones;
        var maskedIp := Masked(addr, ones);
        if maskedIp in table[ones] {
          FoundIsBest(log, addr, table, ones, rest);
          return Success(table[ones][maskedIp]);
        }
        rest := rest - {ones};
      }
      NothingCovers(log, addr, table);
      r := Success(None);
    }
  }

  /** The address looked up is the four bytes of an IPv4 address in either form, and every other address itself. */
  lemma AddressForm(ip: seq<byte>, addr: seq<byte>)
    requires addr == if To4(ip).Some? then To4(ip).value else ip
    ensures forall v4 :: IsIPv4(ip, v4) ==> addr == v4
    ensures (forall v4 :: !IsIPv4(ip, v4)) ==> addr == ip
    ensures |ip| == 16 || |ip| == 4 ==> |addr| == if To4(ip).Some? then 4 else 16
  {
    hide IsIPv4, To4;
    if To4(ip).Some? {
      To4Exactly(ip, To4(ip).value);
      FourOf(ip);
    } else {
      To4Exactly(ip, []);
    }
    forall v4 | IsIPv4(ip, v4)
      ensures addr == v4
    {
      To4Exactly(ip, v4);
    }
  }

  lemma FourOf(ip: seq<byte>)
    ensures To4(ip).Some? ==> |To4(ip).value| == 4
  {
    if To4(ip).Some? {
      To4Exactly(ip, To4(ip).value);
    }
  }

  lemma MaskedLength(addr: seq<byte>, ones: nat)
    requires ones <= 8 * |addr|
    ensures |Masked(addr, ones)| == |addr|
  {
  }

  /** The best entry is in the table, under its length and the masked address. */
  lemma BestIsHeld(log: seq<Added>, addr: seq<byte>, table: Table)
    requires AllCanonical(log) && Holds(log, table, |addr|) && BestAdded(log, addr).Some?
    ensures var best := BestAdded(log, addr).value;
            && best.net.ones <= 8 * |addr| && best.net.ones in table
            && Masked(addr, best.net.ones) in table[best.net.ones]
            && table[best.net.ones][Masked(addr, best.net.ones)] == best.value
            && best.net == IPNet(Masked(addr, best.net.ones), best.net.ones)
  {
    BestAddedIsLongest(log, addr);
    var best := BestAdded(log, addr).value;
    CoveringIsMasked(best, addr);
    hide LastValue, BestAdded, Masked;
    assert Find(table, best.net.ones, best.net.ip) == LastValue(log, best.net);
  }

  /** Every entry under a masked address was added, and its block contains the address. */
  lemma HeldIsCovering(log: seq<Added>, addr: seq<byte>, table: Table, ones: nat)
    requires AllCanonical(log) && Holds(log, table, |addr|)
    requires ones in table && ones <= 8 * |addr| && Masked(addr, ones) in table[ones]
    ensures BestAdded(log, addr).Some? && BestAdded(log, addr).value.net.ones >= ones
  {
    MaskedLength(addr, ones);
    hide LastValue, Masked;
    var prefix := Masked(addr, ones);
    var net := IPNet(prefix, ones);
    assert Find(table, ones, prefix) == LastValue(log, net);
    LastValueWasAdded(log, net);
    var a := Added(net, table[ones][prefix]);
    CoveringIsMasked(a, addr);
    BestAddedIsLongest(log, addr);
  }

  /** An entry found after all longer groups failed is the best one. */
  lemma FoundIsBest(log: seq<Added>, addr: seq<byte>, table: Table, ones: nat, rest: set<nat>)
    requires AllCanonical(log) && ones in table && ones <= 8 * |addr| && Masked(addr, ones) in table[ones]
    requires Holds(log, table, |addr|)
    requires forall k :: k in rest ==> k <= ones
    requires forall n :: n in table.Keys - rest ==> Masked(addr, n) !in table[n]
    ensures BestValue(log, addr) == table[ones][Masked(addr, ones)]
  {
    hide Holds, BestAdded, Masked, IPNet.Canonical;
    HeldIsCovering(log, addr, table, ones);
    BestIsHeld(log, addr, table);
  }

  lemma NothingCovers(log: seq<Added>, addr: seq<byte>, table: Table)
    requires AllCanonical(log) && Holds(log, table, |addr|)
    requires forall n :: n in table ==> Masked(addr, n) !in table[n]
    ensures BestValue(log, addr) == None
  {
    hide Holds, BestAdded, Masked;
    if BestAdded(log, addr).Some? {
      BestIsHeld(log, addr, table);
    }
  }

  // ----- agreement with the trie -----

  /** The added routes of one family, as the browser's route table takes them. */
  function ToRoutes(log: seq<Added>, f: Family): seq<Route> {
    if log == [] then []
    else
      var rs, a := ToRoutes(log[..|log| - 1], f), log[|log| - 1];
      if 8 * |a.net.ip| == MaxBits(f) then rs + [Route(IPAddr(a.net.ip, f), a.net.ones, a.value)] else rs
  }

  lemma {:induction false} ToRoutesValid(log: seq<Added>, f: Family)
    requires AllCanonical(log)
    ensures AllValid(ToRoutes(log, f), f)
  {
    if log != [] {
      ToRoutesValid(log[..|log| - 1], f);
    }
  }

  ghost predicate Agree(log: seq<Added>, ip: IPAddr)
    requires AllCanonical(log) && ip.Valid()
  {
    ToRoutesValid(log, ip.family);
    var rs, best := ToRoutes(log, ip.family), BestAdded(log, ip.data);
    var longest := LongestMatch(rs, ip);
    && LongestLength(rs, ip) == (if best.Some? then best.value.net.ones else -1)
    && (best.Some? <==> longest != [])
    && (best.Some? ==> longest[|longest| - 1].value == best.value.value)
  }

  lemma CoversIsCovering(a: Added, ip: IPAddr)
    requires a.net.Canonical() && ip.Valid() && |a.net.ip| == |ip.data|
    ensures Route(IPAddr(a.net.ip, ip.family), a.net.ones, a.value).Covers(ip) <==> Covering(a, ip.data)
  {
  }

  lemma ToRoutesStep(log: seq<Added>, f: Family)
    requires log != [] && AllCanonical(log)
    ensures var init, a := log[..|log| - 1], log[|log| - 1];
            ToRoutes(log, f) == if 8 * |a.net.ip| == MaxBits(f)
                                then ToRoutes(init, f) + [Route(IPAddr(a.net.ip, f), a.net.ones, a.value)] else ToRoutes(init, f)
    ensures AllValid(ToRoutes(log, f), f)
  {
    ToRoutesValid(log, f);
  }

  lemma BestAddedStep(log: seq<Added>, addr: seq<byte>)
    requires log != [] && AllCanonical(log)
    ensures var best, a := BestAdded(log[..|log| - 1], addr), log[|log| - 1];
            BestAdded(log, addr) == if Covering(a, addr) && (best.None? || a.net.ones >= best.value.net.ones) then Some(a) else best
  {
  }

  lemma AgreeStep(log: seq<Added>, ip: IPAddr)
    requires log != [] && AllCanonical(log) && ip.Valid() && Agree(log[..|log| - 1], ip)
    ensures Agree(log, ip)
  {
    hide ToRoutes, BestAdded, Covering, Route.Covers, LongestLength, LongestMatch, Route.Valid;
    var init, a := log[..|log| - 1], log[|log| - 1];
    ToRoutesStep(log, ip.family);
    BestAddedStep(log, ip.data);
    if |a.net.ip| == |ip.data| {
      var r := Route(IPAddr(a.net.ip, ip.family), a.net.ones, a.value);
      CoversIsCovering(a, ip);
      LongestLengthStep(ToRoutes(init, ip.family), r, ip);
      LongestMatchStep(ToRoutes(init, ip.family), r, ip);
    } else {
      OtherFamily(a, ip.data);
    }
  }

  lemma OtherFamily(a: Added, addr: seq<byte>)
    requires a.net.Canonical() && |a.net.ip| != |addr|
    ensures !Covering(a, addr)
  {
  }

  /** Both routers answer by the same longest match: the grouped router returns the payload of the last of
      the routes that longest-match forwarding selects. */
  lemma {:induction false} AgreesWithLongestMatch(log: seq<Added>, ip: IPAddr)
    requires AllCanonical(log) && ip.Valid()
    ensures Agree(log, ip)
  {
    if log != [] {
      AgreesWithLongestMatch(log[..|log| - 1], ip);
      AgreeStep(log, ip);
    }
  }
}
