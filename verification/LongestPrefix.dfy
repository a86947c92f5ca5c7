/** When the route table of web/utls/router.ts is a longest-prefix router, and the table builder itself. */
module LongestPrefix {
  import opened Wrappers
  import opened Bits
  import opened Bytes
  import opened IPAddresses
  import opened Segments
  import opened TrieRouter

  /** Every address is routed by longest match, whatever network addresses the lengths belong to. */
  ghost predicate AlwaysLongestMatch(lens: seq<nat>, ss: seq<nat>, f: Family) {
    forall rs: seq<Route>, ip: IPAddr ::
      AllValid(rs, f) && Lengths(rs) == lens && ip.Valid() && ip.family == f ==>
        DeepestMatches(rs, ip, ss) == LongestMatch(rs, ip)
  }

  ghost predicate AllCuts(lens: seq<nat>, ss: seq<nat>) {
    forall i :: 0 <= i < |lens| ==> IsCut(lens[i], ss)
  }

  lemma {:induction false} BestIsLongest(rs: seq<Route>, ip: IPAddr, ss: seq<nat>)
    requires AllValid(rs, ip.family) && ip.Valid() && Positive(ss)
    requires forall r :: r in rs ==> FiledAt(r, ss) == r.prefixLength
    ensures BestCut(rs, ip, ss) == LongestLength(rs, ip)
  {
    if rs != [] {
      BestIsLongest(rs[..|rs| - 1], ip, ss);
    }
  }

  /** If every prefix length is a cut, lookup is the linear-scan longest match. */
  lemma CutsGiveLongestMatch(rs: seq<Route>, ip: IPAddr, ss: seq<nat>)
    requires AllValid(rs, ip.family) && ip.Valid() && Positive(ss) && AllCuts(Lengths(rs), ss)
    ensures DeepestMatches(rs, ip, ss) == LongestMatch(rs, ip)
  {
    forall r | r in rs
      ensures FiledAt(r, ss) == r.prefixLength
    {
      var i :| 0 <= i < |rs| && rs[i] == r;
      assert Lengths(rs)[i] == r.prefixLength;
      LargestCutIsExact(r.prefixLength, ss);
    }
    BestIsLongest(rs, ip, ss);
    var best := BestCut(rs, ip, ss);
    SelectSame(rs, (r: Route) => r.Valid() && Matches(r, ip, ss) && FiledAt(r, ss) == best,
               (r: Route) => r.Valid() && r.Covers(ip) && r.prefixLength == best);
  }

  /** The address of the family whose only set bit is bit `c` from the top; all zeros when `c` is past the end. */
  function Probe(f: Family, c: nat): (ip: IPAddr)
    ensures ip.Valid() && ip.family == f
  {
    IPAddr(ToBytes(if c < MaxBits(f) then Pow2(MaxBits(f) - c - 1) else 0, MaxBits(f) / 8), f)
  }

  lemma {:induction false} ShrOfPow2(a: nat, k: nat)
    ensures Shr(Pow2(a), k) == (if k <= a then Pow2(a - k) else 0)
    decreases k
  {
    if k > 0 {
      if a == 0 {
        assert Pow2(0) / 2 == 0;
        ShrOfZero(k - 1);
      } else {
        assert Pow2(a) / 2 == Pow2(a - 1);
        ShrOfPow2(a - 1, k - 1);
      }
    }
  }

  lemma {:induction false} ShrOfZero(k: nat)
    ensures Shr(0, k) == 0
  {
    if k > 0 {
      ShrOfZero(k - 1);
    }
  }

  lemma ProbeLeading(f: Family, c: nat, n: nat)
    requires n <= MaxBits(f)
    ensures Probe(f, c).Leading(n) == 0 <==> n <= c || c >= MaxBits(f)
  {
    hide Shr, Shl, Low, BigEndian, ToBytes;
    var total := MaxBits(f);
    if c < total {
      Pow2Monotonic(total - c, total);
      BigEndianOfToBytes(Pow2(total - c - 1), total / 8);
      ShrOfPow2(total - c - 1, total - n);
    } else {
      BigEndianOfToBytes(0, total / 8);
      ShrOfZero(total - n);
    }
  }

  /** A prefix length that is no cut sends some address to a route that does not contain it: there are routes of these
      lengths, and an address outside the route of that length, for which lookup returns that route. */
  lemma MissedCutMisroutes(lens: seq<nat>, ss: seq<nat>, f: Family, i: nat) returns (rs: seq<Route>, ip: IPAddr)
    requires Positive(ss) && (forall j :: 0 <= j < |lens| ==> lens[j] <= MaxBits(f))
    requires i < |lens| && !IsCut(lens[i], ss)
    ensures Lengths(rs) == lens && AllValid(rs, f) && ip.Valid() && ip.family == f
    ensures !rs[i].Covers(ip)
    ensures DoLookup(OrEmpty(InsertAll(rs, ss)), ip, 0, MaxBits(f)).Success?
    ensures rs[i] in DoLookup(OrEmpty(InsertAll(rs, ss)), ip, 0, MaxBits(f)).value.routes
    ensures DeepestMatches(rs, ip, ss) != LongestMatch(rs, ip)
  {
    hide DoLookup, InsertAll;
    var zero := Probe(f, MaxBits(f));
    rs := seq(|lens|, j requires 0 <= j < |lens| => Route(zero, lens[j], None));
    assert Lengths(rs) == lens;
    LargestCutIsExact(lens[i], ss);
    var c := LargestCut(lens[i], ss);
    ip := Probe(f, c);
    ProbesAgree(f, c);
    BestCutBounds(rs, ip, ss);
    assert Matches(rs[i], ip, ss) && !rs[i].Covers(ip);
    TrieRefinesDeepestMatches(rs, ip, ss);
    assert rs[i] in DeepestMatches(rs, ip, ss);
    assert rs[i] !in LongestMatch(rs, ip);
  }

  /** The zero address and the probe at bit `c` agree on exactly the first `c` bits. */
  lemma ProbesAgree(f: Family, c: nat)
    requires c < MaxBits(f)
    ensures forall n: nat :: n <= MaxBits(f) ==> (Probe(f, MaxBits(f)).Leading(n) == Probe(f, c).Leading(n) <==> n <= c)
  {
    hide IPAddr.Leading, Probe;
    forall n: nat | n <= MaxBits(f)
      ensures Probe(f, MaxBits(f)).Leading(n) == Probe(f, c).Leading(n) <==> n <= c
    {
      ProbeLeading(f, MaxBits(f), n);
      ProbeLeading(f, c, n);
    }
  }

  /** For any prefix lengths: the table routes every address by longest match, for all network addresses,
      if and only if every length is one of the cuts. */
  lemma LongestMatchIffAllCuts(lens: seq<nat>, ss: seq<nat>, f: Family)
    requires Positive(ss) && (forall j :: 0 <= j < |lens| ==> lens[j] <= MaxBits(f))
    ensures AlwaysLongestMatch(lens, ss, f) <==> AllCuts(lens, ss)
  {
    if AllCuts(lens, ss) {
      forall rs: seq<Route>, ip: IPAddr | AllValid(rs, f) && Lengths(rs) == lens && ip.Valid() && ip.family == f
        ensures DeepestMatches(rs, ip, ss) == LongestMatch(rs, ip)
      {
        CutsGiveLongestMatch(rs, ip, ss);
      }
    } else {
      var i :| 0 <= i < |lens| && !IsCut(lens[i], ss);
      var rs, ip := MissedCutMisroutes(lens, ss, f, i);
    }
  }

  /** True consecutive differences route by longest match for every list of lengths. */
  lemma DifferencesRouteByLongestMatch(lens: seq<nat>, f: Family)
    requires forall j :: 0 <= j < |lens| ==> lens[j] <= MaxBits(f)
    ensures AlwaysLongestMatch(lens, PositiveOnly(Differences(Sort(lens))), f)
  {
    var p := Sort(lens);
    SortAscending(lens);
    forall j | 0 <= j < |lens|
      ensures IsCut(lens[j], PositiveOnly(Differences(p)))
    {
      assert lens[j] in multiset(p);
      var i :| 0 <= i < |p| && p[i] == lens[j];
      DifferencesCutEverywhere(p, i);
    }
    LongestMatchIffAllCuts(lens, PositiveOnly(Differences(p)), f);
  }

  /** The loop as written, exactly: tables with these prefix lengths always route by longest match if and only if every
      length is zero or a sum p[i] + p[i-2] + p[i-4] + ... of the sorted lengths. */
  lemma LoopRoutesIffAlternateSums(lens: seq<nat>, f: Family)
    requires forall j :: 0 <= j < |lens| ==> lens[j] <= MaxBits(f)
    ensures AlwaysLongestMatch(lens, SegmentLengths(lens), f)
       <==> forall j :: 0 <= j < |lens| ==> IsAlternateSum(lens[j], Sort(lens))
  {
    hide AlwaysLongestMatch, IsAlternateSum, IsCut, SegmentLengths, Sort;
    LongestMatchIffAllCuts(lens, SegmentLengths(lens), f);
    forall j | 0 <= j < |lens|
      ensures IsCut(lens[j], SegmentLengths(lens)) <==> IsAlternateSum(lens[j], Sort(lens))
    {
      LoopCuts(lens, lens[j]);
    }
  }

  /** When all lengths differ: tables with them always route by longest match if and only if at most two of the lengths
      are positive. So three routes of different positive lengths are enough to go wrong. */
  lemma DifferentLengthsIff(lens: seq<nat>, f: Family)
    requires forall j :: 0 <= j < |lens| ==> lens[j] <= MaxBits(f)
    requires StableSort.Distinct(lens)
    ensures AlwaysLongestMatch(lens, SegmentLengths(lens), f) <==> |lens| <= 2 || (|lens| == 3 && 0 in lens)
  {
    hide AlwaysLongestMatch, SegmentLengths, Sort, IsAlternateSum;
    var p := Sort(lens);
    LoopRoutesIffAlternateSums(lens, f);
    SortAscending(lens);
    StableSort.KeepsDistinct(lens, p);
    SameLengths(lens, p);
    assert 0 in p <==> |p| > 0 && p[0] == 0;
    AlternateSumsOfDifferent(p);
  }

  lemma SameLengths(lens: seq<nat>, p: seq<nat>)
    requires multiset(lens) == multiset(p)
    ensures |lens| == |p| && forall x :: x in lens <==> x in p
    ensures (forall j :: 0 <= j < |lens| ==> IsAlternateSum(lens[j], p)) <==> (forall j :: 0 <= j < |p| ==> IsAlternateSum(p[j], p))
  {
    hide IsAlternateSum;
    assert |multiset(lens)| == |lens| && |multiset(p)| == |p|;
    forall x
      ensures x in lens <==> x in p
    {
      assert x in lens <==> x in multiset(lens);
      assert x in p <==> x in multiset(p);
    }
    assert (forall j :: 0 <= j < |lens| ==> IsAlternateSum(lens[j], p)) <==> (forall x :: x in lens ==> IsAlternateSum(x, p));
    assert (forall j :: 0 <= j < |p| ==> IsAlternateSum(p[j], p)) <==> (forall x :: x in p ==> IsAlternateSum(x, p));
  }

  /** The first two lengths are sums, and a third behind a zero; else the third, or the fourth, lies between two sums. */
  lemma AlternateSumsOfDifferent(p: seq<nat>)
    requires forall i, k :: 0 <= i < k < |p| ==> p[i] < p[k]
    ensures (forall j :: 0 <= j < |p| ==> IsAlternateSum(p[j], p)) <==> |p| <= 2 || (|p| == 3 && p[0] == 0)
  {
    assert forall i :: 0 <= i < |p| && i < 2 ==> EverySecond(p, i) == p[i];
    assert |p| > 2 ==> EverySecond(p, 2) == p[2] + EverySecond(p, 0);
    var missed := if |p| > 2 && p[0] > 0 then 2 else 3;
    forall i | 0 <= i < |p| && missed < |p|
      ensures EverySecond(p, i) != p[missed]
    {
      if i >= missed {
        EverySecondAtLeast(p, i);
      }
    }
    assert missed < |p| ==> !IsAlternateSum(p[missed], p);
  }

  /** From the third length on the sum is more than the length, unless it only adds a zero. */
  lemma EverySecondAtLeast(p: seq<nat>, i: nat)
    requires 2 <= i < |p|
    ensures EverySecond(p, i) >= p[i] + p[i - 2]
  {
    assert EverySecond(p, i) == p[i] + EverySecond(p, i - 2);
  }

  /** The routes 0.0.0.0/8, /16 and /24, and the address 0.0.128.0. */
  function ZeroRoute(length: nat): Route {
    Route(IPAddr([0, 0, 0, 0], IPv4), length, None)
  }

  lemma BigEndianOfFour(a: byte, b: byte, c: byte, d: byte)
    ensures BigEndian([a, b, c, d]) == 0x100_0000 * a as nat + 0x1_0000 * b as nat + 0x100 * c as nat + d as nat
  {
    hide BigEndian;
    BigEndianLast([a, b, c, d]);
    assert [a, b, c, d][..3] == [a, b, c];
    BigEndianLast([a, b, c]);
    assert [a, b, c][..2] == [a, b];
    BigEndianLast([a, b]);
    assert [a, b][..1] == [a];
    BigEndianLast([a]);
    assert [a][..0] == [];
    BigEndianOfNone();
  }

  lemma BigEndianOfNone()
    ensures BigEndian([]) == 0
  {
  }

  /** Of 0.0.0.0 and 0.0.128.0 the first 8 and the first 16 bits agree, and the first 24 do not. */
  lemma ZeroRouteCovers(length: nat)
    requires length == 8 || length == 16 || length == 24
    ensures var ip := IPAddr([0, 0, 128, 0], IPv4);
            ZeroRoute(length).Valid() && ip.Valid()
            && (ZeroRoute(length).networkAddr.Leading(length) == ip.Leading(length) <==> length != 24)
  {
    hide BigEndian, Shr, Pow2;
    BigEndianOfFour(0, 0, 0, 0);
    BigEndianOfFour(0, 0, 128, 0);
    ShrOfZero(32 - length);
    ShrOfProbe(32 - length);
  }

  lemma ShrOfProbe(k: nat)
    requires k == 8 || k == 16 || k == 24
    ensures Shr(0x8000, k) == if k == 8 then 0x80 else 0
  {
    PowersOf256();
    ShiftsAsArithmetic(0x8000, k);
    hide Pow2, Shr, Shl, Low;
    assert 0x8000 / 0x100 == 0x80 && 0x8000 / 0x1_0000 == 0 && 0x8000 / 0x100_0000 == 0;
  }

  lemma PowersOf256()
    ensures Pow2(8) == 0x100 && Pow2(16) == 0x1_0000 && Pow2(24) == 0x100_0000
  {
    Shift8(Pow2(8));
    Pow2Sum(8, 8);
    Shift8(Pow2(16));
    Pow2Sum(16, 8);
  }

  /** The strides 8, 8, 16 file a /24 at 16. */
  lemma FiledByStrides88And16()
    ensures var ss: seq<nat> := [8, 8, 16];
            LargestCut(8, ss) == 8 && LargestCut(16, ss) == 16 && LargestCut(24, ss) == 16
  {
    var ss: seq<nat> := [8, 8, 16];
    assert Cut(ss, 1) == 8 && Cut(ss, 2) == 16 && Cut(ss, 3) == 32;
    LargestCutAt(8, ss, 1, 3);
    LargestCutAt(16, ss, 2, 3);
    LargestCutAt(24, ss, 2, 3);
  }

  lemma SelectOfThree(a: Route, b: Route, c: Route, p: Route -> bool)
    ensures Select([a, b, c], p)
            == (if p(a) then [a] else []) + (if p(b) then [b] else []) + (if p(c) then [c] else [])
  {
    hide Select;
    assert [a, b, c] == [a, b] + [c] && [a, b] == [a] + [b] && [a] == [] + [a];
    SelectLast([a, b], c, p);
    SelectLast([a], b, p);
    SelectLast([], a, p);
    SelectFromNone(p);
  }

  lemma BestOfThree(a: Route, b: Route, c: Route, ip: IPAddr, ss: seq<nat>)
    requires AllValid([a, b, c], ip.family) && ip.Valid()
    requires Matches(b, ip, ss) && FiledAt(a, ss) <= FiledAt(b, ss) && FiledAt(c, ss) <= FiledAt(b, ss)
    ensures BestCut([a, b, c], ip, ss) == FiledAt(b, ss)
  {
    hide Matches, FiledAt, BestCut;
    var rs := [a, b, c];
    assert rs[1] == b;
    BestCutBounds(rs, ip, ss);
    if r :| r in rs && Matches(r, ip, ss) && FiledAt(r, ss) == BestCut(rs, ip, ss) {
      assert r == a || r == b || r == c;
    }
  }

  lemma LongestOfThree(a: Route, b: Route, c: Route, ip: IPAddr)
    requires AllValid([a, b, c], ip.family) && ip.Valid()
    requires b.Covers(ip) && a.prefixLength <= b.prefixLength && !c.Covers(ip)
    ensures LongestLength([a, b, c], ip) == b.prefixLength
  {
    assert [a, b, c] == [a, b] + [c] && [a, b] == [a] + [b] && [a] == [] + [a];
    assert forall r :: r in [a, b] || r in [a] ==> r in [a, b, c];
    LongestLengthStep([a, b], c, ip);
    LongestLengthStep([a], b, ip);
    LongestLengthStep([], a, ip);
  }

  /** Of 0.0.0.0/8, /16 and /24, lookup of 0.0.128.0 returns the /16 and, behind it, the /24, which does not contain the
      address; the longest match is the /16 alone. */
  lemma LoopMisroutesSlash24()
    ensures var rs, ip := [ZeroRoute(8), ZeroRoute(16), ZeroRoute(24)], IPAddr([0, 0, 128, 0], IPv4);
            && AllValid(rs, IPv4) && ip.Valid()
            && DoLookup(OrEmpty(InsertAll(rs, SegmentsFor(rs))), ip, 0, 32).Success?
            && DoLookup(OrEmpty(InsertAll(rs, SegmentsFor(rs))), ip, 0, 32).value.routes == [ZeroRoute(16), ZeroRoute(24)]
            && !ZeroRoute(24).Covers(ip)
            && LongestMatch(rs, ip) == [ZeroRoute(16)]
  {
    hide DoLookup, InsertAll, SegmentLengths, LargestCut, IPAddr.Leading, Select, BestCut, LongestLength;
    var ip, ss: seq<nat> := IPAddr([0, 0, 128, 0], IPv4), [8, 8, 16];
    var a, b, c := ZeroRoute(8), ZeroRoute(16), ZeroRoute(24);
    assert Lengths([a, b, c]) == [8, 16, 24];
    OverwriteMisses24();
    FiledByStrides88And16();
    ZeroRouteCovers(8);
    ZeroRouteCovers(16);
    ZeroRouteCovers(24);
    TrieRefinesDeepestMatches([a, b, c], ip, ss);
    BestOfThree(a, b, c, ip, ss);
    SelectOfThree(a, b, c, (r: Route) => r.Valid() && Matches(r, ip, ss) && FiledAt(r, ss) == 16);
    LongestOfThree(a, b, c, ip);
    SelectOfThree(a, b, c, (r: Route) => r.Valid() && r.Covers(ip) && r.prefixLength == 16);
  }

  /** Nor does it take three different lengths: two /8 routes and one /16 are cut at 8 and 24. */
  lemma LoopMisroutesTwoSlash8()
    ensures !AlwaysLongestMatch([8, 8, 16], SegmentLengths([8, 8, 16]), IPv4)
  {
    hide AlwaysLongestMatch, SegmentLengths, Sort;
    var p: seq<nat> := [8, 8, 16];
    LoopRoutesIffAlternateSums(p, IPv4);
    SortOfAscending(p);
    assert EverySecond(p, 0) == 8 && EverySecond(p, 1) == 8 && EverySecond(p, 2) == 24;
    assert !IsAlternateSum(p[2], p);
  }

  /** The strides chosen for the routes of one family. */
  function SegmentsFor(rs: seq<Route>): (ss: seq<nat>)
    ensures Positive(ss)
  {
    SegmentLengths(Lengths(rs))
  }

  lemma {:induction false} InsertAllStep(rs: seq<Route>, ss: seq<nat>, i: nat)
    requires i < |rs|
    ensures InsertAll(rs[..i + 1], ss) == Some(DoInsertRoute(InsertAll(rs[..i], ss), rs[i], ss, 0, 0))
  {
    assert rs[..i + 1][..i] == rs[..i];
  }

  /** The cuts that the table of one family has, from the prefix lengths of that family's routes. */
  function CutsFor(routes: seq<Route>, f: Family): seq<nat> {
    SegmentsFor(OfFamily(routes, f))
  }

  /** What lookup in a table of `routes` has to return. */
  ghost predicate Answers(routes: seq<Route>, ip: IPAddr, found: Result<seq<Route>, string>)
    requires (forall r :: r in routes ==> r.Valid()) && ip.Valid()
  {
    && found == Success(DeepestMatches(OfFamily(routes, ip.family), ip, CutsFor(routes, ip.family)))
    && forall r :: r in found.value <==> BestFiled(routes, ip, r)
  }

  /** Of the routes of the address's family, one that matches at its cut, with no matching route filed deeper. */
  ghost predicate BestFiled(routes: seq<Route>, ip: IPAddr, r: Route)
    requires (forall q :: q in routes ==> q.Valid()) && ip.Valid()
  {
    var ss := CutsFor(routes, ip.family);
    && r in routes && Matches(r, ip, ss)
    && forall q :: q in routes && Matches(q, ip, ss) ==> FiledAt(q, ss) <= FiledAt(r, ss)
  }

  /** A table whose half for the address's family holds that family's routes answers as specified. */
  lemma FamilyTable(routes: seq<Route>, ip: IPAddr, t: RouteTable)
    requires (forall r :: r in routes ==> r.Valid()) && ip.Valid()
    requires var rs := OfFamily(routes, ip.family);
             (if ip.family == IPv4 then t.table4 else t.table6) == InsertAll(rs, SegmentsFor(rs))
    ensures Answers(routes, ip, t.Lookup(ip))
  {
    var rs, ss := OfFamily(routes, ip.family), CutsFor(routes, ip.family);
    TrieRefinesDeepestMatches(rs, ip, ss);
    forall r
      ensures r in DeepestMatches(rs, ip, ss) <==> BestFiled(routes, ip, r)
    {
      DeepestOfFamily(routes, ip, ss, r);
    }
  }

  lemma DeepestOfFamily(routes: seq<Route>, ip: IPAddr, ss: seq<nat>, r: Route)
    requires (forall q :: q in routes ==> q.Valid()) && ip.Valid()
    ensures r in DeepestMatches(OfFamily(routes, ip.family), ip, ss) <==>
              && r in routes && Matches(r, ip, ss)
              && forall q :: q in routes && Matches(q, ip, ss) ==> FiledAt(q, ss) <= FiledAt(r, ss)
  {
    hide FiledAt, DeepestMatches, OfFamily;
    FamiliesPartition(routes);
    DeepestMatchesAre(OfFamily(routes, ip.family), ip, ss, r);
  }

  /** Building never fails, and the table answers every address of either family as specified. */
  method BuildTable(routes: seq<Route>) returns (t: RouteTable)
    requires forall r :: r in routes ==> r.Valid()
    ensures forall ip: IPAddr :: ip.Valid() ==> Answers(routes, ip, t.Lookup(ip))
  {
    hide DoLookup, DoInsertRoute, Select, SegmentLengths, BestCut;
    var table4: Option<NodeEntry>, table6: Option<NodeEntry> := None, None;
    var routes4, routes6 := OfFamily(routes, IPv4), OfFamily(routes, IPv6);

    var segments := GetTrieTreeSegmentLengths(Lengths(routes4));
    for i := 0 to |routes4|
      invariant table4 == InsertAll(routes4[..i], segments)
    {
      InsertAllStep(routes4, segments, i);
      table4 := Some(DoInsertRoute(table4, routes4[i], segments, 0, 0));
    }
    assert routes4[..|routes4|] == routes4;
    assert table4 == InsertAll(routes4, SegmentsFor(routes4));

    segments := GetTrieTreeSegmentLengths(Lengths(routes6));
    for i := 0 to |routes6|
      invariant table6 == InsertAll(routes6[..i], segments)
    {
      InsertAllStep(routes6, segments, i);
      table6 := Some(DoInsertRoute(table6, routes6[i], segments, 0, 0));
    }
    assert routes6[..|routes6|] == routes6;

    t := RouteTable(table4, table6);
    forall ip: IPAddr | ip.Valid()
      ensures Answers(routes, ip, t.Lookup(ip))
    {
      FamilyTable(routes, ip, t);
    }
  }
}
