/** Is a block inside a union of blocks? Sort, merge and scan, as pkg/utils/addr.go does it. */
module SubsetCheck {
  import opened Bits
  import opened Bytes
  import opened Masks
  import opened Subnets

  /** A contiguous range of addresses, both ends included. */
  datatype IpRange = IpRange(start: nat, end: nat) {
    predicate Has(x: nat) {
      start <= x <= end
    }

    /** The union with `rhs` has no hole, provided `rhs` does not start before this range. */
    predicate CanMergeWith(rhs: IpRange) {
      rhs.start <= end + 1
    }

    function MergeWith(rhs: IpRange): IpRange {
      IpRange(if rhs.start < start then rhs.start else start, if rhs.end > end then rhs.end else end)
    }
  }

  ghost predicate Covered(rs: seq<IpRange>, x: nat) {
    exists i :: 0 <= i < |rs| && rs[i].Has(x)
  }

  ghost predicate NonEmpty(rs: seq<IpRange>) {
    forall i :: 0 <= i < |rs| ==> rs[i].start <= rs[i].end
  }

  ghost predicate SortedByStart(rs: seq<IpRange>) {
    forall i, j :: 0 <= i < j < |rs| ==> rs[i].start <= rs[j].start
  }

  /** Sorted, with at least one uncovered address between neighbours. */
  ghost predicate Gapped(rs: seq<IpRange>) {
    forall i, j :: 0 <= i < j < |rs| ==> rs[i].end + 1 < rs[j].start
  }

  function OrNot(x: byte, m: byte): nat {
    BitOr(x as nat, 255 - m as nat)
  }

  /** Setting the host bits of one byte. */
  lemma HostBitsOfByte(x: byte, k: nat)
    requires k <= 8 && AndByte(x, HighOnes(k)) == x
    ensures OrNot(x, HighOnes(k)) == x as nat + Pow2(8 - k) - 1 < 256
  {
    hide Shl, Shr, Low, Pow2, BitOr, BitAnd;
    MaskedByte(x, k);
    Shift8(1);
    RoomForLowBits(x as nat, 8 - k, 8);
    OrIntoHole(x as nat, Pow2(8 - k) - 1, 8 - k);
  }

  /** `end` is `ip` with every bit outside the mask set. */
  ghost predicate HostBitsSet(ip: seq<byte>, ones: nat, end: seq<byte>) {
    && |end| == |ip|
    && forall i :: 0 <= i < |ip| ==> end[i] as nat == OrNot(ip[i], HighOnes(BitsInByte(ones, i)))
  }

  lemma HostBitsSetLast(ip: seq<byte>, ones: nat, end: seq<byte>)
    requires ip != [] && ApplyMask(ip, CidrMask(ones, |ip|)) == ip && HostBitsSet(ip, ones, end)
    ensures var m := |ip| - 1;
            && ApplyMask(ip[..m], CidrMask(ones, m)) == ip[..m] && HostBitsSet(ip[..m], ones, end[..m])
            && end[m] as nat == ip[m] as nat + Pow2(8 - BitsInByte(ones, m)) - 1
            && (ones >= 8 * m ==> end[..m] == ip[..m])
            && (ones <= 8 * m ==> ip[m] == 0)
  {
    hide Shl, Shr, Low, Pow2, BitOr, BitAnd;
    var m := |ip| - 1;
    forall i | 0 <= i < |ip|
      ensures AndByte(ip[i], HighOnes(BitsInByte(ones, i))) == ip[i]
    {
      assert ApplyMask(ip, CidrMask(ones, |ip|))[i] == ip[i];
    }
    HostBitsOfByte(ip[m], BitsInByte(ones, m));
    assert ApplyMask(ip[..m], CidrMask(ones, m)) == ip[..m];
    if ones >= 8 * m {
      forall i | 0 <= i < m
        ensures end[i] == ip[i]
      {
        HostBitsOfByte(ip[i], 8);
        Pow2OfZero();
      }
    }
    if ones <= 8 * m {
      MaskedByte(ip[m], 0);
      Shift8(1);
      LowOfSmall(ip[m] as nat, 8);
    }
  }

  ghost predicate EndIs(ip: seq<byte>, ones: nat, end: seq<byte>)
    requires ones <= 8 * |ip|
  {
    BigEndian(end) == BigEndian(ip) + Pow2(8 * |ip| - ones) - 1
  }

  lemma EndValueStep(ip: seq<byte>, ones: nat, end: seq<byte>)
    requires ip != [] && ones <= 8 * |ip|
    requires ApplyMask(ip, CidrMask(ones, |ip|)) == ip && HostBitsSet(ip, ones, end)
    requires |end| == |ip| && (ones <= 8 * (|ip| - 1) ==> EndIs(ip[..|ip| - 1], ones, end[..|ip| - 1]))
    ensures EndIs(ip, ones, end)
  {
    hide Shl, Shr, Low, Pow2, BigEndian, ApplyMask, CidrMask, HostBitsSet;
    var m := |ip| - 1;
    HostBitsSetLast(ip, ones, end);
    BigEndianLast(ip);
    BigEndianLast(end);
    if ones <= 8 * m {
      Shift8(Pow2(8 * m - ones));
      Pow2Sum(8 * m - ones, 8);
    }
  }

  /** Setting the host bits adds all of them to the network address. */
  lemma {:induction false} EndValue(ip: seq<byte>, ones: nat, end: seq<byte>)
    requires ones <= 8 * |ip| && ApplyMask(ip, CidrMask(ones, |ip|)) == ip && HostBitsSet(ip, ones, end)
    ensures EndIs(ip, ones, end)
    decreases |ip|
  {
    if |ip| > 0 {
      HostBitsSetLast(ip, ones, end);
      if ones <= 8 * (|ip| - 1) {
        EndValue(ip[..|ip| - 1], ones, end[..|ip| - 1]);
      }
      EndValueStep(ip, ones, end);
    }
  }

  /** The block's network address and its last address, whether or not the block was given with host bits set. */
  method IpNetToRange(n: IPNet) returns (r: IpRange)
    requires n.WellFormed()
    ensures r == IpRange(n.Network().Base(), n.Network().Last())
  {
    hide BigEndian, BitOr, BitAnd, Pow2, PlainIP;
    ghost var net := n.Network();
    var startIP, mask := ApplyMask(n.ip, n.Mask()), n.Mask();
    var endIP := new byte[|startIP|](i requires 0 <= i < |startIP| => startIP[i]);
    for i := 0 to |mask|
      invariant forall j :: 0 <= j < i ==> endIP[j] as nat == OrNot(net.ip[j], HighOnes(BitsInByte(n.ones, j)))
      invariant forall j :: i <= j < |mask| ==> endIP[j] == net.ip[j]
    {
      if i < endIP.Length {
        assert ApplyMask(net.ip, net.Mask())[i] == net.ip[i];
        HostBitsOfByte(net.ip[i], BitsInByte(n.ones, i));
        endIP[i] := OrNot(endIP[i], mask[i]) as byte;
      }
    }
    EndValue(net.ip, n.ones, endIP[..]);
    r := IpRange(BigEndian(startIP), BigEndian(endIP[..]));
  }

  /** Element `i` once `x` stands at `at`. */
  function ShiftedFrom(r: seq<IpRange>, at: nat, x: IpRange, i: nat): IpRange
    requires at <= |r| && i <= |r|
  {
    if i < at then r[i] else if i == at then x else r[i - 1]
  }

  lemma ShiftedInOrder(r: seq<IpRange>, at: nat, x: IpRange, r': seq<IpRange>)
    requires at <= |r| && SortedByStart(r) && |r'| == |r| + 1
    requires forall j :: 0 <= j < at ==> r[j].start <= x.start
    requires at < |r| ==> x.start < r[at].start
    requires forall i :: 0 <= i < |r'| ==> r'[i] == ShiftedFrom(r, at, x, i)
    ensures SortedByStart(r')
  {
    forall i, j | 0 <= i < j < |r'|
      ensures r'[i].start <= r'[j].start
    {
      assert r'[i] == ShiftedFrom(r, at, x, i) && r'[j] == ShiftedFrom(r, at, x, j);
    }
  }

  lemma InsertedElements(r: seq<IpRange>, at: nat, x: IpRange)
    requires at <= |r|
    ensures multiset(r[..at] + [x] + r[at..]) == multiset(r) + multiset{x}
  {
    assert r == r[..at] + r[at..];
  }

  lemma InsertedInOrder(r: seq<IpRange>, at: nat, x: IpRange)
    requires at <= |r| && SortedByStart(r)
    requires forall j :: 0 <= j < at ==> r[j].start <= x.start
    requires at < |r| ==> x.start < r[at].start
    ensures SortedByStart(r[..at] + [x] + r[at..])
    ensures multiset(r[..at] + [x] + r[at..]) == multiset(r) + multiset{x}
  {
    hide SortedByStart;
    InsertedElements(r, at, x);
    ShiftedInOrder(r, at, x, r[..at] + [x] + r[at..]);
  }

  method InsertByStart(r: seq<IpRange>, x: IpRange) returns (r': seq<IpRange>)
    requires SortedByStart(r)
    ensures SortedByStart(r') && multiset(r') == multiset(r) + multiset{x}
  {
    var at := 0;
    while at < |r| && r[at].start <= x.start
      invariant at <= |r|
      invariant forall j :: 0 <= j < at ==> r[j].start <= x.start
    {
      at := at + 1;
    }
    InsertedInOrder(r, at, x);
    r' := r[..at] + [x] + r[at..];
  }

  /** `sort.Slice` by start address; callers rely on nothing about ranges with one start. */
  method SortByStart(ranges: seq<IpRange>) returns (r: seq<IpRange>)
    ensures multiset(r) == multiset(ranges) && SortedByStart(r)
  {
    r := [];
    for i := 0 to |ranges|
      invariant multiset(r) == multiset(ranges[..i]) && SortedByStart(r)
    {
      r := InsertByStart(r, ranges[i]);
      assert ranges[..i + 1] == ranges[..i] + [ranges[i]];
    }
    assert ranges[..|ranges|] == ranges;
  }

  lemma SameElementsCover(a: seq<IpRange>, b: seq<IpRange>, x: nat)
    requires multiset(a) == multiset(b)
    ensures Covered(a, x) <==> Covered(b, x)
  {
    forall s: seq<IpRange>, t: seq<IpRange> | multiset(s) == multiset(t) && Covered(s, x)
      ensures Covered(t, x)
    {
      var i :| 0 <= i < |s| && s[i].Has(x);
      assert s[i] in multiset(t);
    }
  }

  /** The merge loop keeps the union and leaves gaps between its ranges. */
  method MergeSorted(ranges: seq<IpRange>) returns (merged: seq<IpRange>)
    requires |ranges| > 0 && NonEmpty(ranges) && SortedByStart(ranges)
    ensures NonEmpty(merged) && Gapped(merged)
    ensures forall x: nat :: Covered(merged, x) <==> Covered(ranges, x)
  {
    merged := [];
    var cur := ranges[0];
    for i := 1 to |ranges|
      invariant NonEmpty(merged) && Gapped(merged) && cur.start <= cur.end
      invariant forall j :: 0 <= j < |merged| ==> merged[j].end + 1 < cur.start
      invariant forall j :: i <= j < |ranges| ==> cur.start <= ranges[j].start
      invariant forall x: nat :: Covered(merged, x) || cur.Has(x) <==> Covered(ranges[..i], x)
    {
      ghost var before, last := merged, cur;
      if cur.CanMergeWith(ranges[i]) {
        cur := cur.MergeWith(ranges[i]);
      } else {
        merged := merged + [cur];
        cur := ranges[i];
      }
      forall x: nat
        ensures Covered(merged, x) || cur.Has(x) <==> Covered(ranges[..i + 1], x)
      {
        CoveredAppend(ranges[..i], ranges[i], x);
        assert ranges[..i + 1] == ranges[..i] + [ranges[i]];
        CoveredAppend(before, last, x);
      }
    }
    ghost var before := merged;
    merged := merged + [cur];
    assert ranges[..|ranges|] == ranges;
    forall x: nat
      ensures Covered(merged, x) <==> Covered(ranges, x)
    {
      CoveredAppend(before, cur, x);
    }
  }

  lemma CoveredAppend(rs: seq<IpRange>, r: IpRange, x: nat)
    ensures Covered(rs + [r], x) <==> Covered(rs, x) || r.Has(x)
  {
    if Covered(rs, x) {
      var i :| 0 <= i < |rs| && rs[i].Has(x);
      assert (rs + [r])[i].Has(x);
    }
    if r.Has(x) {
      assert (rs + [r])[|rs|].Has(x);
    }
  }

  lemma GapIsUncovered(rs: seq<IpRange>, i: nat)
    requires NonEmpty(rs) && Gapped(rs) && i < |rs|
    ensures !Covered(rs, rs[i].end + 1)
  {
    forall j | 0 <= j < |rs|
      ensures !rs[j].Has(rs[i].end + 1)
    {
      if j < i {
        assert rs[j].end + 1 < rs[i].start;
      }
    }
  }

  /** Ranges with gaps between them cover an interval only if one of them does. */
  lemma OneRangeCovers(rs: seq<IpRange>, a: IpRange)
    requires NonEmpty(rs) && Gapped(rs) && a.start <= a.end
    ensures (forall x: nat :: a.Has(x) ==> Covered(rs, x))
       <==> exists i :: 0 <= i < |rs| && rs[i].start <= a.start && rs[i].end >= a.end
  {
    if forall x: nat :: a.Has(x) ==> Covered(rs, x) {
      assert a.Has(a.start);
      var i :| 0 <= i < |rs| && rs[i].Has(a.start);
      if rs[i].end < a.end {
        assert a.Has(rs[i].end + 1);
        GapIsUncovered(rs, i);
        assert false;
      }
    }
    if i :| 0 <= i < |rs| && rs[i].start <= a.start && rs[i].end >= a.end {
      forall x: nat | a.Has(x)
        ensures Covered(rs, x)
      {
        assert rs[i].Has(x);
      }
    }
  }

  /** Some allowed block of the same address family contains the address. */
  ghost predicate Allowed(size: nat, allowedSets: seq<IPNet>, x: nat)
    requires forall n :: n in allowedSets ==> n.WellFormed()
  {
    exists i :: 0 <= i < |allowedSets| && |allowedSets[i].ip| == size && allowedSets[i].Contains(x)
  }

  /** The intervals of the allowed blocks of one family. */
  method FamilyRanges(subnetA: IPNet, allowedSets: seq<IPNet>) returns (ranges: seq<IpRange>)
    requires subnetA.WellFormed() && forall n :: n in allowedSets ==> n.WellFormed()
    ensures NonEmpty(ranges)
    ensures forall x: nat :: Covered(ranges, x) <==> Allowed(|subnetA.ip|, allowedSets, x)
  {
    hide Pow2, BigEndian, ApplyMask, CidrMask;
    var isIPv4A := To4(subnetA.ip).Some?;
    ranges := [];
    for k := 0 to |allowedSets|
      invariant NonEmpty(ranges)
      invariant forall x: nat :: Covered(ranges, x) <==> Allowed(|subnetA.ip|, allowedSets[..k], x)
    {
      ghost var before := ranges;
      var allowed := allowedSets[k];
      if To4(allowed.ip).Some? == isIPv4A {
        var r := IpNetToRange(allowed);
        ranges := ranges + [r];
      }
      forall x: nat
        ensures Covered(ranges, x) <==> Allowed(|subnetA.ip|, allowedSets[..k + 1], x)
      {
        NetworkContains(allowed, x);
        BlockIsInterval(allowed.Network(), x);
        CoveredAppend(before, IpRange(allowed.Network().Base(), allowed.Network().Last()), x);
        AllowedAppend(|subnetA.ip|, allowedSets[..k], allowed, x);
        assert allowedSets[..k + 1] == allowedSets[..k] + [allowed];
      }
    }
    assert allowedSets[..|allowedSets|] == allowedSets;
  }

  /** Sorting and merging keep the union of a list of ranges. */
  method SortAndMerge(ranges: seq<IpRange>) returns (merged: seq<IpRange>)
    requires |ranges| > 0 && NonEmpty(ranges)
    ensures NonEmpty(merged) && Gapped(merged)
    ensures forall x: nat :: Covered(merged, x) <==> Covered(ranges, x)
  {
    var sorted := SortByStart(ranges);
    forall x: nat
      ensures Covered(sorted, x) <==> Covered(ranges, x)
    {
      SameElementsCover(sorted, ranges, x);
    }
    forall i | 0 <= i < |sorted|
      ensures sorted[i].start <= sorted[i].end
    {
      assert sorted[i] in multiset(ranges);
    }
    assert |multiset(sorted)| == |multiset(ranges)|;
    merged := MergeSorted(sorted);
  }

  /** The answer is exact: every address of `subnetA` lies in an allowed block of its family. */
  method IsSubset(subnetA: IPNet, allowedSets: seq<IPNet>) returns (b: bool)
    requires subnetA.WellFormed() && forall n :: n in allowedSets ==> n.WellFormed()
    ensures b <==> forall x: nat :: subnetA.Contains(x) ==> Allowed(|subnetA.ip|, allowedSets, x)
  {
    hide Pow2, BigEndian, ApplyMask, CidrMask, Allowed;
    var rangeA := IpNetToRange(subnetA);
    forall x: nat
      ensures subnetA.Contains(x) <==> rangeA.Has(x)
    {
      NetworkContains(subnetA, x);
      BlockIsInterval(subnetA.Network(), x);
    }
    var ranges := FamilyRanges(subnetA, allowedSets);
    if |ranges| == 0 {
      assert rangeA.Has(rangeA.start) && !Covered(ranges, rangeA.start);
      return false;
    }
    var merged := SortAndMerge(ranges);
    OneRangeCovers(merged, rangeA);
    for i := 0 to |merged|
      invariant forall j :: 0 <= j < i ==> !(merged[j].start <= rangeA.start && merged[j].end >= rangeA.end)
    {
      if merged[i].start <= rangeA.start && merged[i].end >= rangeA.end {
        return true;
      }
    }
    return false;
  }

  lemma AllowedAppend(size: nat, sets: seq<IPNet>, n: IPNet, x: nat)
    requires n.WellFormed() && forall m :: m in sets ==> m.WellFormed()
    ensures Allowed(size, sets + [n], x) <==> Allowed(size, sets, x) || (|n.ip| == size && n.Contains(x))
  {
    var all := sets + [n];
    if Allowed(size, sets, x) {
      var i :| 0 <= i < |sets| && |sets[i].ip| == size && sets[i].Contains(x);
      assert all[i] == sets[i];
    }
    if |n.ip| == size && n.Contains(x) {
      assert all[|sets|] == n;
    }
  }
}
