/** Prefix masks over byte strings, as `net.CIDRMask` and `net.IP.Mask` build and apply them. */
module Masks {
  import opened Bits
  import opened Bytes

  /** A byte of `k` high ones. */
  function HighOnes(k: nat): byte
    requires k <= 8
  {
    Shift8(1);
    Pow2Monotonic(8 - k, 8);
    (256 - Pow2(8 - k)) as byte
  }

  /** How many of the `ones` leading bits fall into byte `i`. */
  function BitsInByte(ones: nat, i: nat): (k: nat)
    ensures k <= 8
  {
    if ones <= 8 * i then 0 else if ones >= 8 * i + 8 then 8 else ones - 8 * i
  }

  function CidrMask(ones: nat, size: nat): (m: seq<byte>)
    ensures |m| == size
  {
    seq(size, i requires 0 <= i < size => HighOnes(BitsInByte(ones, i)))
  }

  function AndByte(x: byte, m: byte): byte {
    BitAnd(x as nat, m as nat) as byte
  }

  function ApplyMask(bs: seq<byte>, m: seq<byte>): (r: seq<byte>)
    requires |bs| == |m|
    ensures |r| == |bs|
  {
    seq(|bs|, i requires 0 <= i < |bs| => AndByte(bs[i], m[i]))
  }

  lemma MaskedByte(d: byte, k: nat)
    requires k <= 8
    ensures AndByte(d, HighOnes(k)) as nat == d as nat - Low(d as nat, 8 - k)
  {
    Shift8(1);
    AndHighMask(d as nat, 8, 8 - k);
  }

  lemma MaskAll(bs: seq<byte>, ones: nat)
    requires ones >= 8 * |bs|
    ensures ApplyMask(bs, CidrMask(ones, |bs|)) == bs
  {
    forall i | 0 <= i < |bs|
      ensures AndByte(bs[i], HighOnes(BitsInByte(ones, i))) == bs[i]
    {
      MaskedByte(bs[i], 8);
    }
    assert ApplyMask(bs, CidrMask(ones, |bs|)) == bs;
  }

  lemma MaskedLast(bs: seq<byte>, ones: nat)
    requires bs != []
    ensures var m := |bs| - 1;
            var masked := ApplyMask(bs, CidrMask(ones, |bs|));
            && masked[..m] == ApplyMask(bs[..m], CidrMask(ones, m))
            && masked[m] as nat == bs[m] as nat - Low(bs[m] as nat, 8 - BitsInByte(ones, m))
  {
    MaskedByte(bs[|bs| - 1], BitsInByte(ones, |bs| - 1));
  }

  ghost predicate ClearsLow(bs: seq<byte>, ones: nat)
    requires ones <= 8 * |bs|
  {
    BigEndian(ApplyMask(bs, CidrMask(ones, |bs|))) == BigEndian(bs) - Low(BigEndian(bs), 8 * |bs| - ones)
  }

  lemma ClearsLowStep(bs: seq<byte>, ones: nat)
    requires bs != [] && ones <= 8 * |bs|
    requires ones <= 8 * (|bs| - 1) ==> ClearsLow(bs[..|bs| - 1], ones)
    ensures ClearsLow(bs, ones)
  {
    hide Shl, Shr, Low, Pow2, ApplyMask, CidrMask, BigEndian;
    var m := |bs| - 1;
    var init, d := bs[..m], bs[m] as nat;
    MaskedLast(bs, ones);
    BigEndianLast(bs);
    BigEndianLast(ApplyMask(bs, CidrMask(ones, |bs|)));
    if ones <= 8 * m {
      ClearAcross(BigEndian(init), d, 8 * m - ones);
      Shift8(1);
      LowOfSmall(d, 8);
    } else {
      MaskAll(init, ones);
      LowWithinByte(BigEndian(init), d, 8 * |bs| - ones);
    }
  }

  /** Masking subtracts the bits past the first `ones`. */
  lemma {:induction false} MaskClearsLow(bs: seq<byte>, ones: nat)
    requires ones <= 8 * |bs|
    ensures ClearsLow(bs, ones)
    decreases |bs|
  {
    if bs == [] {
      assert ApplyMask(bs, CidrMask(ones, 0)) == [];
    } else {
      if ones <= 8 * (|bs| - 1) {
        MaskClearsLow(bs[..|bs| - 1], ones);
      }
      ClearsLowStep(bs, ones);
    }
  }

  lemma LowWithinByte(hi: nat, d: nat, k: nat)
    requires k <= 8
    ensures Low(256 * hi + d, k) == Low(d, k)
  {
    hide Shl, Shr, Low, Pow2;
    Shift8(hi);
    ShlShl(hi, 8 - k, k);
    LowOfSum(Shl(hi, 8 - k), d, k);
  }

  lemma ClearAcross(hi: nat, d: nat, k: nat)
    requires d < 256
    ensures Low(256 * hi + d, k + 8) == 256 * Low(hi, k) + d
  {
    hide Shl, Shr, Low, Pow2;
    var x := 256 * hi + d;
    Shift8(hi);
    Unsplit(hi, d, 8);
    Split(Low(x, 8 + k), 8);
    LowShr(x, 8, k);
    LowLow(x, 8, k);
    Shift8(Low(hi, k));
  }

  /** Masking keeps the first `ones` bits and puts zeros after them. */
  lemma MaskedValue(bs: seq<byte>, ones: nat)
    requires ones <= 8 * |bs|
    ensures BigEndian(ApplyMask(bs, CidrMask(ones, |bs|)))
         == Shl(Prefix(BigEndian(bs), 8 * |bs|, ones), 8 * |bs| - ones)
  {
    MaskClearsLow(bs, ones);
    Split(BigEndian(bs), 8 * |bs| - ones);
  }

  /** Two strings have the same masked form exactly when they agree on the masked prefix. */
  lemma SameMasked(xs: seq<byte>, ys: seq<byte>, ones: nat)
    requires |xs| == |ys| && ones <= 8 * |xs|
    ensures ApplyMask(xs, CidrMask(ones, |xs|)) == ApplyMask(ys, CidrMask(ones, |ys|))
       <==> Prefix(BigEndian(xs), 8 * |xs|, ones) == Prefix(BigEndian(ys), 8 * |ys|, ones)
  {
    hide Shl, Shr, Low, Pow2, BigEndian;
    MaskedValue(xs, ones);
    MaskedValue(ys, ones);
    var k := 8 * |xs| - ones;
    Unsplit(Prefix(BigEndian(xs), 8 * |xs|, ones), 0, k);
    Unsplit(Prefix(BigEndian(ys), 8 * |ys|, ones), 0, k);
    var mx, my := ApplyMask(xs, CidrMask(ones, |xs|)), ApplyMask(ys, CidrMask(ones, |ys|));
    if BigEndian(mx) == BigEndian(my) {
      BigEndianInjective(mx, my);
    }
  }
}
