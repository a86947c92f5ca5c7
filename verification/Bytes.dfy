/** Byte strings read as big-endian numbers, and the bit fields of such numbers. */
module Bytes {
  import opened Bits

  newtype byte = b: int | 0 <= b < 256

  function BigEndian(bs: seq<byte>): (v: nat)
    ensures v < Pow2(8 * |bs|)
  {
    if bs == [] then 0
    else
      var m := |bs| - 1;
      Pow2Sum(8 * m, 8);
      Shift8(Pow2(8 * m));
      256 * BigEndian(bs[..m]) + bs[m] as nat
  }

  lemma BigEndianLast(bs: seq<byte>)
    requires bs != []
    ensures BigEndian(bs) == 256 * BigEndian(bs[..|bs| - 1]) + bs[|bs| - 1] as nat
  {
  }

  /** The first `n` of the `total` bits of `a`, as a number. */
  function Prefix(a: nat, total: nat, n: nat): nat
    requires n <= total
  {
    Shr(a, total - n)
  }

  /** The `n` bits of `a` that start `off` bits below its top bit. */
  function Field(a: nat, total: nat, off: nat, n: nat): nat
    requires off + n <= total
  {
    Low(Prefix(a, total, off + n), n)
  }

  /** A field in closed form: floor(a / 2^(total - off - n)) mod 2^n. */
  lemma FieldAsArithmetic(a: nat, total: nat, off: nat, n: nat)
    requires off + n <= total
    ensures Field(a, total, off, n) == a / Pow2(total - off - n) % Pow2(n)
  {
    ShiftsAsArithmetic(a, total - off - n);
    ShiftsAsArithmetic(Prefix(a, total, off + n), n);
  }

  /** A longer prefix is the shorter one followed by the field between them. */
  lemma PrefixExtend(a: nat, total: nat, m: nat, n: nat)
    requires m + n <= total
    ensures Prefix(a, total, m + n) == Shl(Prefix(a, total, m), n) + Field(a, total, m, n)
    ensures Prefix(a, total, m) == Shr(Prefix(a, total, m + n), n)
    ensures Field(a, total, m, n) < Pow2(n)
  {
    Split(Prefix(a, total, m + n), n);
    ShrShr(a, total - m - n, n);
  }

  /** Two numbers agree on `m + n` leading bits exactly when they agree on `m` and on the next `n`. */
  lemma PrefixAgreement(a: nat, b: nat, total: nat, m: nat, n: nat)
    requires m + n <= total
    ensures Prefix(a, total, m + n) == Prefix(b, total, m + n)
       <==> Prefix(a, total, m) == Prefix(b, total, m) && Field(a, total, m, n) == Field(b, total, m, n)
  {
    PrefixExtend(a, total, m, n);
    PrefixExtend(b, total, m, n);
  }

  /** Agreement on a prefix carries over to every shorter one. */
  lemma PrefixShorten(a: nat, b: nat, total: nat, m: nat, n: nat)
    requires m <= n <= total && Prefix(a, total, n) == Prefix(b, total, n)
    ensures Prefix(a, total, m) == Prefix(b, total, m)
  {
    PrefixAgreement(a, b, total, m, n - m);
  }

  /** Adjacent fields concatenate. */
  lemma FieldConcat(a: nat, total: nat, off: nat, m: nat, n: nat)
    requires off + m + n <= total
    ensures Field(a, total, off, m + n) == Shl(Field(a, total, off, m), n) + Field(a, total, off + m, n)
  {
    hide Shl, Shr, Low, Pow2;
    var q := Prefix(a, total, off + m + n);
    Split(Low(q, m + n), n);
    LowShr(q, n, m);
    LowLow(q, n, m);
    ShrShr(a, total - off - m - n, n);
  }

  lemma {:induction false} BigEndianConcat(xs: seq<byte>, ys: seq<byte>)
    ensures BigEndian(xs + ys) == Shl(BigEndian(xs), 8 * |ys|) + BigEndian(ys)
    decreases ys
  {
    if ys == [] {
      assert xs + ys == xs;
    } else {
      var m := |ys| - 1;
      assert (xs + ys)[..|xs| + m] == xs + ys[..m];
      BigEndianConcat(xs, ys[..m]);
      ShlShl(BigEndian(xs), 8 * m, 8);
      Shift8(Shl(BigEndian(xs), 8 * m));
    }
  }

  /** The leading `8 * i` bits of a byte string are its first `i` bytes. */
  lemma PrefixOfBytes(bs: seq<byte>, i: nat)
    requires i <= |bs|
    ensures Prefix(BigEndian(bs), 8 * |bs|, 8 * i) == BigEndian(bs[..i])
  {
    hide Shl, Shr, Low, Pow2, BigEndian;
    var hi, lo := bs[..i], bs[i..];
    assert bs == hi + lo;
    BigEndianConcat(hi, lo);
    Unsplit(BigEndian(hi), BigEndian(lo), 8 * |lo|);
  }

  /** The last `8 * i` bits of a byte string are its last `i` bytes. */
  lemma LowOfBytes(bs: seq<byte>, i: nat)
    requires i <= |bs|
    ensures Low(BigEndian(bs), 8 * i) == BigEndian(bs[|bs| - i..])
  {
    hide Shl, Shr, Low, Pow2, BigEndian;
    var hi, lo := bs[..|bs| - i], bs[|bs| - i..];
    assert bs == hi + lo;
    BigEndianConcat(hi, lo);
    Unsplit(BigEndian(hi), BigEndian(lo), 8 * i);
  }

  /** A field that lies within one byte is a field of that byte. */
  lemma FieldInByte(bs: seq<byte>, i: nat, off: nat, n: nat)
    requires i < |bs| && off + n <= 8
    ensures Field(BigEndian(bs), 8 * |bs|, 8 * i + off, n) == Low(Shr(bs[i] as nat, 8 - off - n), n)
  {
    hide Shl, Shr, Low, Pow2;
    var a, k, d := BigEndian(bs), 8 - off - n, bs[i] as nat;
    var hi := BigEndian(bs[..i]);
    PrefixOfBytes(bs, i + 1);
    assert bs[..i + 1][..i] == bs[..i];
    ShrShr(a, 8 * (|bs| - i - 1), k);
    var top := Prefix(a, 8 * |bs|, 8 * i + 8);
    Shift8(hi);
    assert top == Shl(hi, 8) + d;
    LowShr(top, k, n);
    LowShr(d, k, n);
    ShlShl(hi, 8 - k - n, k + n);
    LowOfSum(Shl(hi, off), d, k + n);
  }

  /** Byte strings of one length are determined by the number they denote. */
  lemma {:induction false} BigEndianInjective(xs: seq<byte>, ys: seq<byte>)
    requires |xs| == |ys| && BigEndian(xs) == BigEndian(ys)
    ensures xs == ys
  {
    if xs != [] {
      var m := |xs| - 1;
      BigEndianInjective(xs[..m], ys[..m]);
      assert xs == xs[..m] + [xs[m]];
      assert ys == ys[..m] + [ys[m]];
    }
  }

  /** The big-endian bytes of `v`, `n` of them; the inverse of BigEndian. */
  function ToBytes(v: nat, n: nat): (bs: seq<byte>)
    ensures |bs| == n
  {
    if n == 0 then [] else ToBytes(v / 256, n - 1) + [(v % 256) as byte]
  }

  lemma {:induction false} BigEndianOfToBytes(v: nat, n: nat)
    requires v < Pow2(8 * n)
    ensures BigEndian(ToBytes(v, n)) == v
  {
    if n > 0 {
      Pow2Sum(8 * (n - 1), 8);
      Shift8(Pow2(8 * (n - 1)));
      BigEndianOfToBytes(v / 256, n - 1);
      assert ToBytes(v, n)[..n - 1] == ToBytes(v / 256, n - 1);
    }
  }
}
