/** Addresses of the browser client (web/utls/ipaddr.ts): bit-field extraction and masking, byte by byte. */
module IPAddresses {
  import opened Bits
  import opened Bytes
  import opened Masks

  datatype Family = IPv4 | IPv6

  function MaxBits(f: Family): nat {
    match f
    case IPv4 => 32
    case IPv6 => 128
  }

  /** An IPv4 address has four bytes, an IPv6 address sixteen. */
  lemma AddressSizes(ip: IPAddr)
    ensures ip.Valid() <==> |ip.data| == match ip.family case IPv4 => 4 case IPv6 => 16
  {
  }

  function Min(x: nat, y: nat): nat {
    if x < y then x else y
  }

  datatype IPAddr = IPAddr(data: seq<byte>, family: Family) {
    /** An address carries as many bits as its family has. */
    predicate Valid() {
      8 * |data| == MaxBits(family)
    }

    function Value(): nat {
      BigEndian(data)
    }

    /** The first `n` bits. */
    function Leading(n: nat): nat
      requires n <= 8 * |data|
    {
      Prefix(Value(), 8 * |data|, n)
    }

    /** The field of `nbits` bits at `bitOffset`, cut off at the end of the address. */
    function MaskedField(bitOffset: nat, nbits: nat): nat {
      var total := 8 * |data|;
      if bitOffset >= total then 0
      else Field(Value(), total, bitOffset, Min(nbits, total - bitOffset))
    }

    method GetMaskedValue(bitOffset: nat, nbits: nat) returns (value: nat)
      ensures value == MaskedField(bitOffset, nbits)
    {
      hide Shl, Shr, Pow2, BitAnd, BitOr, BigEndian;
      var total := 8 * |data|;
      if nbits == 0 {
        return 0;
      }
      var byteOffset, inByte := bitOffset / 8, bitOffset % 8;
      var left := nbits;
      value := 0;
      for i := 0 to |data|
        invariant i <= byteOffset ==> value == 0 && left == nbits
        invariant i > byteOffset ==>
                    var read := Min(nbits, 8 * i - bitOffset);
                    left == nbits - read && value == Field(Value(), total, bitOffset, read)
      {
        var d := data[i] as nat;
        if i == byteOffset {
          var bitsRead := Min(8 - inByte, left);
          value := BitAnd(d, RevMask(inByte));
          value := BitAnd(value, Mask(inByte + bitsRead));
          value := Shr(value, 8 - inByte - bitsRead);
          left := left - bitsRead;
          CutFromByte(d, inByte, bitsRead);
          FieldInByte(data, i, inByte, bitsRead);
        } else if i > byteOffset && left > 0 {
          var bitsRead := Min(8, left);
          ghost var before := value;
          value := Shl(value, bitsRead);
          value := BitOr(value, Shr(BitAnd(d, Mask(bitsRead)), 8 - bitsRead));
          left := left - bitsRead;
          AppendFromByte(before, d, bitsRead);
          FieldInByte(data, i, 0, bitsRead);
          FieldConcat(Value(), total, bitOffset, 8 * i - bitOffset, bitsRead);
        }
      }
      if bitOffset < total {
        assert byteOffset < |data|;
      }
    }

    /** The address with every bit past `prefixLen` cleared. */
    method ToMask(prefixLen: nat) returns (r: IPAddr)
      ensures r.family == family
      ensures r.data == ApplyMask(data, CidrMask(prefixLen, |data|))
      ensures var total, kept := 8 * |data|, Min(prefixLen, 8 * |data|);
              |r.data| == |data| && r.Value() == Shl(Leading(kept), total - kept)
    {
      var bytes: seq<byte> := [];
      for i := 0 to |data|
        invariant |bytes| == i
        invariant forall j :: 0 <= j < i ==> bytes[j] == AndByte(data[j], HighOnes(BitsInByte(prefixLen, j)))
      {
        var bitsOffset := i * 8;
        if bitsOffset >= prefixLen {
          MaskedByte(data[i], 0);
          Shift8(1);
          bytes := bytes + [0];
        } else {
          var nbits := Min(8, prefixLen - bitsOffset);
          Shift8(1);
          ShlOfOne(8 - nbits);
          Pow2Monotonic(8 - nbits, 8);
          var mask := 0xff - (Shl(1, 8 - nbits) - 1);
          bytes := bytes + [BitAnd(data[i] as nat, mask) as byte];
        }
      }
      assert bytes == ApplyMask(data, CidrMask(prefixLen, |data|));
      if prefixLen <= 8 * |data| {
        MaskedValue(data, prefixLen);
      } else {
        MaskAll(data, prefixLen);
        MaskAll(data, 8 * |data|);
        MaskedValue(data, 8 * |data|);
      }
      r := IPAddr(bytes, family);
    }
  }

  /** A byte whose `nbits` high bits are zeros and the rest ones. */
  function RevMask(nbits: nat): nat
    requires nbits <= 8
  {
    ShlOfOne(8 - nbits);
    Shl(1, 8 - nbits) - 1
  }

  /** A byte whose `nbits` high bits are ones and the rest zeros. */
  function Mask(nbits: nat): nat
    requires nbits <= 8
  {
    Shift8(1);
    ShlOfOne(8 - nbits);
    Pow2Monotonic(8 - nbits, 8);
    0xff - (Shl(1, 8 - nbits) - 1)
  }

  lemma HighBits(x: nat, k: nat)
    requires k <= 8 && x < 256
    ensures Shr(BitAnd(x, Mask(8 - k)), k) == Shr(x, k)
  {
    Shift8(1);
    ShlOfOne(k);
    AndHighMask(x, 8, k);
    Split(x, k);
    Unsplit(Shr(x, k), 0, k);
  }

  /** Masking on both sides and shifting cuts the field out of a byte. */
  lemma CutFromByte(d: nat, off: nat, n: nat)
    requires off + n <= 8 && d < 256
    ensures Shr(BitAnd(BitAnd(d, RevMask(off)), Mask(off + n)), 8 - off - n) == Low(Shr(d, 8 - off - n), n)
  {
    hide Shl, Shr, Low, Pow2, BitAnd;
    var k, low := 8 - off - n, BitAnd(d, RevMask(off));
    ShlOfOne(8 - off);
    AndLowMask(d, 8 - off);
    HighBits(low, k);
    LowShr(d, k, n);
  }

  /** Shifting in the high bits of the next byte. */
  lemma AppendFromByte(v: nat, d: nat, n: nat)
    requires n <= 8 && d < 256
    ensures BitOr(Shl(v, n), Shr(BitAnd(d, Mask(n)), 8 - n)) == Shl(v, n) + Low(Shr(d, 8 - n), n)
  {
    hide Shl, Shr, Low, Pow2, BitAnd, BitOr;
    HighBits(d, 8 - n);
    Shift8(1);
    LowOfSmall(d, 8);
    LowShr(d, 8 - n, n);
    Split(Shr(d, 8 - n), n);
    Unsplit(v, 0, n);
    OrIntoHole(Shl(v, n), Low(Shr(d, 8 - n), n), n);
  }
}
