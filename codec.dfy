/**
 * The posit8 codec: a raw posit8 byte is scattered into the posit object's
 * 8-bit bit block (`marshal`, used by `decode`) and gathered back
 * (`unmarshal`, used by `encode`, and the same loop in
 * `unmarshallPositRaw`, used by the scalar hash).
 */
module Codec {
  import opened Posit8

  /** A `bitblock<8>`: entry i is bit i of the encoding, least significant first. */
  type Bitblock = s: seq<bool> | |s| == NBits witness [false, false, false, false, false, false, false, false]

  /** A `posit<8,2>` value object, seen through its bit block (`get` / `setBitblock`). */
  datatype Posit = Posit(raw: Bitblock)

  /** The bit block whose bit i is bit i of `b`: what `marshal` writes. */
  function Scatter(b: Byte): Bitblock
  {
    seq(NBits, i requires 0 <= i < NBits => Bit(b, i))
  }

  /** The byte assembled from the first |raw| bits, bit i into mask `1 << i`: what `unmarshal` builds. */
  function Gather(raw: seq<bool>): Byte
    requires |raw| <= NBits
  {
    if |raw| == 0 then 0
    else Gather(raw[..|raw| - 1]) | (if raw[|raw| - 1] then Mask(|raw| - 1) else 0)
  }

  /** `decode`: the posit object carrying the raw byte. */
  function Decode(bits: Byte): Posit
  {
    Posit(Scatter(bits))
  }

  /** `encode`: the raw byte of a posit object. */
  function Encode(p: Posit): Byte
  {
    Gather(p.raw)
  }

  /** The low k bits of a byte. */
  function LowBits(k: nat): Byte
    requires k <= NBits
  {
    match k
    case 0 => 0x00
    case 1 => 0x01
    case 2 => 0x03
    case 3 => 0x07
    case 4 => 0x0F
    case 5 => 0x1F
    case 6 => 0x3F
    case 7 => 0x7F
    case _ => 0xFF
  }

  lemma {:induction false} LowBitsStep(b: Byte, k: nat)
    requires 0 < k <= NBits
    ensures b & LowBits(k) == (b & LowBits(k - 1)) | (if Bit(b, k - 1) then Mask(k - 1) else 0)
  {
    if k == 1 {} else if k == 2 {} else if k == 3 {} else if k == 4 {}
    else if k == 5 {} else if k == 6 {} else if k == 7 {} else {}
  }

  /** Gathering any bits sets only bits below their count, and sets bit i exactly when raw[i]. */
  lemma {:induction false} GatherBits(raw: seq<bool>, i: nat)
    requires |raw| <= NBits && i < NBits
    ensures Bit(Gather(raw), i) <==> i < |raw| && raw[i]
  {
    if |raw| > 0 {
      var n := |raw| - 1;
      GatherBits(raw[..n], i);
      MaskBit(Gather(raw[..n]), n, i, raw[n]);
    }
  }

  /** Or-ing in mask n (or nothing) changes bit n only. */
  lemma {:induction false} MaskBit(g: Byte, n: nat, i: nat, set_: bool)
    requires n < NBits && i < NBits
    ensures Bit(g | (if set_ then Mask(n) else 0), i) <==> (if i == n then set_ || Bit(g, i) else Bit(g, i))
  {
    if n == 0 {} else if n == 1 {} else if n == 2 {} else if n == 3 {}
    else if n == 4 {} else if n == 5 {} else if n == 6 {} else {}
  }

  lemma {:induction false} GatherScatterPrefix(b: Byte, k: nat)
    requires k <= NBits
    ensures Gather(Scatter(b)[..k]) == b & LowBits(k)
  {
    if k > 0 {
      GatherScatterPrefix(b, k - 1);
      assert Scatter(b)[..k][..k - 1] == Scatter(b)[..k - 1];
      LowBitsStep(b, k);
    }
  }

  /** Shifting mask i left by one gives mask i + 1. */
  lemma {:induction false} MaskShift(i: nat)
    requires i < NBits
    ensures i + 1 < NBits ==> Mask(i) << 1 == Mask(i + 1)
  {
  }

  /** Two bytes with the same eight bits are equal. */
  lemma {:induction false} BitsDetermineByte(a: Byte, b: Byte)
    requires forall i :: 0 <= i < NBits ==> (Bit(a, i) <==> Bit(b, i))
    ensures a == b
  {
    assert Bit(a, 0) == Bit(b, 0) && Bit(a, 1) == Bit(b, 1) && Bit(a, 2) == Bit(b, 2) && Bit(a, 3) == Bit(b, 3);
    assert Bit(a, 4) == Bit(b, 4) && Bit(a, 5) == Bit(b, 5) && Bit(a, 6) == Bit(b, 6) && Bit(a, 7) == Bit(b, 7);
  }

  /** unmarshal(marshal(b)) == b. */
  lemma {:induction false} GatherScatter(b: Byte)
    ensures Gather(Scatter(b)) == b
  {
    GatherScatterPrefix(b, NBits);
    assert Scatter(b)[..NBits] == Scatter(b);
  }

  /** marshal(unmarshal(raw)) == raw. */
  lemma {:induction false} ScatterGather(raw: Bitblock)
    ensures Scatter(Gather(raw)) == raw
  {
    forall i | 0 <= i < NBits
      ensures Scatter(Gather(raw))[i] == raw[i]
    {
      GatherBits(raw, i);
    }
  }

  /** encode(decode(bits)) == bits for every raw byte. */
  lemma {:induction false} EncodeDecode(bits: Byte)
    ensures Encode(Decode(bits)) == bits
  {
    GatherScatter(bits);
  }

  /** decode(encode(p)) == p for every posit object. */
  lemma {:induction false} DecodeEncode(p: Posit)
    ensures Decode(Encode(p)) == p
  {
    ScatterGather(p.raw);
  }

  /** Each posit value has exactly one encoding: the raw byte identifies it. */
  lemma {:induction false} EncodeInjective(p: Posit, q: Posit)
    ensures Encode(p) == Encode(q) <==> p == q
  {
    DecodeEncode(p);
    DecodeEncode(q);
  }

  /** One step of the bit loops: mask b selects bit b, and shifting it left gives the next mask. */
  lemma {:induction false} MaskStep(a: Byte, b: nat, mask: Byte)
    requires b < NBits && mask == Mask(b)
    ensures (mask & a != 0) == Bit(a, b)
    ensures b + 1 < NBits ==> mask << 1 == Mask(b + 1)
  {
    MaskShift(b);
  }

  /** Or-ing mask b in when raw[b] is set extends the byte gathered from the first b bits by one. */
  lemma {:induction false} GatherStep(raw: seq<bool>, b: nat, byte: Byte, mask: Byte)
    requires b < |raw| <= NBits && byte == Gather(raw[..b]) && mask == Mask(b)
    ensures Gather(raw[..b + 1]) == if raw[b] then byte | mask else byte
  {
    assert raw[..b + 1][..b] == raw[..b];
  }

  /** The gathered byte has bit i set exactly when raw[i] is. */
  lemma {:induction false} GatherAllBits(raw: Bitblock)
    ensures forall i :: 0 <= i < NBits ==> (Bit(Gather(raw), i) <==> raw[i])
  {
    forall i | 0 <= i < NBits
      ensures Bit(Gather(raw), i) <==> raw[i]
    {
      GatherBits(raw, i);
    }
  }

  /** `marshal<8,2>`: for nbits = 8 the switch selects one byte of eight bits; bit i goes to raw[i]. */
  method Marshal(a: Byte, raw: array<bool>)
    requires raw.Length == NBits
    modifies raw
    ensures raw[..] == Scatter(a)
  {
    var bitCntr := 0;
    var mask: Byte := 1;
    var b := 0;
    while b < NBits
      invariant 0 <= b <= NBits && bitCntr == b
      invariant b < NBits ==> mask == Mask(b)
      invariant forall i :: 0 <= i < b ==> raw[i] == Bit(a, i)
    {
      MaskStep(a, b, mask);
      raw[bitCntr] := mask & a != 0;
      bitCntr := bitCntr + 1;
      mask := mask << 1;
      b := b + 1;
    }
    assert raw[..] == Scatter(a);
  }

  /** `unmarshal<8,2>` (and the identical loop of `unmarshallPositRaw`): raw[i] sets mask `1 << i`. */
  method Unmarshal(raw: Bitblock) returns (a: Byte)
    ensures a == Gather(raw)
    ensures forall i :: 0 <= i < NBits ==> (Bit(a, i) <==> raw[i])
  {
    var bitCntr := 0;
    var byte: Byte := 0;
    var mask: Byte := 1;
    var b := 0;
    while b < NBits
      invariant 0 <= b <= NBits && bitCntr == b
      invariant b < NBits ==> mask == Mask(b)
      invariant byte == Gather(raw[..b])
    {
      GatherStep(raw, b, byte, mask);
      MaskStep(byte, b, mask);
      if raw[bitCntr] {
        byte := byte | mask;
      }
      bitCntr := bitCntr + 1;
      mask := mask << 1;
      b := b + 1;
    }
    assert raw[..NBits] == raw;
    a := byte;
    GatherAllBits(raw);
  }

  /** `unmarshallPositRaw`: the raw byte of a scalar's posit value. */
  method UnmarshallPositRaw(num: Posit) returns (out: Byte)
    ensures out == Encode(num)
  {
    out := Unmarshal(num.raw);
  }

  /** `PyPosit8_2_Hash`: the identity hash, the raw byte as an unsigned integer. */
  method Hash(self: Posit) returns (h: int)
    ensures h == Encode(self) as int
    ensures 0 <= h < 256 && h != -1
  {
    var out := UnmarshallPositRaw(self);
    h := out as int;
  }

  /** Two scalars hash alike exactly when they hold the same value; a scalar decoded from byte b hashes to b. */
  lemma {:induction false} HashIdentifiesValue(p: Posit, q: Posit, bits: Byte)
    ensures Encode(p) as int == Encode(q) as int <==> p == q
    ensures Encode(Decode(bits)) as int == bits as int
  {
    EncodeInjective(p, q);
    EncodeDecode(bits);
  }
}
