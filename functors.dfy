/**
 * The elementwise functors of the `ufuncs` namespace whose behaviour is
 * decided by branches on bits, NaR and signs rather than by float
 * arithmetic: nextafter, heaviside, sign, maximum, minimum, fmax, fmin.
 */
module Functors {
  import opened Posit8

  /**
   * `ufuncs::NextAfter` as written. It works on the raw byte with the
   * sign-magnitude rule of IEEE formats: step the magnitude down when it must
   * shrink or the signs differ, up otherwise, and take the low byte of the
   * `long` sum (so 0xFFFF steps down by one modulo 256).
   */
  function NextAfter(from: Byte, to: Byte): Byte
  {
    if IsNaR(from) || IsNaR(to) then NaR
    else if from == to then to
    else if from == Zero then
      if to == Zero then to else (to & SignMask) | 1
    else
      var fromSign := from & SignMask;
      var toSign := to & SignMask;
      var fromAbs := from & !SignMask;
      var toAbs := to & !SignMask;
      var adjustment: int := if fromAbs > toAbs || fromSign != toSign then 0xFFFF else 0x0001;
      LowByte(from as int + adjustment)
  }

  /** The sign bit of a raw byte. */
  predicate SignBit(b: Byte)
  {
    b & SignMask != 0
  }

  /** NaR in either argument gives NaR, whatever the other argument is. */
  lemma {:induction false} NextAfterNaR(from: Byte, to: Byte)
    ensures IsNaR(from) || IsNaR(to) ==> NextAfter(from, to) == NaR
  {
  }

  /** The low byte of b + 0xFFFF is b - 1 modulo 256. */
  lemma {:induction false} LowByteDown(b: Byte)
    ensures LowByte(b as int + 0xFFFF) == b - 1
  {
    assert (b - 1) as int == (b as int + 255) % 256;
    assert (b as int + 0xFFFF) % 256 == (b as int + 255) % 256 by {
      assert b as int + 0xFFFF == b as int + 255 + 256 * 255;
    }
  }

  /** The low byte of b + 1 is b + 1 modulo 256. */
  lemma {:induction false} LowByteUp(b: Byte)
    ensures LowByte(b as int + 0x0001) == b + 1
  {
    assert (b + 1) as int == (b as int + 1) % 256;
  }

  /** One step up in byte space is one step up in the two's complement order, except from 0111_1111. */
  lemma {:induction false} SignedUp(b: Byte)
    ensures b != 0x7F ==> Signed(b + 1) == Signed(b) + 1
  {
    assert (b + 1) as int == (b as int + 1) % 256;
  }

  /** One step down in byte space is one step down in the two's complement order, except from 1000_0000. */
  lemma {:induction false} SignedDown(b: Byte)
    ensures b != 0x80 ==> Signed(b - 1) == Signed(b) - 1
  {
    assert (b - 1) as int == (b as int + 255) % 256;
  }

  /** The magnitude bits of a byte, read as an integer, and its sign bit. */
  lemma {:induction false} MagnitudeBits(b: Byte)
    ensures (b & 0x7F) as int == if SignBit(b) then b as int - 128 else b as int
    ensures Signed(b) == if SignBit(b) then b as int - 256 else b as int
  {
  }

  /** The unsigned order of bytes is the order of the integers they denote. */
  lemma {:induction false} UnsignedOrder(a: Byte, b: Byte)
    ensures a > b <==> a as int > b as int
    ensures a == b <==> a as int == b as int
  {
  }

  /**
   * The edge rules and the step rule: equal patterns give `to`; from zero
   * the result is 1 carrying the sign bit of `to`; otherwise one step down
   * (modulo 256) when |from| > |to| or the signs differ, one step up
   * otherwise. The result is one step away from `from` in byte space.
   */
  lemma {:induction false} NextAfterRule(from: Byte, to: Byte)
    requires !IsNaR(from) && !IsNaR(to)
    ensures from == to ==> NextAfter(from, to) == to
    ensures from != to && from == Zero ==> NextAfter(from, to) == (to & SignMask) | 1
    ensures from != to && from != Zero ==>
      NextAfter(from, to) == if (from & 0x7F) > (to & 0x7F) || SignBit(from) != SignBit(to) then from - 1 else from + 1
    ensures from != to && from != Zero ==> NextAfter(from, to) == from - 1 || NextAfter(from, to) == from + 1
  {
    if from != to && from != Zero {
      LowByteDown(from);
      LowByteUp(from);
      assert !SignMask == 0x7F;
      assert (from & SignMask != to & SignMask) == (SignBit(from) != SignBit(to)) by {
        assert from & SignMask == 0 || from & SignMask == SignMask;
        assert to & SignMask == 0 || to & SignMask == SignMask;
      }
    }
  }

  /**
   * The rule the format calls for: posit values are ordered like their bit
   * patterns read as two's complement integers, so the neighbour toward `to`
   * is one integer step in that order, across zero as well.
   */
  function NextAfterToward(from: Byte, to: Byte): (r: Byte)
    ensures !IsNaR(from) && !IsNaR(to) && from != to ==>
      !IsNaR(r) &&
      (Signed(from) < Signed(to) ==> Signed(r) == Signed(from) + 1 && Signed(r) <= Signed(to)) &&
      (Signed(from) > Signed(to) ==> Signed(r) == Signed(from) - 1 && Signed(r) >= Signed(to))
    ensures IsNaR(from) || IsNaR(to) ==> IsNaR(r)
    ensures from == to ==> r == to
  {
    SignedUp(from);
    SignedDown(from);
    if IsNaR(from) || IsNaR(to) then NaR
    else if from == to then to
    else if Signed(from) < Signed(to) then from + 1
    else from - 1
  }

  /** From zero, the corrected rule gives the smallest positive or the negative of smallest magnitude. */
  lemma {:induction false} NextAfterTowardFromZero(to: Byte)
    requires !IsNaR(to) && to != Zero
    ensures NextAfterToward(Zero, to) == if SignBit(to) then 0xFF else 0x01
    ensures Signed(NextAfterToward(Zero, to)) == if Signed(to) < 0 then -1 else 1
  {
  }

  /**
   * The as-written rule agrees with the corrected one except in two cases:
   * from zero toward a negative value, and from a negative value toward zero
   * or a positive value.
   */
  lemma {:induction false} NextAfterAgreement(from: Byte, to: Byte)
    ensures NextAfter(from, to) != NextAfterToward(from, to) <==>
      !IsNaR(from) && !IsNaR(to) && from != to &&
      ((from == Zero && SignBit(to)) || (from != Zero && SignBit(from) && !SignBit(to)))
  {
    if !IsNaR(from) && !IsNaR(to) && from != to && from != Zero {
      StepAgreement(from, to);
    }
  }

  /** The as-written rule steps down exactly when `from` is above `to` or is negative while `to` is not. */
  lemma {:induction false} DownIffAbove(from: Byte, to: Byte)
    requires from != to
    ensures Signed(from) != Signed(to)
    ensures ((from & 0x7F) > (to & 0x7F) || SignBit(from) != SignBit(to)) <==>
      Signed(from) > Signed(to) || (SignBit(from) && !SignBit(to))
    ensures SignBit(from) && !SignBit(to) ==> Signed(from) < Signed(to)
  {
    MagnitudeBits(from);
    MagnitudeBits(to);
    UnsignedOrder(from, to);
    UnsignedOrder(from & 0x7F, to & 0x7F);
  }

  /** Away from zero the as-written step goes the wrong way exactly from a negative value toward a non-negative one. */
  lemma {:induction false} StepAgreement(from: Byte, to: Byte)
    requires !IsNaR(from) && !IsNaR(to) && from != to && from != Zero
    ensures NextAfter(from, to) != NextAfterToward(from, to) <==> SignBit(from) && !SignBit(to)
  {
    NextAfterRule(from, to);
    DownIffAbove(from, to);
    assert from - 1 != from + 1;
  }

  /**
   * The as-written rule yields NaR from two reals in exactly one case: from
   * 1000_0001 (the most negative real) toward zero or a positive value, where
   * the step down lands on the NaR pattern.
   */
  lemma {:induction false} NextAfterReachesNaR(from: Byte, to: Byte)
    ensures IsNaR(NextAfter(from, to)) <==> IsNaR(from) || IsNaR(to) || (from == 0x81 && !SignBit(to))
  {
    if !IsNaR(from) && !IsNaR(to) && from != to && from != Zero {
      NextAfterRule(from, to);
    }
  }

  /** Concrete inputs on which the as-written rule leaves the direction of `to`. */
  lemma {:induction false} NextAfterWrongDirection()
    ensures NextAfter(Zero, MinusOne) == 0x81 && Signed(0x81) < Signed(MinusOne)
    ensures NextAfterToward(Zero, MinusOne) == 0xFF
    ensures NextAfter(0xFF, One) == 0xFE && Signed(0xFE) < Signed(0xFF) < Signed(One)
    ensures NextAfterToward(0xFF, One) == Zero
    ensures NextAfter(0x81, One) == NaR && NextAfterToward(0x81, One) == 0x82
  {
    LowByteDown(0x81);
    LowByteDown(0xFF);
  }

  /**
   * The float view of a posit agrees with its bits on the sign: negative
   * values are exactly the patterns with a negative two's complement
   * reading, and only the zero pattern is worth zero.
   */
  ghost predicate SignConsistent(value: Byte -> real)
  {
    forall b: Byte :: !IsNaR(b) ==> (value(b) < 0.0 <==> Signed(b) < 0) && (value(b) == 0.0 <==> b == Zero)
  }

  /** `ufuncs::Heaviside`: NaN gives x back, negative 0, positive 1, zero gives h0. */
  function Heaviside(value: Byte -> real, bx: Byte, h0: Byte): Byte
  {
    if IsNaR(bx) then bx
    else if value(bx) < 0.0 then Zero
    else if value(bx) > 0.0 then One
    else h0
  }

  /** `ufuncs::Sign`: -1 for negative, 1 for positive, the argument itself for zero and NaR. */
  function Sign(value: Byte -> real, a: Byte): Byte
  {
    if !IsNaR(a) && value(a) < 0.0 then MinusOne
    else if !IsNaR(a) && value(a) > 0.0 then One
    else a
  }

  /** On a sign-consistent valuation heaviside is decided by the bits alone. */
  lemma {:induction false} HeavisideByBits(value: Byte -> real, bx: Byte, h0: Byte)
    requires SignConsistent(value)
    ensures Heaviside(value, bx, h0) ==
      if IsNaR(bx) then NaR else if bx == Zero then h0 else if SignBit(bx) then Zero else One
  {
  }

  /** On a sign-consistent valuation sign is decided by the bits alone, and never turns a real into NaR. */
  lemma {:induction false} SignByBits(value: Byte -> real, a: Byte)
    requires SignConsistent(value)
    ensures Sign(value, a) ==
      if IsNaR(a) then NaR else if a == Zero then Zero else if SignBit(a) then MinusOne else One
  {
  }

  /** `ufuncs::Maximum`: the first argument if it is NaN or greater, else the second. */
  function Maximum(value: Byte -> real, a: Byte, b: Byte): Byte
  {
    if IsNaR(a) || FloatGreater(value, a, b) then a else b
  }

  /** `ufuncs::Minimum`: the first argument if it is NaN or less, else the second. */
  function Minimum(value: Byte -> real, a: Byte, b: Byte): Byte
  {
    if IsNaR(a) || FloatLess(value, a, b) then a else b
  }

  /** `ufuncs::Fmax`: the first argument if the second is NaN or the first is greater. */
  function Fmax(value: Byte -> real, a: Byte, b: Byte): Byte
  {
    if IsNaR(b) || FloatGreater(value, a, b) then a else b
  }

  /** `ufuncs::Fmin`: the first argument if the second is NaN or the first is less. */
  function Fmin(value: Byte -> real, a: Byte, b: Byte): Byte
  {
    if IsNaR(b) || FloatLess(value, a, b) then a else b
  }

  /** maximum and minimum propagate NaR from either side; on reals they pick the larger or smaller value. */
  lemma {:induction false} MaximumMinimumNaN(value: Byte -> real, a: Byte, b: Byte)
    ensures IsNaR(Maximum(value, a, b)) <==> IsNaR(a) || IsNaR(b)
    ensures IsNaR(Minimum(value, a, b)) <==> IsNaR(a) || IsNaR(b)
    ensures !IsNaR(a) && !IsNaR(b) ==>
      Maximum(value, a, b) in {a, b} && value(Maximum(value, a, b)) >= value(a) && value(Maximum(value, a, b)) >= value(b)
    ensures !IsNaR(a) && !IsNaR(b) ==>
      Minimum(value, a, b) in {a, b} && value(Minimum(value, a, b)) <= value(a) && value(Minimum(value, a, b)) <= value(b)
  {
  }

  /** fmax and fmin return NaR only when both are NaR; otherwise the larger or smaller real. */
  lemma {:induction false} FmaxFminNaN(value: Byte -> real, a: Byte, b: Byte)
    ensures IsNaR(Fmax(value, a, b)) <==> IsNaR(a) && IsNaR(b)
    ensures IsNaR(Fmin(value, a, b)) <==> IsNaR(a) && IsNaR(b)
    ensures IsNaR(a) && !IsNaR(b) ==> Fmax(value, a, b) == b && Fmin(value, a, b) == b
    ensures !IsNaR(a) && IsNaR(b) ==> Fmax(value, a, b) == a && Fmin(value, a, b) == a
    ensures !IsNaR(a) && !IsNaR(b) ==>
      Fmax(value, a, b) == Maximum(value, a, b) && Fmin(value, a, b) == Minimum(value, a, b)
  {
  }
}
