/**
 * The array hooks of the posit8_2 descriptor that order elements:
 * `NPyPosit8_2_CompareFunc` (used by sorting) and `NPyPosit8_2_ArgMaxFunc` /
 * `NPyPosit8_2_ArgMinFunc`. The posit order `<` of the posit library and the
 * float conversion are parameters: `less` for the former, `value` for the
 * real number a non-NaR posit converts to (NaR converts to NaN, which no
 * float comparison holds for).
 */
module ArrFuncs {
  import opened Posit8

  // --------------------------------------------------------------- compare

  /**
   * An order that behaves like IEEE comparison on posits: NaR is unordered,
   * and the reals are strictly and totally ordered (a posit value has one
   * encoding, so distinct reals have distinct patterns).
   */
  ghost predicate IeeeOrder(less: (Byte, Byte) -> bool)
  {
    (forall a, b :: IsNaR(a) || IsNaR(b) ==> !less(a, b)) &&
    (forall a :: !less(a, a)) &&
    (forall a, b, c :: less(a, b) && less(b, c) ==> less(a, c)) &&
    (forall a, b :: !IsNaR(a) && !IsNaR(b) && a != b ==> less(a, b) || less(b, a))
  }

  /** The posit order on reals: the two's complement reading of the patterns. */
  predicate SignedLess(a: Byte, b: Byte)
  {
    !IsNaR(a) && !IsNaR(b) && Signed(a) < Signed(b)
  }

  /** The two's complement order of the patterns is such an order. */
  lemma {:induction false} SignedLessIsIeeeOrder()
    ensures IeeeOrder(SignedLess)
  {
    forall a: Byte, b: Byte, c: Byte | SignedLess(a, b) && SignedLess(b, c)
      ensures SignedLess(a, c)
    {
    }
    forall a: Byte, b: Byte | !IsNaR(a) && !IsNaR(b) && a != b
      ensures SignedLess(a, b) || SignedLess(b, a)
    {
      SignedInjective(a, b);
    }
  }

  /** Distinct patterns have distinct two's complement readings. */
  lemma {:induction false} SignedInjective(a: Byte, b: Byte)
    requires a != b
    ensures Signed(a) != Signed(b)
  {
    assert a as int != b as int;
  }

  /**
   * `NPyPosit8_2_CompareFunc` as written: -1 when b1 < b2, 1 when b1 > b2,
   * 1 when only b2 is NaN, then a second NaN test that repeats the one
   * before it, and 0 otherwise.
   */
  function Compare(less: (Byte, Byte) -> bool, b1: Byte, b2: Byte): (r: int)
    ensures r == -1 <==> less(b1, b2)
    ensures r == 1 <==> !less(b1, b2) && (less(b2, b1) || (!IsNaR(b1) && IsNaR(b2)))
    ensures r == 0 || r == 1 || r == -1
  {
    if less(b1, b2) then -1
    else if less(b2, b1) then 1
    else if !IsNaR(b1) && IsNaR(b2) then 1
    else if IsNaR(b2) && !IsNaR(b1) then -1
    else 0
  }

  /**
   * Under an IEEE-like order the hook orders reals by `less`, puts a real
   * above NaR when NaR comes second, and answers 0 for NaR against
   * anything when NaR comes first; -1 never comes from a NaN test.
   */
  lemma {:induction false} CompareCases(less: (Byte, Byte) -> bool, a: Byte, b: Byte)
    requires IeeeOrder(less)
    ensures !IsNaR(a) && !IsNaR(b) ==> (Compare(less, a, b) == -1 <==> less(a, b)) && (Compare(less, a, b) == 1 <==> less(b, a))
    ensures !IsNaR(a) && !IsNaR(b) ==> (Compare(less, a, b) == 0 <==> a == b)
    ensures !IsNaR(a) && IsNaR(b) ==> Compare(less, a, b) == 1
    ensures IsNaR(a) ==> Compare(less, a, b) == 0
  {
  }

  /**
   * The answers are not antisymmetric: a real compares above NaR, but NaR
   * compares equal to the real, so a sort may place NaR anywhere.
   */
  lemma {:induction false} CompareNotAntisymmetric(less: (Byte, Byte) -> bool)
    requires IeeeOrder(less)
    ensures Compare(less, One, NaR) == 1 && Compare(less, NaR, One) == 0
  {
    CompareCases(less, One, NaR);
    CompareCases(less, NaR, One);
  }

  /** A posit `<` that compares the raw two's complement patterns, NaR included: NaR lies below every real. */
  predicate RawLess(a: Byte, b: Byte)
  {
    Signed(a) < Signed(b)
  }

  /**
   * If the library's `<` were that order, the hook would be antisymmetric,
   * 0 exactly on equal patterns, and would sort NaR first; only its dead
   * branch would remain a defect.
   */
  lemma {:induction false} CompareRawOrder(a: Byte, b: Byte)
    ensures Compare(RawLess, a, b) == -Compare(RawLess, b, a)
    ensures Compare(RawLess, a, b) == 0 <==> a == b
    ensures !IsNaR(a) ==> Compare(RawLess, NaR, a) == -1 && Compare(RawLess, a, NaR) == 1
  {
    if a != b {
      SignedInjective(a, b);
    }
    if !IsNaR(a) {
      SignedInjective(a, NaR);
    }
  }

  /** The compare the NaN branches are evidently meant to give: reals first, NaNs sorted last. */
  function CompareNaNLast(less: (Byte, Byte) -> bool, b1: Byte, b2: Byte): (r: int)
    ensures r == 0 || r == 1 || r == -1
  {
    if less(b1, b2) then -1
    else if less(b2, b1) then 1
    else if !IsNaR(b1) && IsNaR(b2) then -1
    else if IsNaR(b1) && !IsNaR(b2) then 1
    else 0
  }

  /**
   * Under an IEEE-like order the corrected compare is a total order on the
   * patterns: antisymmetric, 0 exactly on equal patterns, transitive, with
   * NaR after every real, and equal to the hook on reals.
   */
  lemma {:induction false} CompareNaNLastOrder(less: (Byte, Byte) -> bool, a: Byte, b: Byte, c: Byte)
    requires IeeeOrder(less)
    ensures CompareNaNLast(less, a, b) == -CompareNaNLast(less, b, a)
    ensures CompareNaNLast(less, a, b) == 0 <==> a == b
    ensures CompareNaNLast(less, a, b) == -1 && CompareNaNLast(less, b, c) == -1 ==> CompareNaNLast(less, a, c) == -1
    ensures !IsNaR(a) ==> CompareNaNLast(less, a, NaR) == -1
    ensures !IsNaR(a) && !IsNaR(b) ==> CompareNaNLast(less, a, b) == Compare(less, a, b)
  {
  }

  // -------------------------------------------------------- argmax, argmin

  /** The running extremum of ArgMax / ArgMin: a float that starts at an infinity. */
  datatype Bound = NegInf | PosInf | Finite(r: real)

  /** `value(b) > bound` in float comparison; false for NaN. */
  predicate Above(value: Byte -> real, b: Byte, bound: Bound)
  {
    !IsNaR(b) && (bound.NegInf? || (bound.Finite? && value(b) > bound.r))
  }

  /** `value(b) < bound` in float comparison; false for NaN. */
  predicate Below(value: Byte -> real, b: Byte, bound: Bound)
  {
    !IsNaR(b) && (bound.PosInf? || (bound.Finite? && value(b) < bound.r))
  }

  /** Some element among the first k is a real. */
  predicate HasReal(data: seq<Byte>, k: nat)
    requires k <= |data|
  {
    exists i :: 0 <= i < k && !IsNaR(data[i])
  }

  /** Index m is the first maximum among the real elements of the first k. */
  predicate FirstMax(value: Byte -> real, data: seq<Byte>, k: nat, m: int)
    requires k <= |data|
  {
    0 <= m < k && !IsNaR(data[m]) &&
    (forall j :: 0 <= j < k && !IsNaR(data[j]) ==> value(data[j]) <= value(data[m])) &&
    (forall j :: 0 <= j < m && !IsNaR(data[j]) ==> value(data[j]) < value(data[m]))
  }

  /** Index m is the first minimum among the real elements of the first k. */
  predicate FirstMin(value: Byte -> real, data: seq<Byte>, k: nat, m: int)
    requires k <= |data|
  {
    0 <= m < k && !IsNaR(data[m]) &&
    (forall j :: 0 <= j < k && !IsNaR(data[j]) ==> value(data[j]) >= value(data[m])) &&
    (forall j :: 0 <= j < m && !IsNaR(data[j]) ==> value(data[j]) > value(data[m]))
  }

  /**
   * `NPyPosit8_2_ArgMaxFunc`: scan the first n elements, keeping the
   * greatest float seen so far (starting at minus infinity) and its index;
   * NaR elements never compare greater. `*max_ind` is left as the caller
   * set it when no element is a real; otherwise it is the first index of the
   * greatest real. The status is always 0.
   */
  method ArgMax(value: Byte -> real, data: array<Byte>, n: int, maxInd0: int) returns (maxInd: int, status: int)
    requires n <= data.Length
    ensures status == 0
    ensures n <= 0 || !HasReal(data[..], n) ==> maxInd == maxInd0
    ensures n > 0 && HasReal(data[..], n) ==> FirstMax(value, data[..], n, maxInd)
  {
    var maxVal := NegInf;
    maxInd := maxInd0;
    var i := 0;
    while i < n
      invariant 0 <= i <= if n < 0 then 0 else n
      invariant !HasReal(data[..], i) ==> maxVal == NegInf && maxInd == maxInd0
      invariant HasReal(data[..], i) ==> FirstMax(value, data[..], i, maxInd) && maxVal == Finite(value(data[maxInd]))
    {
      if Above(value, data[i], maxVal) {
        maxVal := Finite(value(data[i]));
        maxInd := i;
      }
      i := i + 1;
    }
    status := 0;
  }

  /**
   * `NPyPosit8_2_ArgMinFunc`: the same scan keeping the least float seen
   * so far, starting at plus infinity.
   */
  method ArgMin(value: Byte -> real, data: array<Byte>, n: int, minInd0: int) returns (minInd: int, status: int)
    requires n <= data.Length
    ensures status == 0
    ensures n <= 0 || !HasReal(data[..], n) ==> minInd == minInd0
    ensures n > 0 && HasReal(data[..], n) ==> FirstMin(value, data[..], n, minInd)
  {
    var minVal := PosInf;
    minInd := minInd0;
    var i := 0;
    while i < n
      invariant 0 <= i <= if n < 0 then 0 else n
      invariant !HasReal(data[..], i) ==> minVal == PosInf && minInd == minInd0
      invariant HasReal(data[..], i) ==> FirstMin(value, data[..], i, minInd) && minVal == Finite(value(data[minInd]))
    {
      if Below(value, data[i], minVal) {
        minVal := Finite(value(data[i]));
        minInd := i;
      }
      i := i + 1;
    }
    status := 0;
  }
}
