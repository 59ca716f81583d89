/**
 * The vectorized loop bodies registered with the host's ufuncs:
 * `UnaryUFunc::Call`, `BinaryUFunc::Call` / `BinaryUFunc2::Call` and
 * `DivmodUFunc::Call`. Each walks its inputs and outputs by independent byte
 * strides over one byte-addressed memory, so aliasing between operands is
 * modelled as it happens. The functors (the posit and float arithmetic) are
 * parameters.
 */
module UFuncLoops {
  import opened Wrappers
  import opened Posit8
  import opened Memory

  /** The five exceptions of IEEE 754-2019 clause 7 (with underflow and inexact as flags). */
  datatype FpException = Invalid | DivideByZero | Overflow | Underflow | Inexact

  /** The thread's floating-point environment: its accrued exception flags. */
  class FpEnv {
    var flags: set<FpException>

    constructor (flags: set<FpException>)
      ensures this.flags == flags
    {
      this.flags := flags;
    }
  }

  /** A binary functor: the value it computes from two loaded elements and the flags that computing raises. */
  datatype BinaryFunctor = BinaryFunctor(apply: (seq<Byte>, seq<Byte>) -> seq<Byte>, raises: (seq<Byte>, seq<Byte>) -> set<FpException>)

  /** The functor returns a value of the output element's size for inputs of the input elements' sizes. */
  ghost predicate BinaryTyped(f: BinaryFunctor, a: Operand, b: Operand, o: Operand)
  {
    forall x: seq<Byte>, y: seq<Byte> :: |x| == a.size && |y| == b.size ==> |f.apply(x, y)| == o.size
  }

  ghost predicate UnaryTyped(f: seq<Byte> -> seq<Byte>, a: Operand, o: Operand)
  {
    forall x: seq<Byte> :: |x| == a.size ==> |f(x)| == o.size
  }

  // ---------------------------------------------------------------- binary

  /** The memory after the first k iterations of the binary loop, each reading the memory as the previous one left it. */
  ghost function BinaryState(m: seq<Byte>, f: BinaryFunctor, a: Operand, b: Operand, o: Operand, k: nat): (r: seq<Byte>)
    requires Fits(a, k, |m|) && Fits(b, k, |m|) && Fits(o, k, |m|) && BinaryTyped(f, a, b, o)
    ensures |r| == |m|
  {
    if k == 0 then m
    else
      var s := BinaryState(m, f, a, b, o, k - 1);
      var v := f.apply(Load(s, Addr(a, k - 1), a.size), Load(s, Addr(b, k - 1), b.size));
      Store(s, Addr(o, k - 1), v)
  }

  /** Iteration k stores the functor's value on the inputs as the first k iterations left them. */
  lemma {:induction false} BinaryStateStep(m: seq<Byte>, f: BinaryFunctor, a: Operand, b: Operand, o: Operand, k: nat, s: seq<Byte>, x: seq<Byte>, y: seq<Byte>)
    requires Fits(a, k + 1, |m|) && Fits(b, k + 1, |m|) && Fits(o, k + 1, |m|) && BinaryTyped(f, a, b, o)
    requires s == BinaryState(m, f, a, b, o, k)
    requires x == Load(s, Addr(a, k), a.size) && y == Load(s, Addr(b, k), b.size)
    ensures BinaryState(m, f, a, b, o, k + 1) == Store(s, Addr(o, k), f.apply(x, y))
    ensures BinaryFlags(m, f, a, b, o, k + 1) == BinaryFlags(m, f, a, b, o, k) + f.raises(x, y)
  {
  }

  /** The flags raised by the first k iterations. */
  ghost function BinaryFlags(m: seq<Byte>, f: BinaryFunctor, a: Operand, b: Operand, o: Operand, k: nat): set<FpException>
    requires Fits(a, k, |m|) && Fits(b, k, |m|) && Fits(o, k, |m|) && BinaryTyped(f, a, b, o)
  {
    if k == 0 then {}
    else
      var s := BinaryState(m, f, a, b, o, k - 1);
      BinaryFlags(m, f, a, b, o, k - 1) + f.raises(Load(s, Addr(a, k - 1), a.size), Load(s, Addr(b, k - 1), b.size))
  }

  /**
   * No iteration writes where another iteration reads or writes. An output
   * element may coincide with the inputs of its own iteration, which covers
   * in-place calls such as `a += b`.
   */
  ghost predicate BinaryNoInterference(a: Operand, b: Operand, o: Operand, n: nat)
  {
    forall j, k {:trigger BinaryApart(a, b, o, j, k)} :: 0 <= j < n && 0 <= k < n && j != k ==> BinaryApart(a, b, o, j, k)
  }

  /** The output of iteration j overlaps neither input nor the output of iteration k. */
  predicate BinaryApart(a: Operand, b: Operand, o: Operand, j: nat, k: nat)
  {
    Disjoint(Addr(o, j), o.size, Addr(a, k), a.size) &&
    Disjoint(Addr(o, j), o.size, Addr(b, k), b.size) &&
    Disjoint(Addr(o, j), o.size, Addr(o, k), o.size)
  }

  /** Iterations before j never write over the inputs iteration j reads. */
  lemma {:induction false} BinaryInputsKept(m: seq<Byte>, f: BinaryFunctor, a: Operand, b: Operand, o: Operand, n: nat, k: nat, j: nat)
    requires k <= j < n
    requires Fits(a, n, |m|) && Fits(b, n, |m|) && Fits(o, n, |m|) && BinaryTyped(f, a, b, o)
    requires BinaryNoInterference(a, b, o, n)
    ensures Load(BinaryState(m, f, a, b, o, k), Addr(a, j), a.size) == Load(m, Addr(a, j), a.size)
    ensures Load(BinaryState(m, f, a, b, o, k), Addr(b, j), b.size) == Load(m, Addr(b, j), b.size)
  {
    if k > 0 {
      var i := k - 1;
      BinaryInputsKept(m, f, a, b, o, n, i, j);
      var s := BinaryState(m, f, a, b, o, i);
      var v := f.apply(Load(s, Addr(a, i), a.size), Load(s, Addr(b, i), b.size));
      assert BinaryState(m, f, a, b, o, k) == Store(s, Addr(o, i), v);
      assert BinaryApart(a, b, o, i, j);
      LoadStoreOther(s, Addr(o, i), v, Addr(a, j), a.size);
      LoadStoreOther(s, Addr(o, i), v, Addr(b, j), b.size);
    }
  }

  /** After k iterations, output element j < k holds the functor applied to the original inputs of iteration j. */
  lemma {:induction false} BinaryOutput(m: seq<Byte>, f: BinaryFunctor, a: Operand, b: Operand, o: Operand, n: nat, k: nat, j: nat)
    requires j < k <= n
    requires Fits(a, n, |m|) && Fits(b, n, |m|) && Fits(o, n, |m|) && BinaryTyped(f, a, b, o)
    requires BinaryNoInterference(a, b, o, n)
    ensures Load(BinaryState(m, f, a, b, o, k), Addr(o, j), o.size) ==
      f.apply(Load(m, Addr(a, j), a.size), Load(m, Addr(b, j), b.size))
  {
    var i := k - 1;
    var s := BinaryState(m, f, a, b, o, i);
    var v := f.apply(Load(s, Addr(a, i), a.size), Load(s, Addr(b, i), b.size));
    assert BinaryState(m, f, a, b, o, k) == Store(s, Addr(o, i), v);
    if j == i {
      BinaryInputsKept(m, f, a, b, o, n, i, i);
      assert v == f.apply(Load(m, Addr(a, i), a.size), Load(m, Addr(b, i), b.size));
      LoadStoreSame(s, Addr(o, i), v);
    } else {
      BinaryOutput(m, f, a, b, o, n, i, j);
      assert BinaryApart(a, b, o, i, j);
      LoadStoreOther(s, Addr(o, i), v, Addr(o, j), o.size);
    }
  }

  /** A byte outside the first k output elements still holds its original value. */
  lemma {:induction false} BinaryOthersKept(m: seq<Byte>, f: BinaryFunctor, a: Operand, b: Operand, o: Operand, k: nat, p: int)
    requires Fits(a, k, |m|) && Fits(b, k, |m|) && Fits(o, k, |m|) && BinaryTyped(f, a, b, o)
    requires 0 <= p < |m| && forall j :: 0 <= j < k ==> !InElement(p, o, j)
    ensures BinaryState(m, f, a, b, o, k)[p] == m[p]
  {
    if k > 0 {
      assert !InElement(p, o, k - 1);
      BinaryOthersKept(m, f, a, b, o, k - 1, p);
    }
  }

  /** The flags iteration j raises on the original memory. */
  ghost function RaisedAt(m: seq<Byte>, f: BinaryFunctor, a: Operand, b: Operand, j: nat): set<FpException>
    requires InRange(|m|, Addr(a, j), a.size) && InRange(|m|, Addr(b, j), b.size)
  {
    f.raises(Load(m, Addr(a, j), a.size), Load(m, Addr(b, j), b.size))
  }

  /** Iteration k - 1 adds the flags it raises on the original inputs. */
  lemma {:induction false} BinaryFlagsStep(m: seq<Byte>, f: BinaryFunctor, a: Operand, b: Operand, o: Operand, n: nat, k: nat)
    requires 0 < k <= n
    requires Fits(a, n, |m|) && Fits(b, n, |m|) && Fits(o, n, |m|) && BinaryTyped(f, a, b, o)
    requires BinaryNoInterference(a, b, o, n)
    ensures BinaryFlags(m, f, a, b, o, k) == BinaryFlags(m, f, a, b, o, k - 1) + RaisedAt(m, f, a, b, k - 1)
  {
    BinaryInputsKept(m, f, a, b, o, n, k - 1, k - 1);
  }

  /** The flags the first k iterations raise when each reads the original memory. */
  ghost function RaisedUpTo(m: seq<Byte>, f: BinaryFunctor, a: Operand, b: Operand, k: nat): set<FpException>
    requires Fits(a, k, |m|) && Fits(b, k, |m|)
  {
    if k == 0 then {} else RaisedUpTo(m, f, a, b, k - 1) + RaisedAt(m, f, a, b, k - 1)
  }

  /** A flag is in `RaisedUpTo` exactly when some iteration raises it. */
  lemma {:induction false} RaisedUpToMember(m: seq<Byte>, f: BinaryFunctor, a: Operand, b: Operand, k: nat, e: FpException)
    requires Fits(a, k, |m|) && Fits(b, k, |m|)
    ensures e in RaisedUpTo(m, f, a, b, k) <==> exists j :: 0 <= j < k && e in RaisedAt(m, f, a, b, j)
  {
    if k > 0 {
      RaisedUpToMember(m, f, a, b, k - 1, e);
    }
  }

  /** Without interference, the loop's flags are those its iterations raise on the original inputs. */
  lemma {:induction false} BinaryFlagsOriginal(m: seq<Byte>, f: BinaryFunctor, a: Operand, b: Operand, o: Operand, n: nat, k: nat)
    requires k <= n
    requires Fits(a, n, |m|) && Fits(b, n, |m|) && Fits(o, n, |m|) && BinaryTyped(f, a, b, o)
    requires BinaryNoInterference(a, b, o, n)
    ensures BinaryFlags(m, f, a, b, o, k) == RaisedUpTo(m, f, a, b, k)
  {
    if k > 0 {
      BinaryFlagsOriginal(m, f, a, b, o, n, k - 1);
      BinaryFlagsStep(m, f, a, b, o, n, k);
    }
  }

  /**
   * Without interference between iterations, the binary loop writes
   * `f(input 0 at k, input 1 at k)` to output element k for each k < n,
   * leaves every other byte as it was, and accrues exactly the flags that
   * some iteration raises.
   */
  lemma {:induction false} BinaryWrites(m: seq<Byte>, f: BinaryFunctor, a: Operand, b: Operand, o: Operand, n: nat)
    requires Fits(a, n, |m|) && Fits(b, n, |m|) && Fits(o, n, |m|) && BinaryTyped(f, a, b, o)
    requires BinaryNoInterference(a, b, o, n)
    ensures forall k :: 0 <= k < n ==>
      Load(BinaryState(m, f, a, b, o, n), Addr(o, k), o.size) ==
      f.apply(Load(m, Addr(a, k), a.size), Load(m, Addr(b, k), b.size))
    ensures forall p :: 0 <= p < |m| && (forall k :: 0 <= k < n ==> !InElement(p, o, k)) ==>
      BinaryState(m, f, a, b, o, n)[p] == m[p]
    ensures forall e :: e in BinaryFlags(m, f, a, b, o, n) <==> exists k :: 0 <= k < n && e in RaisedAt(m, f, a, b, k)
  {
    forall k | 0 <= k < n
      ensures Load(BinaryState(m, f, a, b, o, n), Addr(o, k), o.size) ==
        f.apply(Load(m, Addr(a, k), a.size), Load(m, Addr(b, k), b.size))
    {
      BinaryOutput(m, f, a, b, o, n, n, k);
    }
    forall p | 0 <= p < |m| && (forall k :: 0 <= k < n ==> !InElement(p, o, k))
      ensures BinaryState(m, f, a, b, o, n)[p] == m[p]
    {
      BinaryOthersKept(m, f, a, b, o, n, p);
    }
    forall e
      ensures e in BinaryFlags(m, f, a, b, o, n) <==> exists k :: 0 <= k < n && e in RaisedAt(m, f, a, b, k)
    {
      BinaryFlagsOriginal(m, f, a, b, o, n, n);
      RaisedUpToMember(m, f, a, b, n, e);
    }
  }

  // ------------------------------------------------------------ error report

  /** The order in which the binary loops test the flags; inexact is never tested. */
  function Priority(e: FpException): nat
  {
    match e
    case Invalid => 0
    case DivideByZero => 1
    case Overflow => 2
    case Underflow => 3
    case Inexact => 4
  }

  /** The flags the binary loops test after the loop. */
  predicate Tested(e: FpException)
  {
    e != Inexact
  }

  /**
   * The exception the binary loops report once the loop has accrued `flags`:
   * none when no tested flag is set, otherwise the set flag that comes first in
   * the order invalid, divide-by-zero, overflow, underflow.
   */
  function SignaledError(flags: set<FpException>): (r: Option<FpException>)
    ensures r.None? <==> forall e :: e in flags ==> !Tested(e)
    ensures r.Some? ==> r.value in flags && Tested(r.value)
    ensures r.Some? ==> forall e :: e in flags && Tested(e) ==> Priority(r.value) <= Priority(e)
  {
    if Invalid in flags then Some(Invalid)
    else if DivideByZero in flags then Some(DivideByZero)
    else if Overflow in flags then Some(Overflow)
    else if Underflow in flags then Some(Underflow)
    else None
  }

  /** The message of the `ArithmeticError` set for a reported exception. */
  function Message(e: FpException): string
  {
    match e
    case Invalid => "posit8_2 invalid"
    case DivideByZero => "posit8_2 divide by zero"
    case Overflow => "posit8_2 overflow"
    case Underflow => "posit8_2 underflow"
    case Inexact => ""
  }

  /** The Python error, if any, a binary loop leaves set after accruing `flags`. */
  function ReportedError(flags: set<FpException>): (r: Option<string>)
  {
    match SignaledError(flags)
    case None => None
    case Some(e) => Some(Message(e))
  }

  /**
   * `BinaryUFunc::Call` and `BinaryUFunc2::Call` (the two differ only in the C
   * type of the second input). The environment is held and cleared, the loop
   * runs with each iteration loading both inputs, storing the functor's result
   * and raising its flags, the first tested flag by priority becomes the
   * reported error, and the saved environment is restored.
   */
  method BinaryCall(mem: array<Byte>, a: Operand, b: Operand, o: Operand, n: nat, f: BinaryFunctor, env: FpEnv)
    returns (err: Option<string>)
    requires Fits(a, n, mem.Length) && Fits(b, n, mem.Length) && Fits(o, n, mem.Length) && BinaryTyped(f, a, b, o)
    modifies mem, env
    ensures mem[..] == BinaryState(old(mem[..]), f, a, b, o, n)
    ensures err == ReportedError(BinaryFlags(old(mem[..]), f, a, b, o, n))
    ensures env.flags == old(env.flags)
  {
    ghost var m := mem[..];
    var saved := env.flags;
    env.flags := {};
    var i0, i1, out := a.ptr, b.ptr, o.ptr;
    var k := 0;
    while k < n
      invariant 0 <= k <= n
      invariant i0 == Addr(a, k) && i1 == Addr(b, k) && out == Addr(o, k)
      invariant mem[..] == BinaryState(m, f, a, b, o, k)
      invariant env.flags == BinaryFlags(m, f, a, b, o, k)
    {
      assert InRange(mem.Length, i0, a.size) && InRange(mem.Length, i1, b.size) && InRange(mem.Length, out, o.size);
      ghost var s := mem[..];
      var x := Load(mem[..], i0, a.size);
      var y := Load(mem[..], i1, b.size);
      BinaryStateStep(m, f, a, b, o, k, s, x, y);
      env.flags := env.flags + f.raises(x, y);
      StoreBlock(mem, out, f.apply(x, y));
      NextAddr(a, k);
      NextAddr(b, k);
      NextAddr(o, k);
      i0, i1, out := i0 + a.step, i1 + b.step, out + o.step;
      k := k + 1;
    }
    var raised := env.flags;
    err := ReportedError(raised);
    env.flags := saved;
  }

  // ----------------------------------------------------------------- unary

  /**
   * A unary functor seen as a binary one that ignores its second input and
   * raises no flag: `UnaryUFunc::Call` is the binary loop reading its only
   * input twice, without the exception handling around it.
   */
  function Lift(g: seq<Byte> -> seq<Byte>): (f: BinaryFunctor)
    ensures forall x, y :: f.apply(x, y) == g(x) && f.raises(x, y) == {}
  {
    BinaryFunctor((x, y) => g(x), (x, y) => {})
  }

  lemma {:induction false} LiftTyped(g: seq<Byte> -> seq<Byte>, a: Operand, o: Operand)
    requires UnaryTyped(g, a, o)
    ensures BinaryTyped(Lift(g), a, a, o)
  {
  }

  /** The memory after the first k iterations of the unary loop. */
  ghost function UnaryState(m: seq<Byte>, g: seq<Byte> -> seq<Byte>, a: Operand, o: Operand, k: nat): (r: seq<Byte>)
    requires Fits(a, k, |m|) && Fits(o, k, |m|) && UnaryTyped(g, a, o)
  {
    LiftTyped(g, a, o);
    BinaryState(m, Lift(g), a, a, o, k)
  }

  /**
   * `UnaryUFunc::Call`: for each k < n, load input element k and store the
   * functor's value at output element k, advancing both pointers by their strides.
   */
  method UnaryCall(mem: array<Byte>, a: Operand, o: Operand, n: nat, g: seq<Byte> -> seq<Byte>)
    requires Fits(a, n, mem.Length) && Fits(o, n, mem.Length) && UnaryTyped(g, a, o)
    modifies mem
    ensures mem[..] == UnaryState(old(mem[..]), g, a, o, n)
  {
    ghost var m := mem[..];
    LiftTyped(g, a, o);
    var i0, out := a.ptr, o.ptr;
    var k := 0;
    while k < n
      invariant 0 <= k <= n
      invariant i0 == Addr(a, k) && out == Addr(o, k)
      invariant mem[..] == BinaryState(m, Lift(g), a, a, o, k)
    {
      assert InRange(mem.Length, i0, a.size) && InRange(mem.Length, out, o.size);
      ghost var s := mem[..];
      var x := Load(mem[..], i0, a.size);
      BinaryStateStep(m, Lift(g), a, a, o, k, s, x, x);
      StoreBlock(mem, out, g(x));
      NextAddr(a, k);
      NextAddr(o, k);
      i0, out := i0 + a.step, out + o.step;
      k := k + 1;
    }
  }

  /**
   * Without interference between iterations, the unary loop writes `g(input at
   * k)` to output element k for each k < n and leaves every other byte as it was.
   */
  lemma {:induction false} UnaryWrites(m: seq<Byte>, g: seq<Byte> -> seq<Byte>, a: Operand, o: Operand, n: nat)
    requires Fits(a, n, |m|) && Fits(o, n, |m|) && UnaryTyped(g, a, o)
    requires BinaryNoInterference(a, a, o, n)
    ensures forall k :: 0 <= k < n ==> Load(UnaryState(m, g, a, o, n), Addr(o, k), o.size) == g(Load(m, Addr(a, k), a.size))
    ensures forall p :: 0 <= p < |m| && (forall k :: 0 <= k < n ==> !InElement(p, o, k)) ==>
      UnaryState(m, g, a, o, n)[p] == m[p]
  {
    LiftTyped(g, a, o);
    BinaryWrites(m, Lift(g), a, a, o, n);
  }

  // ---------------------------------------------------------------- divmod

  /** The four operands of `DivmodUFunc::Call` all hold one-byte posits. */
  predicate PositOperands(a: Operand, b: Operand, q: Operand, r: Operand)
  {
    a.size == 1 && b.size == 1 && q.size == 1 && r.size == 1
  }

  /** Every operand of the divmod loop fits for n iterations. */
  predicate DivmodFits(a: Operand, b: Operand, q: Operand, r: Operand, n: nat, len: nat)
  {
    PositOperands(a, b, q, r) && Fits(a, n, len) && Fits(b, n, len) && Fits(q, n, len) && Fits(r, n, len)
  }

  /**
   * The memory after the first k iterations of the divmod loop: iteration k
   * reads both inputs, then stores the floored quotient and then the remainder.
   */
  ghost function DivmodState(m: seq<Byte>, f: (Byte, Byte) -> (Byte, Byte), a: Operand, b: Operand, q: Operand, r: Operand, k: nat): (t: seq<Byte>)
    requires DivmodFits(a, b, q, r, k, |m|)
    ensures |t| == |m|
  {
    if k == 0 then m
    else
      var s := DivmodState(m, f, a, b, q, r, k - 1);
      var res := f(s[Addr(a, k - 1)], s[Addr(b, k - 1)]);
      s[Addr(q, k - 1) := res.0][Addr(r, k - 1) := res.1]
  }

  /**
   * No iteration writes where another reads or writes, and the quotient and
   * remainder of one iteration go to different bytes.
   */
  ghost predicate DivmodNoInterference(a: Operand, b: Operand, q: Operand, r: Operand, n: nat)
  {
    (forall k {:trigger OutputsApart(q, r, k)} :: 0 <= k < n ==> OutputsApart(q, r, k)) &&
    forall j, k {:trigger DivmodApart(a, b, q, r, j, k)} :: 0 <= j < n && 0 <= k < n && j != k ==> DivmodApart(a, b, q, r, j, k)
  }

  /** The quotient and the remainder of iteration k go to different bytes. */
  predicate OutputsApart(q: Operand, r: Operand, k: nat)
  {
    Addr(q, k) != Addr(r, k)
  }

  /** The outputs of iteration j are no input and no output of iteration k. */
  predicate DivmodApart(a: Operand, b: Operand, q: Operand, r: Operand, j: nat, k: nat)
  {
    Addr(q, j) != Addr(a, k) && Addr(q, j) != Addr(b, k) && Addr(q, j) != Addr(q, k) && Addr(q, j) != Addr(r, k) &&
    Addr(r, j) != Addr(a, k) && Addr(r, j) != Addr(b, k) && Addr(r, j) != Addr(r, k)
  }

  /** Byte p is no output of iterations i up to k of the divmod loop. */
  predicate DivmodUntouched(p: int, q: Operand, r: Operand, i: nat, k: nat)
  {
    forall t :: i <= t < k ==> p != Addr(q, t) && p != Addr(r, t)
  }

  /** A byte that iterations i up to k do not write keeps its value from state i to state k. */
  lemma {:induction false} DivmodKept(m: seq<Byte>, f: (Byte, Byte) -> (Byte, Byte), a: Operand, b: Operand, q: Operand, r: Operand, n: nat, i: nat, k: nat, p: int)
    requires i <= k <= n && DivmodFits(a, b, q, r, n, |m|)
    requires 0 <= p < |m| && DivmodUntouched(p, q, r, i, k)
    ensures DivmodState(m, f, a, b, q, r, k)[p] == DivmodState(m, f, a, b, q, r, i)[p]
  {
    if i < k {
      assert p != Addr(q, k - 1) && p != Addr(r, k - 1);
      DivmodKept(m, f, a, b, q, r, n, i, k - 1, p);
    }
  }

  /** No earlier iteration writes over the inputs of iteration j. */
  lemma {:induction false} DivmodInputsUntouched(a: Operand, b: Operand, q: Operand, r: Operand, n: nat, j: nat)
    requires j < n && DivmodNoInterference(a, b, q, r, n)
    ensures DivmodUntouched(Addr(a, j), q, r, 0, j) && DivmodUntouched(Addr(b, j), q, r, 0, j)
  {
    forall t | 0 <= t < j
      ensures Addr(a, j) != Addr(q, t) && Addr(a, j) != Addr(r, t)
      ensures Addr(b, j) != Addr(q, t) && Addr(b, j) != Addr(r, t)
    {
      assert DivmodApart(a, b, q, r, t, j);
    }
  }

  /** Iteration j reads its inputs as they were before the loop. */
  lemma {:induction false} DivmodInputsKept(m: seq<Byte>, f: (Byte, Byte) -> (Byte, Byte), a: Operand, b: Operand, q: Operand, r: Operand, n: nat, j: nat)
    requires j < n
    requires DivmodFits(a, b, q, r, n, |m|) && DivmodNoInterference(a, b, q, r, n)
    ensures DivmodState(m, f, a, b, q, r, j)[Addr(a, j)] == m[Addr(a, j)]
    ensures DivmodState(m, f, a, b, q, r, j)[Addr(b, j)] == m[Addr(b, j)]
  {
    DivmodInputsUntouched(a, b, q, r, n, j);
    DivmodKept(m, f, a, b, q, r, n, 0, j, Addr(a, j));
    DivmodKept(m, f, a, b, q, r, n, 0, j, Addr(b, j));
  }

  /** Iteration k stores its quotient and remainder of the inputs as the first k iterations left them. */
  lemma {:induction false} DivmodStateStep(m: seq<Byte>, f: (Byte, Byte) -> (Byte, Byte), a: Operand, b: Operand, q: Operand, r: Operand, n: nat, k: nat, s: seq<Byte>)
    requires 0 < k <= n && DivmodFits(a, b, q, r, n, |m|)
    requires s == DivmodState(m, f, a, b, q, r, k - 1)
    ensures DivmodState(m, f, a, b, q, r, k) ==
      s[Addr(q, k - 1) := f(s[Addr(a, k - 1)], s[Addr(b, k - 1)]).0][Addr(r, k - 1) := f(s[Addr(a, k - 1)], s[Addr(b, k - 1)]).1]
  {
  }

  /** Right after iteration j, its outputs hold its quotient and remainder of the original inputs. */
  lemma {:induction false} DivmodOutputNew(m: seq<Byte>, f: (Byte, Byte) -> (Byte, Byte), a: Operand, b: Operand, q: Operand, r: Operand, n: nat, j: nat)
    requires j < n
    requires DivmodFits(a, b, q, r, n, |m|) && DivmodNoInterference(a, b, q, r, n)
    ensures DivmodState(m, f, a, b, q, r, j + 1)[Addr(q, j)] == f(m[Addr(a, j)], m[Addr(b, j)]).0
    ensures DivmodState(m, f, a, b, q, r, j + 1)[Addr(r, j)] == f(m[Addr(a, j)], m[Addr(b, j)]).1
  {
    var s := DivmodState(m, f, a, b, q, r, j);
    DivmodInputsKept(m, f, a, b, q, r, n, j);
    var res := f(m[Addr(a, j)], m[Addr(b, j)]);
    DivmodStateStep(m, f, a, b, q, r, n, j + 1, s);
    assert DivmodState(m, f, a, b, q, r, j + 1) == s[Addr(q, j) := res.0][Addr(r, j) := res.1];
    assert OutputsApart(q, r, j);
  }

  /** No later iteration writes over the outputs of iteration j. */
  lemma {:induction false} DivmodOutputsUntouched(a: Operand, b: Operand, q: Operand, r: Operand, n: nat, j: nat)
    requires j < n && DivmodNoInterference(a, b, q, r, n)
    ensures DivmodUntouched(Addr(q, j), q, r, j + 1, n) && DivmodUntouched(Addr(r, j), q, r, j + 1, n)
  {
    forall t | j + 1 <= t < n
      ensures Addr(q, j) != Addr(q, t) && Addr(q, j) != Addr(r, t)
      ensures Addr(r, j) != Addr(q, t) && Addr(r, j) != Addr(r, t)
    {
      assert DivmodApart(a, b, q, r, j, t) && DivmodApart(a, b, q, r, t, j);
    }
  }

  /** After the loop, the quotient output of iteration j holds the quotient of its original inputs. */
  lemma {:induction false} DivmodQuotient(m: seq<Byte>, f: (Byte, Byte) -> (Byte, Byte), a: Operand, b: Operand, q: Operand, r: Operand, n: nat, j: nat)
    requires j < n
    requires DivmodFits(a, b, q, r, n, |m|) && DivmodNoInterference(a, b, q, r, n)
    ensures DivmodState(m, f, a, b, q, r, n)[Addr(q, j)] == f(m[Addr(a, j)], m[Addr(b, j)]).0
  {
    DivmodOutputNew(m, f, a, b, q, r, n, j);
    DivmodOutputsUntouched(a, b, q, r, n, j);
    DivmodKept(m, f, a, b, q, r, n, j + 1, n, Addr(q, j));
  }

  /** After the loop, the remainder output of iteration j holds the remainder of its original inputs. */
  lemma {:induction false} DivmodRemainder(m: seq<Byte>, f: (Byte, Byte) -> (Byte, Byte), a: Operand, b: Operand, q: Operand, r: Operand, n: nat, j: nat)
    requires j < n
    requires DivmodFits(a, b, q, r, n, |m|) && DivmodNoInterference(a, b, q, r, n)
    ensures DivmodState(m, f, a, b, q, r, n)[Addr(r, j)] == f(m[Addr(a, j)], m[Addr(b, j)]).1
  {
    DivmodOutputNew(m, f, a, b, q, r, n, j);
    DivmodOutputsUntouched(a, b, q, r, n, j);
    DivmodKept(m, f, a, b, q, r, n, j + 1, n, Addr(r, j));
  }

  /**
   * Without interference between iterations, the divmod loop writes the
   * quotient and the remainder of input elements k to output elements k for
   * each k < n and leaves every other byte as it was.
   */
  lemma {:induction false} DivmodWrites(m: seq<Byte>, f: (Byte, Byte) -> (Byte, Byte), a: Operand, b: Operand, q: Operand, r: Operand, n: nat)
    requires DivmodFits(a, b, q, r, n, |m|) && DivmodNoInterference(a, b, q, r, n)
    ensures forall k :: 0 <= k < n ==>
      DivmodState(m, f, a, b, q, r, n)[Addr(q, k)] == f(m[Addr(a, k)], m[Addr(b, k)]).0 &&
      DivmodState(m, f, a, b, q, r, n)[Addr(r, k)] == f(m[Addr(a, k)], m[Addr(b, k)]).1
    ensures forall p :: 0 <= p < |m| && DivmodUntouched(p, q, r, 0, n) ==>
      DivmodState(m, f, a, b, q, r, n)[p] == m[p]
  {
    forall k | 0 <= k < n
      ensures DivmodState(m, f, a, b, q, r, n)[Addr(q, k)] == f(m[Addr(a, k)], m[Addr(b, k)]).0
      ensures DivmodState(m, f, a, b, q, r, n)[Addr(r, k)] == f(m[Addr(a, k)], m[Addr(b, k)]).1
    {
      DivmodQuotient(m, f, a, b, q, r, n, k);
      DivmodRemainder(m, f, a, b, q, r, n, k);
    }
    forall p | 0 <= p < |m| && DivmodUntouched(p, q, r, 0, n)
      ensures DivmodState(m, f, a, b, q, r, n)[p] == m[p]
    {
      DivmodKept(m, f, a, b, q, r, n, 0, n, p);
    }
  }

  /**
   * `DivmodUFunc::Call`: for each k < n, read both posits, compute the floored
   * quotient and the remainder, and store them at the two outputs.
   */
  method DivmodCall(mem: array<Byte>, a: Operand, b: Operand, q: Operand, r: Operand, n: nat, f: (Byte, Byte) -> (Byte, Byte))
    requires DivmodFits(a, b, q, r, n, mem.Length)
    modifies mem
    ensures mem[..] == DivmodState(old(mem[..]), f, a, b, q, r, n)
  {
    ghost var m := mem[..];
    var i0, i1, o0, o1 := a.ptr, b.ptr, q.ptr, r.ptr;
    var k := 0;
    while k < n
      invariant 0 <= k <= n
      invariant i0 == Addr(a, k) && i1 == Addr(b, k) && o0 == Addr(q, k) && o1 == Addr(r, k)
      invariant mem[..] == DivmodState(m, f, a, b, q, r, k)
    {
      assert InRange(mem.Length, i0, 1) && InRange(mem.Length, i1, 1);
      assert InRange(mem.Length, o0, 1) && InRange(mem.Length, o1, 1);
      var x := mem[i0];
      var y := mem[i1];
      var res := f(x, y);
      mem[o0] := res.0;
      mem[o1] := res.1;
      NextAddr(a, k);
      NextAddr(b, k);
      NextAddr(q, k);
      NextAddr(r, k);
      i0, i1, o0, o1 := i0 + a.step, i1 + b.step, o0 + q.step, o1 + r.step;
      k := k + 1;
    }
  }
}
