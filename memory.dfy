/**
 * Byte-addressed memory as the buffer hooks and loops see it through `char *`
 * pointers: one array of bytes, pointers as offsets into it, and strided
 * operands that name element k at `ptr + k * step`.
 */
module Memory {
  import opened Posit8

  /** The byte ranges `[p, p + s)` and `[q, q + t)` do not overlap. */
  predicate Disjoint(p: int, s: nat, q: int, t: nat)
  {
    p + s <= q || q + t <= p
  }

  /** `[p, p + s)` lies inside a memory of `len` bytes. */
  predicate InRange(len: nat, p: int, s: nat)
  {
    0 <= p && p + s <= len
  }

  /** The `size`-byte value stored at `p`: what `*reinterpret_cast<const T *>(p)` reads. */
  function Load<T>(m: seq<T>, p: int, size: nat): (v: seq<T>)
    requires InRange(|m|, p, size)
    ensures |v| == size
    ensures forall i {:trigger v[i]} :: 0 <= i < size ==> v[i] == m[p + i]
  {
    seq(size, i requires 0 <= i < size => m[p + i])
  }

  /** The memory after the bytes of `v` are stored from `p` on; every other byte is kept. */
  function Store<T>(m: seq<T>, p: int, v: seq<T>): (r: seq<T>)
    requires InRange(|m|, p, |v|)
    ensures |r| == |m|
    ensures forall i {:trigger r[i]} :: 0 <= i < |m| ==> r[i] == if p <= i < p + |v| then v[i - p] else m[i]
  {
    seq(|m|, i requires 0 <= i < |m| => if p <= i < p + |v| then v[i - p] else m[i])
  }

  lemma {:induction false} LoadStoreSame<T>(m: seq<T>, p: int, v: seq<T>)
    requires InRange(|m|, p, |v|)
    ensures Load(Store(m, p, v), p, |v|) == v
  {
  }

  lemma {:induction false} LoadStoreOther<T>(m: seq<T>, p: int, v: seq<T>, q: int, s: nat)
    requires InRange(|m|, p, |v|) && InRange(|m|, q, s)
    requires Disjoint(p, |v|, q, s)
    ensures Load(Store(m, p, v), q, s) == Load(m, q, s)
  {
  }

  /** A second store over the same bytes hides the first. */
  lemma {:induction false} StoreTwice<T>(m: seq<T>, p: int, v: seq<T>, w: seq<T>)
    requires InRange(|m|, p, |v|) && |w| == |v|
    ensures Store(Store(m, p, v), p, w) == Store(m, p, w)
  {
  }

  /** Two stores side by side are one store of the joined bytes. */
  lemma {:induction false} StoreAdjacent<T>(m: seq<T>, p: int, u: seq<T>, w: seq<T>)
    requires InRange(|m|, p, |u| + |w|)
    ensures Store(Store(m, p, u), p + |u|, w) == Store(m, p, u + w)
  {
    var l, r := Store(Store(m, p, u), p + |u|, w), Store(m, p, u + w);
    forall i | 0 <= i < |m|
      ensures l[i] == r[i]
    {
      if p + |u| <= i < p + |u| + |w| {
        assert (u + w)[i - p] == w[i - p - |u|];
      } else if p <= i < p + |u| {
        assert (u + w)[i - p] == u[i - p];
      }
    }
  }

  /** A load splits at any point into the two loads on either side. */
  lemma {:induction false} LoadSplit<T>(m: seq<T>, p: int, s: nat, t: nat)
    requires InRange(|m|, p, s + t)
    ensures Load(m, p, s + t) == Load(m, p, s) + Load(m, p + s, t)
  {
  }

  /** A strided operand of a loop: base pointer, byte stride and element size. */
  datatype Operand = Operand(ptr: int, step: int, size: nat)

  /** The address of element k: the pointer after k strides, `ptr + k * step`. */
  function Addr(op: Operand, k: nat): int
  {
    op.ptr + k * op.step
  }

  /** Advancing a pointer by the stride moves it to the next element. */
  lemma {:induction false} NextAddr(op: Operand, k: nat)
    ensures Addr(op, k) + op.step == Addr(op, k + 1)
  {
    calc {
      Addr(op, k + 1);
      op.ptr + (k + 1) * op.step;
      op.ptr + k * op.step + op.step;
    }
  }

  /** Every one of the first n elements of the operand lies inside a memory of `len` bytes. */
  predicate Fits(op: Operand, n: nat, len: nat)
  {
    forall k :: 0 <= k < n ==> InRange(len, Addr(op, k), op.size)
  }

  /** Byte p belongs to element k of the operand. */
  predicate InElement(p: int, op: Operand, k: nat)
  {
    Addr(op, k) <= p < Addr(op, k) + op.size
  }

  /** A typed store `*reinterpret_cast<T *>(p) = x`, writing the bytes of x. */
  method StoreBlock(mem: array<Byte>, p: int, v: seq<Byte>)
    requires InRange(mem.Length, p, |v|)
    modifies mem
    ensures mem[..] == Store(old(mem[..]), p, v)
  {
    forall i | 0 <= i < |v| {
      mem[p + i] := v[i];
    }
  }

  /** `memcpy(dst, src, n)`, whose regions must not overlap. */
  method Memcpy(mem: array<Byte>, dst: int, src: int, n: nat)
    requires InRange(mem.Length, dst, n) && InRange(mem.Length, src, n)
    requires Disjoint(dst, n, src, n)
    modifies mem
    ensures mem[..] == Store(old(mem[..]), dst, Load(old(mem[..]), src, n))
  {
    var v := mem[src..src + n];
    StoreBlock(mem, dst, v);
  }
}
