/**
 * The copy hooks of the array type: `ByteSwap16`, `NPyPosit8_2_CopySwapN` and
 * `NPyPosit8_2_CopySwap`. As written they move `sizeof(uint16_t)` = 2 bytes
 * per element, while the descriptor's `elsize` is `sizeof(posit8_2)`, taken
 * here to be one byte (the 8 bits of a posit<8,2>), and swap those two bytes
 * on request.
 * Both widths are modelled: the hooks as written, and the one-byte copy the
 * element size calls for.
 */
module CopySwap {
  import opened Wrappers
  import opened Posit8
  import opened Memory
  import opened UFuncLoops

  /** The bytes a hook copies per element as written: `sizeof(uint16_t)`. */
  const CopyWidth: nat := 2

  /**
   * The element size of the posit8_2 descriptor, `sizeof(posit8_2)`, taken
   * to be one byte: the 8 bits of a posit<8,2> with no padding.
   */
  const ElementSize: nat := 1

  /** The bytes of v in the opposite order. */
  function Reversed(v: seq<Byte>): (r: seq<Byte>)
    ensures |r| == |v|
    ensures forall i :: 0 <= i < |v| ==> r[i] == v[|v| - 1 - i]
  {
    seq(|v|, i requires 0 <= i < |v| => v[|v| - 1 - i])
  }

  /** Reversing twice gives the bytes back, so swapping twice undoes a swap. */
  lemma {:induction false} ReversedInvolution(v: seq<Byte>)
    ensures Reversed(Reversed(v)) == v
  {
  }

  /** What the hook makes of the copied bytes: reversed when `swap` is set, as they are otherwise. */
  function Oriented(swap: bool): seq<Byte> -> seq<Byte>
  {
    v => if swap then Reversed(v) else v
  }

  lemma {:induction false} OrientedTyped(swap: bool, a: Operand, o: Operand)
    requires a.size == o.size
    ensures UnaryTyped(Oriented(swap), a, o)
  {
  }

  /** The source and destination operands of a copy of elements `width` bytes wide. */
  function Source(src: int, sstride: int, width: nat): Operand { Operand(src, sstride, width) }
  function Destination(dst: int, dstride: int, width: nat): Operand { Operand(dst, dstride, width) }

  /** Every element copy of the first n stays inside memory; a copy cannot overlap its own source, as `memcpy` demands. */
  predicate CopyFits(len: nat, dst: int, dstride: int, src: int, sstride: int, n: nat, width: nat)
  {
    Fits(Source(src, sstride, width), n, len) && Fits(Destination(dst, dstride, width), n, len)
  }

  predicate CopyApart(dst: int, dstride: int, src: int, sstride: int, n: nat, width: nat)
  {
    forall k :: 0 <= k < n ==> Disjoint(Addr(Destination(dst, dstride, width), k), width, Addr(Source(src, sstride, width), k), width)
  }

  /**
   * The memory after copying n elements `width` bytes wide, element k from
   * `src + k * sstride` to `dst + k * dstride`, each copy reading the memory
   * as the earlier ones left it and reversing the bytes when `swap` is set.
   */
  function CopyState(m: seq<Byte>, dst: int, dstride: int, src: int, sstride: int, n: nat, width: nat, swap: bool): (r: seq<Byte>)
    requires CopyFits(|m|, dst, dstride, src, sstride, n, width)
    ensures |r| == |m|
  {
    if n == 0 then m
    else
      var s := CopyState(m, dst, dstride, src, sstride, n - 1, width, swap);
      Store(s, Addr(Destination(dst, dstride, width), n - 1), Oriented(swap)(Load(s, Addr(Source(src, sstride, width), n - 1), width)))
  }

  /** Copy k + 1 stores element k, oriented, over the memory the first k copies left. */
  lemma {:induction false} CopyStateStep(m: seq<Byte>, dst: int, dstride: int, src: int, sstride: int, k: nat, width: nat, swap: bool, s: seq<Byte>)
    requires CopyFits(|m|, dst, dstride, src, sstride, k + 1, width)
    requires s == CopyState(m, dst, dstride, src, sstride, k, width, swap)
    ensures CopyState(m, dst, dstride, src, sstride, k + 1, width, swap) ==
      Store(s, Addr(Destination(dst, dstride, width), k), Oriented(swap)(Load(s, Addr(Source(src, sstride, width), k), width)))
  {
  }

  /** `ByteSwap16`: exchange the two bytes at p. */
  method ByteSwap16(mem: array<Byte>, p: int)
    requires InRange(mem.Length, p, 2)
    modifies mem
    ensures mem[..] == Store(old(mem[..]), p, Reversed(Load(old(mem[..]), p, 2)))
  {
    mem[p], mem[p + 1] := mem[p + 1], mem[p];
  }

  /**
   * One element copy: `memcpy` of the bytes, then `ByteSwap16` in place when
   * requested; an element of fewer bytes reads the same either way round.
   */
  method CopyElement(mem: array<Byte>, r: int, s: int, width: nat, swap: bool)
    requires width <= CopyWidth
    requires InRange(mem.Length, r, width) && InRange(mem.Length, s, width) && Disjoint(r, width, s, width)
    modifies mem
    ensures mem[..] == Store(old(mem[..]), r, Oriented(swap)(Load(old(mem[..]), s, width)))
  {
    ghost var m := mem[..];
    ghost var x := Load(m, s, width);
    Memcpy(mem, r, s, width);
    if swap && width < CopyWidth {
      assert Reversed(x) == x;
    } else if swap {
      LoadStoreSame(m, r, x);
      ByteSwap16(mem, r);
      StoreTwice(m, r, x, Reversed(x));
    }
  }

  /** Copying the next two bytes after a block copy of the first 2k extends it to 2k + 2 bytes. */
  lemma {:induction false} BlockCopyGrows(m: seq<Byte>, dst: int, src: int, n: nat, k: nat, k1: nat)
    requires k1 == k + 1 && k1 <= n
    requires InRange(|m|, dst, 2 * n) && InRange(|m|, src, 2 * n) && Disjoint(dst, 2 * n, src, 2 * n)
    ensures Store(Store(m, dst, Load(m, src, 2 * k)), dst + 2 * k, Load(Store(m, dst, Load(m, src, 2 * k)), src + 2 * k, 2)) ==
      Store(m, dst, Load(m, src, 2 * k1))
  {
    var u := Load(m, src, 2 * k);
    LoadStoreOther(m, dst, u, src + 2 * k, 2);
    LoadSplit(m, src, 2 * k, 2);
    StoreAdjacent(m, dst, u, Load(m, src + 2 * k, 2));
  }

  /**
   * A run of stride-2 copies over two disjoint regions is one block copy:
   * the first k copies of the element loop move the first 2k bytes, so the
   * `memcpy(dst, src, n * sizeof(uint16_t))` shortcut of CopySwapN computes
   * the memory its loop would.
   */
  lemma {:induction false} ContiguousCopy(m: seq<Byte>, dst: int, src: int, n: nat, k: nat)
    requires k <= n
    requires CopyFits(|m|, dst, 2, src, 2, n, 2)
    requires InRange(|m|, dst, 2 * n) && InRange(|m|, src, 2 * n) && Disjoint(dst, 2 * n, src, 2 * n)
    ensures CopyState(m, dst, 2, src, 2, k, 2, false) == Store(m, dst, Load(m, src, 2 * k))
  {
    if k == 0 {
      assert Store(m, dst, Load(m, src, 0)) == m;
    } else {
      var j := k - 1;
      ContiguousCopy(m, dst, src, n, j);
      assert Addr(Source(src, 2, 2), j) == src + 2 * j;
      assert Addr(Destination(dst, 2, 2), j) == dst + 2 * j;
      BlockCopyGrows(m, dst, src, n, j, k);
    }
  }

  /**
   * The element loops of CopySwapN: for each i < n, `memcpy` `width` bytes from
   * `src + sstride * i` to `dst + dstride * i`, then swap them when `swap` is set.
   */
  method CopyLoop(mem: array<Byte>, dst: int, dstride: int, src: int, sstride: int, n: nat, width: nat, swap: bool)
    requires width <= CopyWidth
    requires CopyFits(mem.Length, dst, dstride, src, sstride, n, width)
    requires CopyApart(dst, dstride, src, sstride, n, width)
    modifies mem
    ensures mem[..] == CopyState(old(mem[..]), dst, dstride, src, sstride, n, width, swap)
  {
    ghost var m := mem[..];
    var i := 0;
    while i < n
      invariant 0 <= i <= n
      invariant mem[..] == CopyState(m, dst, dstride, src, sstride, i, width, swap)
    {
      // the pointers `dst + dstride * i` and `src + sstride * i`
      var r, p := Addr(Destination(dst, dstride, width), i), Addr(Source(src, sstride, width), i);
      CopyStateStep(m, dst, dstride, src, sstride, i, width, swap, mem[..]);
      CopyElement(mem, r, p, width, swap);
      i := i + 1;
    }
  }

  /**
   * `NPyPosit8_2_CopySwapN` as written: nothing when `src` is null; with
   * `swap`, copy and swap two bytes per element; with both strides 2, one
   * block copy of 2n bytes; otherwise copy two bytes per element.
   */
  method CopySwapN(mem: array<Byte>, dst: int, dstride: int, src: Option<int>, sstride: int, n: nat, swap: int)
    requires src.Some? ==> CopyFits(mem.Length, dst, dstride, src.value, sstride, n, CopyWidth)
    requires src.Some? ==> CopyApart(dst, dstride, src.value, sstride, n, CopyWidth)
    requires src.Some? && swap == 0 && dstride == CopyWidth && sstride == CopyWidth ==>
      InRange(mem.Length, dst, n * CopyWidth) && InRange(mem.Length, src.value, n * CopyWidth) &&
      Disjoint(dst, n * CopyWidth, src.value, n * CopyWidth)
    modifies mem
    ensures src.None? ==> mem[..] == old(mem[..])
    ensures src.Some? ==> mem[..] == CopyState(old(mem[..]), dst, dstride, src.value, sstride, n, CopyWidth, swap != 0)
  {
    if src.None? {
      return;
    }
    var s := src.value;
    if swap != 0 {
      CopyLoop(mem, dst, dstride, s, sstride, n, CopyWidth, true);
    } else if dstride == CopyWidth && sstride == CopyWidth {
      ghost var m := mem[..];
      Memcpy(mem, dst, s, n * CopyWidth);
      ContiguousCopy(m, dst, s, n, n);
    } else {
      CopyLoop(mem, dst, dstride, s, sstride, n, CopyWidth, false);
    }
  }

  /** `NPyPosit8_2_CopySwap` as written: copy two bytes from `src` to `dst` and swap them on request. */
  method CopySwapOne(mem: array<Byte>, dst: int, src: Option<int>, swap: int)
    requires src.Some? ==> InRange(mem.Length, dst, CopyWidth) && InRange(mem.Length, src.value, CopyWidth)
    requires src.Some? ==> Disjoint(dst, CopyWidth, src.value, CopyWidth)
    modifies mem
    ensures src.None? ==> mem[..] == old(mem[..])
    ensures src.Some? ==> mem[..] == Store(old(mem[..]), dst, Oriented(swap != 0)(Load(old(mem[..]), src.value, CopyWidth)))
  {
    if src.None? {
      return;
    }
    CopyElement(mem, dst, src.value, CopyWidth, swap != 0);
  }

  // ------------------------------------------------ the copy as a unary loop

  /** The copy loop is the unary loop whose functor orients the copied bytes. */
  lemma {:induction false} CopyIsUnary(m: seq<Byte>, dst: int, dstride: int, src: int, sstride: int, k: nat, width: nat, swap: bool)
    requires CopyFits(|m|, dst, dstride, src, sstride, k, width)
    ensures UnaryTyped(Oriented(swap), Source(src, sstride, width), Destination(dst, dstride, width))
    ensures CopyState(m, dst, dstride, src, sstride, k, width, swap) ==
      UnaryState(m, Oriented(swap), Source(src, sstride, width), Destination(dst, dstride, width), k)
  {
    var a, o, g := Source(src, sstride, width), Destination(dst, dstride, width), Oriented(swap);
    OrientedTyped(swap, a, o);
    LiftTyped(g, a, o);
    if k > 0 {
      var j := k - 1;
      CopyIsUnary(m, dst, dstride, src, sstride, j, width, swap);
      var s := CopyState(m, dst, dstride, src, sstride, j, width, swap);
      var x := Load(s, Addr(a, j), width);
      CopyStateStep(m, dst, dstride, src, sstride, j, width, swap, s);
      BinaryStateStep(m, Lift(g), a, a, o, j, s, x, x);
    }
  }

  /** No element copy writes over a source element or a destination element of another copy. */
  predicate CopyNoInterference(dst: int, dstride: int, src: int, sstride: int, n: nat, width: nat)
  {
    forall j, k {:trigger BinaryApart(Source(src, sstride, width), Source(src, sstride, width), Destination(dst, dstride, width), j, k)} ::
      0 <= j < n && 0 <= k < n && j != k ==>
      BinaryApart(Source(src, sstride, width), Source(src, sstride, width), Destination(dst, dstride, width), j, k)
  }

  /**
   * Without interference, the copy leaves at destination element k the
   * bytes of source element k, reversed when `swap` is set, and changes no
   * byte outside the destination elements.
   */
  lemma {:induction false} CopyWrites(m: seq<Byte>, dst: int, dstride: int, src: int, sstride: int, n: nat, width: nat, swap: bool)
    requires CopyFits(|m|, dst, dstride, src, sstride, n, width)
    requires CopyNoInterference(dst, dstride, src, sstride, n, width)
    ensures forall k :: 0 <= k < n ==>
      Load(CopyState(m, dst, dstride, src, sstride, n, width, swap), Addr(Destination(dst, dstride, width), k), width) ==
      Oriented(swap)(Load(m, Addr(Source(src, sstride, width), k), width))
    ensures forall p :: 0 <= p < |m| && (forall k :: 0 <= k < n ==> !InElement(p, Destination(dst, dstride, width), k)) ==>
      CopyState(m, dst, dstride, src, sstride, n, width, swap)[p] == m[p]
  {
    var a, o := Source(src, sstride, width), Destination(dst, dstride, width);
    CopyIsUnary(m, dst, dstride, src, sstride, n, width, swap);
    assert BinaryNoInterference(a, a, o, n) by {
      forall j, k | 0 <= j < n && 0 <= k < n && j != k
        ensures BinaryApart(a, a, o, j, k)
      {
      }
    }
    UnaryWrites(m, Oriented(swap), a, o, n);
  }

  /** `NPyPosit8_2_CopySwap` is CopySwapN on a single element. */
  lemma {:induction false} CopySwapIsOneElement(m: seq<Byte>, dst: int, dstride: int, src: int, sstride: int, width: nat, swap: bool)
    requires InRange(|m|, dst, width) && InRange(|m|, src, width)
    ensures CopyFits(|m|, dst, dstride, src, sstride, 1, width)
    ensures CopyState(m, dst, dstride, src, sstride, 1, width, swap) == Store(m, dst, Oriented(swap)(Load(m, src, width)))
  {
    assert Addr(Source(src, sstride, width), 0) == src && Addr(Destination(dst, dstride, width), 0) == dst;
  }

  // ------------------------------------------------------ the element width

  /**
   * As written, copying one one-byte element (strides 1) also copies the
   * byte after the source element over the byte after the destination
   * element, outside it; with `swap` the destination element receives that
   * neighbouring byte instead of its own.
   */
  lemma {:induction false} CopyWidthOverrun(m: seq<Byte>, dst: int, src: int)
    requires InRange(|m|, dst, CopyWidth) && InRange(|m|, src, CopyWidth)
    ensures CopyState(m, dst, 1, src, 1, 1, CopyWidth, false)[dst + 1] == m[src + 1]
    ensures CopyState(m, dst, 1, src, 1, 1, CopyWidth, true)[dst] == m[src + 1]
  {
    CopySwapIsOneElement(m, dst, 1, src, 1, CopyWidth, false);
    CopySwapIsOneElement(m, dst, 1, src, 1, CopyWidth, true);
    var x := Load(m, src, CopyWidth);
    assert Store(m, dst, x)[dst + 1] == x[1];
    assert Store(m, dst, Reversed(x))[dst] == Reversed(x)[0];
  }

  /** Reversing a one-byte element changes nothing, so a byte-order swap of posit8_2 data is no operation. */
  lemma {:induction false} OneByteSwapIgnored(m: seq<Byte>, dst: int, dstride: int, src: int, sstride: int, n: nat)
    requires CopyFits(|m|, dst, dstride, src, sstride, n, ElementSize)
    ensures CopyState(m, dst, dstride, src, sstride, n, ElementSize, true) == CopyState(m, dst, dstride, src, sstride, n, ElementSize, false)
  {
    if n > 0 {
      var j := n - 1;
      OneByteSwapIgnored(m, dst, dstride, src, sstride, j);
      var s := CopyState(m, dst, dstride, src, sstride, j, ElementSize, false);
      var x := Load(s, Addr(Source(src, sstride, ElementSize), j), ElementSize);
      assert Reversed(x) == x;
      CopyStateStep(m, dst, dstride, src, sstride, j, ElementSize, true, s);
      CopyStateStep(m, dst, dstride, src, sstride, j, ElementSize, false, s);
    }
  }

  /**
   * CopySwapN with the element size of the descriptor: for each i < n copy
   * the one byte of element i; the swap flag has nothing to reverse.
   */
  method CopySwapNCorrected(mem: array<Byte>, dst: int, dstride: int, src: Option<int>, sstride: int, n: nat, swap: int)
    requires src.Some? ==> CopyFits(mem.Length, dst, dstride, src.value, sstride, n, ElementSize)
    requires src.Some? ==> CopyApart(dst, dstride, src.value, sstride, n, ElementSize)
    modifies mem
    ensures src.None? ==> mem[..] == old(mem[..])
    ensures src.Some? ==> mem[..] == CopyState(old(mem[..]), dst, dstride, src.value, sstride, n, ElementSize, swap != 0)
  {
    if src.None? {
      return;
    }
    ghost var m := mem[..];
    CopyLoop(mem, dst, dstride, src.value, sstride, n, ElementSize, false);
    OneByteSwapIgnored(m, dst, dstride, src.value, sstride, n);
  }

  /** CopySwap with the element size of the descriptor: copy the one byte. */
  method CopySwapOneCorrected(mem: array<Byte>, dst: int, src: Option<int>, swap: int)
    requires src.Some? ==> InRange(mem.Length, dst, ElementSize) && InRange(mem.Length, src.value, ElementSize)
    requires src.Some? ==> Disjoint(dst, ElementSize, src.value, ElementSize)
    modifies mem
    ensures src.None? ==> mem[..] == old(mem[..])
    ensures src.Some? ==> mem[..] == Store(old(mem[..]), dst, Load(old(mem[..]), src.value, ElementSize))
  {
    if src.None? {
      return;
    }
    Memcpy(mem, dst, src.value, ElementSize);
  }
}
