/** Row-major strides: the byte offsets they give are a bijection in lexicographic order. */
module Strides {
  function Product(shape: seq<nat>): nat {
    if shape == [] then 1 else shape[0] * Product(shape[1..])
  }

  /** Each stride is the next one times the next dimension; the last is the item size. */
  function RowMajor(shape: seq<nat>, itemsize: nat): (strides: seq<nat>)
    requires shape != []
    ensures |strides| == |shape|
  {
    if |shape| == 1 then [itemsize]
    else
      var rest := RowMajor(shape[1..], itemsize);
      [rest[0] * shape[1]] + rest
  }

  predicate IndexOf(shape: seq<nat>, index: seq<nat>) {
    |index| == |shape| && forall k | 0 <= k < |shape| :: index[k] < shape[k]
  }

  /** Where strides put an element: what a buffer consumer computes. */
  function Offset(index: seq<nat>, strides: seq<nat>): nat
    requires |index| == |strides|
  {
    if index == [] then 0 else index[0] * strides[0] + Offset(index[1..], strides[1..])
  }

  /** The element's position in row-major order. */
  function Rank(shape: seq<nat>, index: seq<nat>): nat
    requires |index| == |shape|
  {
    if shape == [] then 0 else index[0] * Product(shape[1..]) + Rank(shape[1..], index[1..])
  }

  function Unrank(shape: seq<nat>, rank: nat): (index: seq<nat>)
    requires rank < Product(shape)
    ensures |index| == |shape|
  {
    if shape == [] then []
    else
      var block := Product(shape[1..]);
      assert block > 0;
      [rank / block] + Unrank(shape[1..], rank % block)
  }

  predicate LexLess(a: seq<nat>, b: seq<nat>)
    requires |a| == |b|
  {
    a != [] && (a[0] < b[0] || (a[0] == b[0] && LexLess(a[1..], b[1..])))
  }

  lemma {:induction false} FirstStride(shape: seq<nat>, itemsize: nat)
    requires shape != []
    ensures RowMajor(shape, itemsize)[0] == itemsize * Product(shape[1..])
  {
    if |shape| > 1 {
      FirstStride(shape[1..], itemsize);
      Associate(itemsize, Product(shape[2..]), shape[1]);
      assert shape[1..][1..] == shape[2..];
    } else {
      assert Product(shape[1..]) == 1;
    }
  }

  lemma Associate(a: nat, b: nat, c: nat)
    ensures (a * b) * c == a * (c * b)
  {
  }

  lemma {:induction false} OffsetIsRank(shape: seq<nat>, itemsize: nat, index: seq<nat>)
    requires shape != [] && |index| == |shape|
    ensures Offset(index, RowMajor(shape, itemsize)) == itemsize * Rank(shape, index)
  {
    var strides := RowMajor(shape, itemsize);
    FirstStride(shape, itemsize);
    var block := Product(shape[1..]);
    Spread(index[0], itemsize, block, Rank(shape[1..], index[1..]));
    if |shape| > 1 {
      OffsetIsRank(shape[1..], itemsize, index[1..]);
      assert strides[1..] == RowMajor(shape[1..], itemsize);
    }
  }

  lemma Spread(i: nat, itemsize: nat, block: nat, rest: nat)
    ensures itemsize * (i * block + rest) == i * (itemsize * block) + itemsize * rest
  {
    assert itemsize * (i * block + rest) == itemsize * (i * block) + itemsize * rest;
  }

  lemma {:induction false} RankBound(shape: seq<nat>, index: seq<nat>)
    requires IndexOf(shape, index)
    ensures Rank(shape, index) < Product(shape)
  {
    if shape != [] {
      RankBound(shape[1..], index[1..]);
      BlockBound(index[0], shape[0], Product(shape[1..]));
    }
  }

  lemma BlockBound(i: nat, n: nat, block: nat)
    requires i < n
    ensures i * block + block <= n * block
  {
    assert i * block + block == (i + 1) * block;
    assert (i + 1) * block <= n * block;
  }

  lemma {:induction false} RankOrder(shape: seq<nat>, a: seq<nat>, b: seq<nat>)
    requires IndexOf(shape, a) && IndexOf(shape, b) && LexLess(a, b)
    ensures Rank(shape, a) < Rank(shape, b)
  {
    RankBound(shape[1..], a[1..]);
    if a[0] < b[0] {
      BlockBound(a[0], b[0], Product(shape[1..]));
    } else {
      RankOrder(shape[1..], a[1..], b[1..]);
    }
  }

  lemma {:induction false} LexTotal(a: seq<nat>, b: seq<nat>)
    requires |a| == |b|
    ensures a == b || LexLess(a, b) || LexLess(b, a)
    ensures !(LexLess(a, b) && (a == b || LexLess(b, a)))
  {
    if a != [] {
      LexTotal(a[1..], b[1..]);
      assert a == [a[0]] + a[1..] && b == [b[0]] + b[1..];
    }
  }

  lemma {:induction false} UnrankRank(shape: seq<nat>, rank: nat)
    requires rank < Product(shape)
    ensures IndexOf(shape, Unrank(shape, rank)) && Rank(shape, Unrank(shape, rank)) == rank
  {
    if shape != [] {
      hide Rank, IndexOf;
      var block := Product(shape[1..]);
      assert block > 0;
      DivMod(rank, block);
      UnrankRank(shape[1..], rank % block);
      QuotientBound(rank, shape[0], block);
      assert shape == [shape[0]] + shape[1..];
      Cons(shape[0], shape[1..], rank / block, Unrank(shape[1..], rank % block));
    } else {
      assert Unrank(shape, rank) == [];
    }
  }

  lemma DivMod(rank: nat, block: nat)
    requires block > 0
    ensures rank / block * block + rank % block == rank && rank % block < block
  {
  }

  lemma Cons(n: nat, shape: seq<nat>, i: nat, index: seq<nat>)
    requires i < n && IndexOf(shape, index)
    ensures IndexOf([n] + shape, [i] + index)
    ensures Rank([n] + shape, [i] + index) == i * Product(shape) + Rank(shape, index)
  {
    assert ([n] + shape)[1..] == shape && ([i] + index)[1..] == index;
  }

  lemma QuotientBound(rank: nat, n: nat, block: nat)
    requires block > 0 && rank < n * block
    ensures rank / block < n
  {
    if rank / block >= n {
      Grows(n, rank / block, block);
    }
  }

  lemma Grows(a: nat, b: nat, k: nat)
    requires a <= b
    ensures a * k <= b * k
  {
  }

  /** Byte `offset` is where item number `item` starts. */
  predicate ItemAt(itemsize: nat, item: nat, offset: nat) {
    offset == itemsize * item
  }

  /** Byte offsets are within the buffer, on item boundaries, and ordered as the indices are. */
  lemma OffsetsOrdered(shape: seq<nat>, itemsize: nat, a: seq<nat>, b: seq<nat>)
    requires shape != [] && itemsize > 0 && IndexOf(shape, a) && IndexOf(shape, b)
    ensures var strides := RowMajor(shape, itemsize);
      && Offset(a, strides) + itemsize <= itemsize * Product(shape)
      && (exists item: nat :: item < Product(shape) && ItemAt(itemsize, item, Offset(a, strides)))
      && (LexLess(a, b) <==> Offset(a, strides) < Offset(b, strides))
      && (a == b <==> Offset(a, strides) == Offset(b, strides))
  {
    OffsetIsRank(shape, itemsize, a);
    OffsetIsRank(shape, itemsize, b);
    RankBound(shape, a);
    assert ItemAt(itemsize, Rank(shape, a), Offset(a, RowMajor(shape, itemsize)));
    Multiple(itemsize, Rank(shape, a), Product(shape));
    LexTotal(a, b);
    if LexLess(a, b) {
      RankOrder(shape, a, b);
      Multiple(itemsize, Rank(shape, a), Rank(shape, b));
    } else if LexLess(b, a) {
      RankOrder(shape, b, a);
      Multiple(itemsize, Rank(shape, b), Rank(shape, a));
    }
  }

  lemma Multiple(itemsize: nat, r: nat, n: nat)
    requires itemsize > 0 && r < n
    ensures itemsize * r + itemsize <= itemsize * n
  {
    assert itemsize * r + itemsize == itemsize * (r + 1);
    assert itemsize * (r + 1) <= itemsize * n;
  }

  /** Every item of the buffer is some element's. */
  lemma EveryItemReached(shape: seq<nat>, itemsize: nat, item: nat)
    requires shape != [] && item < Product(shape)
    ensures exists index :: IndexOf(shape, index) && ItemAt(itemsize, item, Offset(index, RowMajor(shape, itemsize)))
  {
    UnrankRank(shape, item);
    OffsetIsRank(shape, itemsize, Unrank(shape, item));
  }

  class BinaryBuffer {
    const itemsize: nat
    const shape: seq<nat>

    /** With no shape given, the buffer is one dimension of its size. */
    constructor (size: nat, itemsize: nat, shape: seq<nat>)
      ensures this.itemsize == itemsize && this.shape == (if shape == [] then [size] else shape)
      ensures this.shape != []
    {
      this.itemsize := itemsize;
      this.shape := if shape == [] then [size] else shape;
    }

    /** The strides reported to Python, filled in from the last dimension back. */
    method ComputeStrides() returns (strides: array<nat>)
      requires shape != []
      ensures fresh(strides) && strides[..] == RowMajor(shape, itemsize)
    {
      var size := |shape|;
      strides := new nat[size];
      strides[size - 1] := itemsize;
      var i := size - 2;
      assert strides[size - 1..] == RowMajor(shape[size - 1..], itemsize);
      while i >= 0
        invariant -1 <= i <= size - 2
        invariant strides[i + 1..] == RowMajor(shape[i + 1..], itemsize)
      {
        strides[i] := strides[i + 1] * shape[i + 1];
        assert shape[i..][1..] == shape[i + 1..];
        assert strides[i..] == [strides[i]] + strides[i + 1..];
        i := i - 1;
      }
    }
  }
}
