/**
 The dynamic multidimensional container NArray<T, R> for ranks 1 to 6.

 The constructor records the extents, computes the row-major strides (the last one is 1, each
 other one the product of the extents after it) and, unless the element count is zero,
 allocates one contiguous block for the data and builds the nested pointer table "array":
 in rank 1 it aliases the data, in higher ranks its innermost rows point into the data at
 the start of every row. Pointers are modelled as offsets into the data block; the element
 type plays no part in the layout and is left out.
 */
module NArrayModel {
  import opened Wrappers
  import opened RowMajor

  /** The highest rank the container is specialised for. */
  const MaxRank: nat := 6

  /** The data block: null, or an allocation of the given number of elements. */
  datatype Block = NoData | Allocated(length: nat)

  /**
   The pointer table: null, the data pointer itself (rank 1), or, for every index prefix of
   length R - 1, the data offset its innermost row starts at.
   */
  datatype Pointers = NoTable | AliasData | Rows(row: map<seq<int>, nat>)

  datatype NArray = NArray(shape: seq<nat>, stride: seq<nat>, data: Block, table: Pointers)

  /** Number of index prefixes that own a row: every extent but the last. */
  function Outer(shape: seq<nat>): seq<nat>
    requires |shape| >= 1
  {
    shape[..|shape| - 1]
  }

  /**
   The row table points every in-bounds prefix at the element of that prefix whose last
   index is 0, so stepping j elements along the row reaches the element (prefix, j).
   */
  ghost predicate RowsAgree(shape: seq<nat>, row: map<seq<int>, nat>)
    requires |shape| >= 2
  {
    (forall p :: p in row <==> InBounds(Outer(shape), p))
    && forall p, j :: p in row && 0 <= j < shape[|shape| - 1] ==> row[p] + j == Offset(shape, p + [j])
  }

  /** What the constructor establishes and every later access relies on. */
  ghost predicate Valid(a: NArray)
  {
    1 <= |a.shape| <= MaxRank && a.stride == Strides(a.shape)
    && (Product(a.shape) == 0 ==> a.data == NoData && a.table == NoTable)
    && (Product(a.shape) > 0 ==> a.data == Allocated(Product(a.shape)))
    && (Product(a.shape) > 0 && |a.shape| == 1 ==> a.table == AliasData)
    && (Product(a.shape) > 0 && |a.shape| >= 2 ==> a.table.Rows? && RowsAgree(a.shape, a.table.row))
  }

  /**
   The stride assignments of the constructor: stride[R-1] = 1 and stride[k] the product of the
   extents after k, accumulated from the innermost dimension outwards.
   */
  method ComputeStrides(shape: seq<nat>) returns (st: seq<nat>)
    ensures |st| == |shape|
    ensures |shape| > 0 ==> st[|shape| - 1] == 1
    ensures forall k :: 0 <= k < |shape| ==> st[k] == Product(shape[k + 1..])
  {
    st := [];
    var k := |shape|;
    var acc := 1;
    while k > 0
      invariant 0 <= k <= |shape|
      invariant acc == Product(shape[k..])
      invariant |st| == |shape| - k
      invariant forall i :: 0 <= i < |st| ==> st[i] == Product(shape[k + i + 1..])
    {
      k := k - 1;
      assert shape[k..][1..] == shape[k + 1..];
      st := [acc] + st;
      acc := shape[k] * acc;
    }
  }

  /** Where the source points the row of a prefix: the prefix's indices times their strides. */
  function RowStart(shape: seq<nat>, p: seq<int>): int
    requires |p| < |shape|
  {
    Dot(p, Strides(shape)[..|p|])
  }

  /**
   reshape for rank 2 and up: visit the index prefixes in the order of the source's nested
   loops (last index fastest) and point each one's row at RowStart.
   */
  method Reshape(shape: seq<nat>) returns (row: map<seq<int>, nat>)
    requires 2 <= |shape| && AllPositive(shape)
    ensures RowsAgree(shape, row)
  {
    var outer := Outer(shape);
    assert AllPositive(outer);
    ProductPositive(outer);
    var total := Product(outer);
    row := map[];
    var r := 0;
    var cur := Unflatten(outer, 0);
    forall p | InBounds(outer, p)
      ensures Offset(outer, p) >= 0
    {
      OffsetInRange(outer, p);
    }
    while r < total
      invariant 0 <= r <= total
      invariant r < total ==> InBounds(outer, cur) && Offset(outer, cur) == r
      invariant forall p :: p in row <==> InBounds(outer, p) && Offset(outer, p) < r
      invariant forall p :: p in row ==> row[p] == RowStart(shape, p)
    {
      OffsetInRange(outer, cur);
      RowStartIsOffset(shape, cur, 0);
      assert InBounds(shape, cur + [0]);
      OffsetInRange(shape, cur + [0]);
      row := row[cur := RowStart(shape, cur) as nat];
      forall p | InBounds(outer, p) && Offset(outer, p) == r
        ensures p == cur
      {
        OffsetInjective(outer, p, cur);
      }
      IncrementIsNextOffset(outer, cur);
      if r + 1 < total {
        cur := Increment(outer, cur).value;
      }
      r := r + 1;
    }
    forall p | InBounds(outer, p)
      ensures p in row
    {
      OffsetInRange(outer, p);
    }
    forall p, j | p in row && 0 <= j < shape[|shape| - 1]
      ensures row[p] + j == Offset(shape, p + [j])
    {
      RowStartIsOffset(shape, p, j);
    }
  }

  /** The constructor NArray(n1, ..., nR). */
  method Create(shape: seq<nat>) returns (a: NArray)
    requires 1 <= |shape| <= MaxRank
    ensures Valid(a)
    ensures a.shape == shape
    ensures a.data.Allocated? <==> forall k :: 0 <= k < |shape| ==> shape[k] > 0
  {
    var st := ComputeStrides(shape);
    var size := Product(shape);
    ProductPositive(shape);
    if size == 0 {
      a := NArray(shape, st, NoData, NoTable);
    } else if |shape| == 1 {
      a := NArray(shape, st, Allocated(size), AliasData);
    } else {
      var row := Reshape(shape);
      a := NArray(shape, st, Allocated(size), Rows(row));
    }
  }

  /** getSize: the number of elements, the product of the extents. */
  function GetSize(a: NArray): (n: nat)
    requires Valid(a)
    ensures n > 0 <==> a.data.Allocated?
    ensures a.data.Allocated? ==> n == a.data.length
  {
    Product(a.shape)
  }

  /** operator()(i1, ..., iR): the position in the data of the element at the index tuple. */
  function Element(a: NArray, idx: seq<int>): (o: int)
    requires Valid(a) && InBounds(a.shape, idx)
    ensures a.data.Allocated? && 0 <= o < a.data.length
    ensures Unflatten(a.shape, o) == idx
  {
    UnflattenOffset(a.shape, idx);
    ProductPositive(a.shape);
    Dot(idx, a.stride)
  }

  // ----- lemmas -----

  /** Appending one index and one weight adds their product to the weighted sum. */
  lemma {:induction false} DotSnoc(idx: seq<int>, w: seq<nat>, i: int, x: nat)
    requires |idx| == |w|
    ensures Dot(idx + [i], w + [x]) == Dot(idx, w) + i * x
    decreases |idx|
  {
    if |idx| > 0 {
      assert (idx + [i])[1..] == idx[1..] + [i];
      assert (w + [x])[1..] == w[1..] + [x];
      DotSnoc(idx[1..], w[1..], i, x);
    }
  }

  /** The row pointer the source computes is the offset of the row's first element. */
  lemma RowStartIsOffset(shape: seq<nat>, p: seq<int>, j: int)
    requires |p| + 1 == |shape|
    ensures RowStart(shape, p) + j == Offset(shape, p + [j])
  {
    var st := Strides(shape);
    var n := |p|;
    assert shape[n + 1..] == [];
    assert st == st[..n] + [1];
    DotSnoc(p, st[..n], j, 1);
  }

  /** Every position of the data block holds exactly one element. */
  lemma ElementBijection(a: NArray)
    requires Valid(a)
    ensures forall o :: 0 <= o < GetSize(a) ==>
      InBounds(a.shape, Unflatten(a.shape, o)) && Element(a, Unflatten(a.shape, o)) == o
    ensures forall x, y :: InBounds(a.shape, x) && InBounds(a.shape, y) && Element(a, x) == Element(a, y) ==> x == y
  {
    forall x, y | InBounds(a.shape, x) && InBounds(a.shape, y) && Element(a, x) == Element(a, y)
      ensures x == y
    {
      OffsetInjective(a.shape, x, y);
    }
  }

  /**
   Walking the index tuples in lexicographic order (last index fastest) walks the data block
   one element at a time, ending on its last element.
   */
  lemma ElementSteps(a: NArray, idx: seq<int>)
    requires Valid(a) && InBounds(a.shape, idx)
    ensures match Increment(a.shape, idx)
      case Some(next) => InBounds(a.shape, next) && Element(a, next) == Element(a, idx) + 1
      case None => Element(a, idx) == GetSize(a) - 1
  {
    OffsetSteps(a.shape, idx);
    if Increment(a.shape, idx).Some? {
      var next := Increment(a.shape, idx).value;
      assert Element(a, next) == Offset(a.shape, next);
    }
  }

  lemma OffsetSteps(shape: seq<nat>, idx: seq<int>)
    requires InBounds(shape, idx)
    ensures match Increment(shape, idx)
      case Some(next) => InBounds(shape, next) && Offset(shape, next) == Offset(shape, idx) + 1
      case None => Offset(shape, idx) == Product(shape) - 1
  {
    IncrementIsNextOffset(shape, idx);
    OffsetInRange(shape, idx);
  }

  /**
   The pointer table agrees with operator(): array[i1]...[iR] reaches the same element as
   a(i1, ..., iR), through the row of the prefix in rank 2 and up, through the data in rank 1.
   */
  lemma TableAgrees(a: NArray, idx: seq<int>)
    requires Valid(a) && InBounds(a.shape, idx)
    ensures |idx| == 1 ==> a.table == AliasData && Element(a, idx) == idx[0]
    ensures |idx| >= 2 ==>
      a.table.Rows? && idx[..|idx| - 1] in a.table.row
      && a.table.row[idx[..|idx| - 1]] + idx[|idx| - 1] == Element(a, idx)
  {
    OffsetInRange(a.shape, idx);
    var n := |idx| - 1;
    if n == 0 {
      OffsetCons(a.shape, idx);
    } else {
      assert InBounds(Outer(a.shape), idx[..n]);
      assert idx[..n] + [idx[n]] == idx;
    }
  }
}
