/**
 The static containers SArray1D .. SArray5D: a built-in nested array T data[N0]...[N(R-1)]
 with the class constants ndim, size and dims. The nested array is laid out as C lays out
 arrays of arrays: data[i1] is a block of the remaining extents' product elements, placed
 i1 such blocks from the start, and so on inwards.
 */
module SArrayModel {
  import opened RowMajor
  import NArrayModel

  /** The template instances, by their extent parameters. */
  datatype SArray =
    | SArray1D(n0: nat)
    | SArray2D(n0: nat, n1: nat)
    | SArray3D(n0: nat, n1: nat, n2: nat)
    | SArray4D(n0: nat, n1: nat, n2: nat, n3: nat)
    | SArray5D(n0: nat, n1: nat, n2: nat, n3: nat, n4: nat)

  /** dims: the extents in declaration order. */
  function Dims(a: SArray): (d: seq<nat>)
    ensures 1 <= |d| <= 5 && d[0] == a.n0
  {
    match a
    case SArray1D(n0) => [n0]
    case SArray2D(n0, n1) => [n0, n1]
    case SArray3D(n0, n1, n2) => [n0, n1, n2]
    case SArray4D(n0, n1, n2, n3) => [n0, n1, n2, n3]
    case SArray5D(n0, n1, n2, n3, n4) => [n0, n1, n2, n3, n4]
  }

  /** ndim: the number of template extents. */
  function Ndim(a: SArray): (r: nat)
    ensures r == |Dims(a)|
  {
    match a
    case SArray1D(_) => 1
    case SArray2D(_, _) => 2
    case SArray3D(_, _, _) => 3
    case SArray4D(_, _, _, _) => 4
    case SArray5D(_, _, _, _, _) => 5
  }

  /** size: the product of the template extents, as each class spells it out. */
  function Size(a: SArray): (r: nat)
    ensures r == Product(Dims(a))
  {
    ProductOfDims(a);
    match a
    case SArray1D(n0) => n0
    case SArray2D(n0, n1) => n0 * n1
    case SArray3D(n0, n1, n2) => n0 * n1 * n2
    case SArray4D(n0, n1, n2, n3) => n0 * n1 * n2 * n3
    case SArray5D(n0, n1, n2, n3, n4) => n0 * n1 * n2 * n3 * n4
  }

  /**
   Position of data[i1]...[iR] from the start of a nested array of the given extents: i1 blocks
   of the inner extents' product, then the position inside that block.
   */
  function Nested(dims: seq<nat>, idx: seq<int>): int
    requires |idx| == |dims|
  {
    if |idx| == 0 then 0 else idx[0] * Product(dims[1..]) + Nested(dims[1..], idx[1..])
  }

  /** The flat position of an element, as &data[i1]...[iR] - &data[0]...[0]. */
  function Position(a: SArray, idx: seq<int>): (o: int)
    requires InBounds(Dims(a), idx)
    ensures 0 <= o < Size(a)
    ensures o == Horner(Dims(a), idx)
  {
    NestedIsOffset(Dims(a), idx);
    OffsetInRange(Dims(a), idx);
    HornerIsOffset(Dims(a), idx);
    Nested(Dims(a), idx)
  }

  // ----- lemmas -----

  lemma ProductOfDims(a: SArray)
    ensures Product(Dims(a)) == match a
      case SArray1D(n0) => n0
      case SArray2D(n0, n1) => n0 * n1
      case SArray3D(n0, n1, n2) => n0 * n1 * n2
      case SArray4D(n0, n1, n2, n3) => n0 * n1 * n2 * n3
      case SArray5D(n0, n1, n2, n3, n4) => n0 * n1 * n2 * n3 * n4
  {
    match a
    case SArray1D(n0) =>
      ProductCons(n0, []);
    case SArray2D(n0, n1) =>
      ProductCons(n1, []);
      ProductCons(n0, [n1]);
    case SArray3D(n0, n1, n2) =>
      ProductCons(n2, []);
      ProductCons(n1, [n2]);
      ProductCons(n0, [n1, n2]);
      assert n0 * (n1 * n2) == n0 * n1 * n2;
    case SArray4D(n0, n1, n2, n3) =>
      ProductCons(n3, []);
      ProductCons(n2, [n3]);
      ProductCons(n1, [n2, n3]);
      ProductCons(n0, [n1, n2, n3]);
      assert n0 * (n1 * (n2 * n3)) == n0 * n1 * n2 * n3;
    case SArray5D(n0, n1, n2, n3, n4) =>
      ProductCons(n4, []);
      ProductCons(n3, [n4]);
      ProductCons(n2, [n3, n4]);
      ProductCons(n1, [n2, n3, n4]);
      ProductCons(n0, [n1, n2, n3, n4]);
      assert n0 * (n1 * (n2 * (n3 * n4))) == n0 * n1 * n2 * n3 * n4;
  }

  lemma ProductCons(x: nat, t: seq<nat>)
    ensures Product([x] + t) == x * Product(t)
  {
    assert ([x] + t)[1..] == t;
  }

  /** The nested layout is the stride-weighted row-major offset. */
  lemma {:induction false} NestedIsOffset(dims: seq<nat>, idx: seq<int>)
    requires |idx| == |dims|
    ensures Nested(dims, idx) == Offset(dims, idx)
    decreases |idx|
  {
    if |idx| > 0 {
      OffsetCons(dims, idx);
      NestedIsOffset(dims[1..], idx[1..]);
    }
  }

  /** Distinct elements occupy distinct positions, and every position holds one. */
  lemma PositionBijection(a: SArray)
    ensures forall x, y :: InBounds(Dims(a), x) && InBounds(Dims(a), y) && Position(a, x) == Position(a, y) ==> x == y
    ensures forall o :: 0 <= o < Size(a) ==> InBounds(Dims(a), Unflatten(Dims(a), o)) && Position(a, Unflatten(Dims(a), o)) == o
  {
    forall x, y | InBounds(Dims(a), x) && InBounds(Dims(a), y) && Position(a, x) == Position(a, y)
      ensures x == y
    {
      NestedIsOffset(Dims(a), x);
      NestedIsOffset(Dims(a), y);
      OffsetInjective(Dims(a), x, y);
    }
    forall o | 0 <= o < Size(a)
      ensures InBounds(Dims(a), Unflatten(Dims(a), o)) && Position(a, Unflatten(Dims(a), o)) == o
    {
      NestedIsOffset(Dims(a), Unflatten(Dims(a), o));
    }
  }

  /** A static array and a dynamic one of the same extents place every element alike. */
  lemma SameLayoutAsNArray(a: SArray, n: NArrayModel.NArray, idx: seq<int>)
    requires NArrayModel.Valid(n) && n.shape == Dims(a)
    requires InBounds(Dims(a), idx)
    ensures Position(a, idx) == NArrayModel.Element(n, idx)
  {
    NestedIsOffset(Dims(a), idx);
  }
}
