/**
 Row-major layout of a multidimensional index space.

 A shape is the list of extents (n1, ..., nR). An index tuple (i1, ..., iR) is in bounds when
 0 <= ik < nk for every k. The stride of dimension k is the product of the extents after k, so
 the last stride is 1, and the flat offset of a tuple is the stride-weighted sum of its indices.
 The same layout is used by the dynamic container (NArray), the static container (SArray) and
 the MPI Cartesian process numbering (row-major per section 7.4 of MPI-3.1).
 */
module RowMajor {
  import opened Wrappers

  /** Number of elements of a block of the given shape. */
  function Product(shape: seq<nat>): nat
  {
    if |shape| == 0 then 1 else shape[0] * Product(shape[1..])
  }

  /** All extents are at least one. */
  predicate AllPositive(shape: seq<nat>)
  {
    forall k :: 0 <= k < |shape| ==> shape[k] > 0
  }

  /** The index tuple has one in-range index per dimension. */
  predicate InBounds(shape: seq<nat>, idx: seq<int>)
  {
    |idx| == |shape| && forall k :: 0 <= k < |idx| ==> 0 <= idx[k] < shape[k]
  }

  /** Stride of every dimension: the product of the extents that follow it. */
  function Strides(shape: seq<nat>): (st: seq<nat>)
    ensures |st| == |shape|
    ensures forall k :: 0 <= k < |shape| ==> st[k] == Product(shape[k + 1..])
  {
    if |shape| == 0 then []
    else
      [Product(shape[1..])] + Strides(shape[1..])
  }

  /** Weighted sum of the indices. */
  function Dot(idx: seq<int>, w: seq<nat>): int
    requires |idx| == |w|
  {
    if |idx| == 0 then 0 else idx[0] * w[0] + Dot(idx[1..], w[1..])
  }

  /** Flat offset of an index tuple: the sum of index times stride over all dimensions. */
  function Offset(shape: seq<nat>, idx: seq<int>): int
    requires |idx| == |shape|
  {
    Dot(idx, Strides(shape))
  }

  /** The nested (Horner) form ((i1*n2 + i2)*n3 + ...)*nR + iR of the flat offset. */
  function Horner(shape: seq<nat>, idx: seq<int>): int
    requires |idx| == |shape|
    decreases |idx|
  {
    if |idx| == 0 then 0
    else
      var n := |idx| - 1;
      Horner(shape[..n], idx[..n]) * shape[n] + idx[n]
  }

  /** The index tuple whose flat offset is n: the inverse of Offset. */
  function Unflatten(shape: seq<nat>, n: int): (idx: seq<int>)
    requires 0 <= n < Product(shape)
    ensures InBounds(shape, idx)
    ensures Offset(shape, idx) == n
    decreases |shape|
  {
    if |shape| == 0 then []
    else
      var p := Product(shape[1..]);
      NonZeroFactor(shape[0], p, n);
      DivBelow(n, p, shape[0]);
      var rest := Unflatten(shape[1..], n % p);
      OffsetCons(shape, [n / p] + rest);
      assert ([n / p] + rest)[1..] == rest;
      [n / p] + rest
  }

  /**
   The lexicographic successor of an index tuple: the innermost index runs fastest, as in the
   nested loops that walk a container. None when the tuple is the last one.
   */
  function Increment(shape: seq<nat>, idx: seq<int>): Option<seq<int>>
    requires |idx| == |shape|
    decreases |idx|
  {
    if |idx| == 0 then None
    else
      var n := |idx| - 1;
      if idx[n] + 1 < shape[n] then Some(idx[n := idx[n] + 1])
      else
        match Increment(shape[..n], idx[..n])
        case None => None
        case Some(p) => Some(p + [0])
  }

  // ----- arithmetic helpers -----

  lemma MulLeft(a: int, b: int, c: int)
    requires a <= b && c >= 0
    ensures a * c <= b * c
  {
  }

  lemma NonZeroFactor(a: nat, p: nat, n: int)
    requires 0 <= n < a * p
    ensures p > 0 && a > 0
  {
  }

  lemma DivBelow(n: int, p: int, a: int)
    requires p > 0 && 0 <= n < a * p
    ensures 0 <= n / p < a
  {
    if n / p >= a {
      MulLeft(a, n / p, p);
      assert false;
    }
  }

  /** Euclidean division recovers quotient and remainder. */
  lemma DivModUnique(q: int, r: int, p: int)
    requires p > 0 && 0 <= r < p
    ensures (q * p + r) / p == q
    ensures (q * p + r) % p == r
  {
    var n := q * p + r;
    var q' := n / p;
    var r' := n % p;
    assert n == q' * p + r';
    if q' > q {
      MulLeft(q + 1, q', p);
      assert false;
    } else if q' < q {
      MulLeft(q' + 1, q, p);
      assert false;
    }
  }

  lemma Distribute(a: int, b: int, m: int)
    ensures (a + b) * m == a * m + b * m
  {
  }

  // ----- structural lemmas -----

  lemma {:induction false} ProductSnoc(shape: seq<nat>, m: nat)
    ensures Product(shape + [m]) == Product(shape) * m
    decreases |shape|
  {
    if |shape| == 0 {
      assert Product([m]) == m * Product([]);
    } else {
      assert (shape + [m])[1..] == shape[1..] + [m];
      ProductSnoc(shape[1..], m);
      calc {
        Product(shape + [m]);
        shape[0] * Product(shape[1..] + [m]);
        shape[0] * (Product(shape[1..]) * m);
        (shape[0] * Product(shape[1..])) * m;
      }
    }
  }

  /** The product is positive exactly when every extent is. */
  lemma {:induction false} ProductPositive(shape: seq<nat>)
    ensures Product(shape) > 0 <==> AllPositive(shape)
    decreases |shape|
  {
    if |shape| > 0 {
      ProductPositive(shape[1..]);
      if AllPositive(shape) {
        assert AllPositive(shape[1..]) by {
          forall k | 0 <= k < |shape[1..]| ensures shape[1..][k] > 0 {
            assert shape[1..][k] == shape[k + 1];
          }
        }
      } else if Product(shape) > 0 {
        NonZeroFactor(shape[0], Product(shape[1..]), 0);
        forall k | 0 <= k < |shape| ensures shape[k] > 0 {
          if k > 0 {
            assert shape[k] == shape[1..][k - 1];
          }
        }
        assert false;
      }
    }
  }

  /** Peeling the first dimension off the flat offset. */
  lemma OffsetCons(shape: seq<nat>, idx: seq<int>)
    requires |idx| == |shape| > 0
    ensures Offset(shape, idx) == idx[0] * Product(shape[1..]) + Offset(shape[1..], idx[1..])
  {
    assert Strides(shape)[1..] == Strides(shape[1..]);
  }

  /** Appending a dimension scales the offset by its extent. */
  lemma {:induction false} OffsetSnoc(shape: seq<nat>, idx: seq<int>, m: nat, j: int)
    requires |idx| == |shape|
    ensures Offset(shape + [m], idx + [j]) == Offset(shape, idx) * m + j
    decreases |shape|
  {
    if |shape| == 0 {
      OffsetCons([m], [j]);
      assert Offset([], []) == 0;
    } else {
      var s := shape + [m];
      var i := idx + [j];
      assert s[1..] == shape[1..] + [m];
      assert i[1..] == idx[1..] + [j];
      OffsetCons(s, i);
      OffsetCons(shape, idx);
      OffsetSnoc(shape[1..], idx[1..], m, j);
      ProductSnoc(shape[1..], m);
      var p := Product(shape[1..]);
      var o := Offset(shape[1..], idx[1..]);
      calc {
        Offset(s, i);
        idx[0] * (p * m) + (o * m + j);
        { Distribute(idx[0] * p, o, m); }
        (idx[0] * p + o) * m + j;
        Offset(shape, idx) * m + j;
      }
    }
  }

  /** The flat offset of an in-bounds tuple lies in [0, Product(shape)). */
  lemma {:induction false} OffsetInRange(shape: seq<nat>, idx: seq<int>)
    requires InBounds(shape, idx)
    ensures 0 <= Offset(shape, idx) < Product(shape)
    decreases |shape|
  {
    if |shape| > 0 {
      OffsetCons(shape, idx);
      assert InBounds(shape[1..], idx[1..]) by {
        forall k | 0 <= k < |idx[1..]| ensures 0 <= idx[1..][k] < shape[1..][k] {
          assert idx[1..][k] == idx[k + 1] && shape[1..][k] == shape[k + 1];
        }
      }
      OffsetInRange(shape[1..], idx[1..]);
      var p := Product(shape[1..]);
      MulLeft(0, idx[0], p);
      MulLeft(idx[0] + 1, shape[0], p);
    }
  }

  /** Offset followed by Unflatten gives back the tuple. */
  lemma {:induction false} UnflattenOffset(shape: seq<nat>, idx: seq<int>)
    requires InBounds(shape, idx)
    ensures 0 <= Offset(shape, idx) < Product(shape) && Unflatten(shape, Offset(shape, idx)) == idx
    decreases |shape|
  {
    OffsetInRange(shape, idx);
    if |shape| > 0 {
      OffsetCons(shape, idx);
      assert InBounds(shape[1..], idx[1..]) by {
        forall k | 0 <= k < |idx[1..]| ensures 0 <= idx[1..][k] < shape[1..][k] {
          assert idx[1..][k] == idx[k + 1] && shape[1..][k] == shape[k + 1];
        }
      }
      OffsetInRange(shape[1..], idx[1..]);
      var p := Product(shape[1..]);
      var o := Offset(shape[1..], idx[1..]);
      DivModUnique(idx[0], o, p);
      UnflattenOffset(shape[1..], idx[1..]);
      assert idx == [idx[0]] + idx[1..];
    }
  }

  /** Distinct in-bounds tuples have distinct offsets. */
  lemma OffsetInjective(shape: seq<nat>, a: seq<int>, b: seq<int>)
    requires InBounds(shape, a) && InBounds(shape, b)
    requires Offset(shape, a) == Offset(shape, b)
    ensures a == b
  {
    UnflattenOffset(shape, a);
    UnflattenOffset(shape, b);
  }

  /** Offset is a bijection from in-bounds tuples onto [0, Product(shape)). */
  lemma OffsetBijection(shape: seq<nat>)
    ensures forall idx :: InBounds(shape, idx) ==> 0 <= Offset(shape, idx) < Product(shape)
    ensures forall a, b :: InBounds(shape, a) && InBounds(shape, b) && Offset(shape, a) == Offset(shape, b) ==> a == b
    ensures forall n :: 0 <= n < Product(shape) ==> InBounds(shape, Unflatten(shape, n)) && Offset(shape, Unflatten(shape, n)) == n
  {
    forall idx | InBounds(shape, idx) ensures 0 <= Offset(shape, idx) < Product(shape) {
      OffsetInRange(shape, idx);
    }
    forall a, b | InBounds(shape, a) && InBounds(shape, b) && Offset(shape, a) == Offset(shape, b)
      ensures a == b
    {
      OffsetInjective(shape, a, b);
    }
  }

  /** The nested Horner form equals the stride-weighted sum, for every tuple. */
  lemma {:induction false} HornerIsOffset(shape: seq<nat>, idx: seq<int>)
    requires |idx| == |shape|
    ensures Horner(shape, idx) == Offset(shape, idx)
    decreases |idx|
  {
    if |idx| > 0 {
      var n := |idx| - 1;
      HornerIsOffset(shape[..n], idx[..n]);
      OffsetSnoc(shape[..n], idx[..n], shape[n], idx[n]);
      assert shape[..n] + [shape[n]] == shape;
      assert idx[..n] + [idx[n]] == idx;
    }
  }

  /** The innermost index can still advance: the successor bumps it and the offset grows by one. */
  lemma BumpLast(shape: seq<nat>, idx: seq<int>)
    requires InBounds(shape, idx) && |idx| > 0
    requires idx[|idx| - 1] + 1 < shape[|idx| - 1]
    ensures match Increment(shape, idx)
      case Some(next) => InBounds(shape, next) && Offset(shape, next) == Offset(shape, idx) + 1
      case None => false
  {
    var n := |idx| - 1;
    var pre, ps, m := idx[..n], shape[..n], shape[n];
    assert ps + [m] == shape;
    assert pre + [idx[n]] == idx;
    var next := idx[n := idx[n] + 1];
    assert next == pre + [idx[n] + 1];
    OffsetSnoc(ps, pre, m, idx[n]);
    OffsetSnoc(ps, pre, m, idx[n] + 1);
    IncrementBumps(shape, idx);
  }

  lemma IncrementBumps(shape: seq<nat>, idx: seq<int>)
    requires |idx| == |shape| > 0 && idx[|idx| - 1] + 1 < shape[|idx| - 1]
    ensures Increment(shape, idx) == Some(idx[|idx| - 1 := idx[|idx| - 1] + 1])
  {
  }

  /** The innermost index is at its last value: the successor carries into the prefix. */
  lemma {:induction false} CarryLast(shape: seq<nat>, idx: seq<int>)
    requires InBounds(shape, idx) && |idx| > 0
    requires idx[|idx| - 1] + 1 == shape[|idx| - 1]
    ensures match Increment(shape, idx)
      case Some(next) => InBounds(shape, next) && Offset(shape, next) == Offset(shape, idx) + 1
      case None => Offset(shape, idx) + 1 == Product(shape)
    decreases |idx|, 0
  {
    var n := |idx| - 1;
    var pre, ps, m := idx[..n], shape[..n], shape[n];
    CarrySplit(shape, idx);
    IncrementIsNextOffset(ps, pre);
    IncrementCarries(shape, idx);
    match Increment(ps, pre)
    case None =>
    case Some(p) => CarryNext(ps, p, m);
  }

  /** The last dimension split off an index tuple whose last index is at its maximum. */
  lemma CarrySplit(shape: seq<nat>, idx: seq<int>)
    requires InBounds(shape, idx) && |idx| > 0
    requires idx[|idx| - 1] + 1 == shape[|idx| - 1]
    ensures var n := |idx| - 1;
      shape == shape[..n] + [shape[n]] && InBounds(shape[..n], idx[..n]) &&
      0 <= Offset(shape[..n], idx[..n]) < Product(shape[..n]) &&
      Offset(shape, idx) + 1 == (Offset(shape[..n], idx[..n]) + 1) * shape[n] &&
      Product(shape) == Product(shape[..n]) * shape[n]
  {
    var n := |idx| - 1;
    var pre, ps, m := idx[..n], shape[..n], shape[n];
    assert ps + [m] == shape;
    assert pre + [idx[n]] == idx;
    assert InBounds(ps, pre) by {
      forall k | 0 <= k < n ensures 0 <= pre[k] < ps[k] {
        assert pre[k] == idx[k] && ps[k] == shape[k];
      }
    }
    OffsetSnoc(ps, pre, m, idx[n]);
    ProductSnoc(ps, m);
    OffsetInRange(ps, pre);
    Distribute(Offset(ps, pre), 1, m);
  }

  lemma IncrementCarries(shape: seq<nat>, idx: seq<int>)
    requires |idx| == |shape| > 0 && idx[|idx| - 1] + 1 >= shape[|idx| - 1]
    ensures var n := |idx| - 1;
      Increment(shape, idx) ==
        match Increment(shape[..n], idx[..n])
        case None => None
        case Some(p) => Some(p + [0])
  {
  }

  /** The first tuple of a prefix's block: the prefix followed by index 0. */
  lemma CarryNext(ps: seq<nat>, p: seq<int>, m: nat)
    requires InBounds(ps, p) && m > 0
    ensures InBounds(ps + [m], p + [0]) && Offset(ps + [m], p + [0]) == Offset(ps, p) * m
  {
    var next := p + [0];
    assert InBounds(ps + [m], next) by {
      forall i | 0 <= i < |next| ensures 0 <= next[i] < (ps + [m])[i] {
        if i < |ps| {
          assert next[i] == p[i] && (ps + [m])[i] == ps[i];
        }
      }
    }
    OffsetSnoc(ps, p, m, 0);
  }

  /** Stepping to the lexicographic successor advances the flat offset by exactly one. */
  lemma {:induction false} IncrementIsNextOffset(shape: seq<nat>, idx: seq<int>)
    requires InBounds(shape, idx)
    ensures 0 <= Offset(shape, idx) < Product(shape)
    ensures match Increment(shape, idx)
      case Some(next) => InBounds(shape, next) && Offset(shape, next) == Offset(shape, idx) + 1
      case None => Offset(shape, idx) + 1 == Product(shape)
    ensures Increment(shape, idx).None? <==> Offset(shape, idx) + 1 == Product(shape)
    decreases |idx|, 1
  {
    OffsetInRange(shape, idx);
    if |idx| == 0 {
      assert Product(shape) == 1;
    } else if idx[|idx| - 1] + 1 < shape[|idx| - 1] {
      BumpLast(shape, idx);
    } else {
      CarryLast(shape, idx);
    }
    if Increment(shape, idx).Some? {
      OffsetInRange(shape, Increment(shape, idx).value);
    }
  }

}
