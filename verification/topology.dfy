/**
 The three-dimensional Cartesian process grid of the MPI utility class.

 The constructor creates the Cartesian communicator with reordering disabled, so a process keeps
 its world rank. Ranks are numbered row-major over the process extents (section 7.4 of MPI-3.1)
 and MPI_Cart_shift with displacement +1 gives, per direction, the rank at coordinate - 1 (the
 lower neighbor, slot 0) and at coordinate + 1 (the upper neighbor, slot 1): wrapped modulo the
 extent on a periodic direction and MPI_PROC_NULL past the edge of a non-periodic one (section
 7.5.6 of MPI-3.1).
 */
module Topology {
  import opened RowMajor

  /** A neighbor slot: a rank, or MPI_PROC_NULL. */
  datatype Peer = ProcNull | Rank(id: nat)

  /** Process extents and periodicity flags, one per direction. */
  datatype Grid = Grid(dims: seq<nat>, periods: seq<bool>)

  predicate ValidGrid(g: Grid)
  {
    |g.dims| == 3 && |g.periods| == 3 && AllPositive(g.dims)
  }

  /** Number of processes in the grid. */
  function Size(g: Grid): nat
  {
    Product(g.dims)
  }

  /** MPI_Cart_coords: the coordinate of a rank. */
  function CoordOf(g: Grid, r: nat): (c: seq<int>)
    requires ValidGrid(g) && r < Size(g)
    ensures InBounds(g.dims, c)
    ensures Offset(g.dims, c) == r
  {
    Unflatten(g.dims, r)
  }

  /** MPI_Cart_rank: the rank at an in-range coordinate. */
  function RankOf(g: Grid, c: seq<int>): (r: nat)
    requires ValidGrid(g) && InBounds(g.dims, c)
    ensures r < Size(g)
    ensures Unflatten(g.dims, r) == c
  {
    UnflattenOffset(g.dims, c);
    Offset(g.dims, c)
  }

  /** Signed step of a neighbor slot: -1 for slot 0 (lower), +1 for slot 1 (upper). */
  function Delta(side: nat): int
    requires side < 2
  {
    if side == 0 then -1 else 1
  }

  /**
   Neighbor of rank r in direction d on the given side, as MPI_Cart_shift(d, +1) reports it:
   the rank at coordinate + Delta(side), wrapped when the direction is periodic, else ProcNull.
   */
  function Neighbor(g: Grid, r: nat, d: nat, side: nat): (p: Peer)
    requires ValidGrid(g) && r < Size(g) && d < 3 && side < 2
    ensures var c := CoordOf(g, r);
      p == ProcNull <==> !g.periods[d] && c[d] == (if side == 0 then 0 else g.dims[d] - 1)
    ensures var c := CoordOf(g, r);
      p.Rank? ==> p.id < Size(g) && CoordOf(g, p.id) == c[d := (c[d] + Delta(side)) % g.dims[d]]
  {
    var c := CoordOf(g, r);
    var n := g.dims[d];
    var x := c[d] + Delta(side);
    if !g.periods[d] && !(0 <= x < n) then
      ProcNull
    else
      ReplaceInBounds(g.dims, c, d, x % n);
      Rank(RankOf(g, c[d := x % n]))
  }

  /** Replacing one in-range component keeps a coordinate in range. */
  lemma ReplaceInBounds(shape: seq<nat>, c: seq<int>, d: nat, v: int)
    requires InBounds(shape, c) && d < |c| && 0 <= v < shape[d]
    ensures InBounds(shape, c[d := v])
  {
  }

  /** m_nb_dim: the lower and upper neighbor of rank r in each of the three directions. */
  function NeighborTable(g: Grid, r: nat): (nb: seq<seq<Peer>>)
    requires ValidGrid(g) && r < Size(g)
    ensures |nb| == 3
    ensures forall d :: 0 <= d < 3 ==> |nb[d]| == 2
    ensures forall d, s :: 0 <= d < 3 && 0 <= s < 2 ==> nb[d][s] == Neighbor(g, r, d, s)
  {
    seq(3, d requires 0 <= d < 3 => [Neighbor(g, r, d, 0), Neighbor(g, r, d, 1)])
  }

  // ----- lemmas -----

  /** Rank to coordinate and back is the identity on [0, Size). */
  lemma RankCoordRoundTrip(g: Grid, r: nat)
    requires ValidGrid(g) && r < Size(g)
    ensures RankOf(g, CoordOf(g, r)) == r
    ensures forall d :: 0 <= d < 3 ==> 0 <= CoordOf(g, r)[d] < g.dims[d]
  {
  }

  /** Coordinate to rank and back is the identity on the in-range coordinates. */
  lemma CoordRankRoundTrip(g: Grid, c: seq<int>)
    requires ValidGrid(g) && InBounds(g.dims, c)
    ensures CoordOf(g, RankOf(g, c)) == c
  {
  }

  /**
   Neighbor relations are mutual: Q is the lower neighbor of P in direction d exactly when P is
   the upper neighbor of Q in direction d.
   */
  lemma NeighborSymmetry(g: Grid, p: nat, q: nat, d: nat)
    requires ValidGrid(g) && p < Size(g) && q < Size(g) && d < 3
    ensures Neighbor(g, p, d, 0) == Rank(q) <==> Neighbor(g, q, d, 1) == Rank(p)
  {
    LowerThenUpper(g, p, q, d);
    UpperThenLower(g, p, q, d);
  }

  lemma LowerThenUpper(g: Grid, p: nat, q: nat, d: nat)
    requires ValidGrid(g) && p < Size(g) && q < Size(g) && d < 3
    ensures Neighbor(g, p, d, 0) == Rank(q) ==> Neighbor(g, q, d, 1) == Rank(p)
  {
    if Neighbor(g, p, d, 0) == Rank(q) {
      var n := g.dims[d];
      var cp := CoordOf(g, p);
      var cq := CoordOf(g, q);
      WrapStep(cp[d], n);
      assert cq == cp[d := (cp[d] - 1) % n];
      assert cq[d := (cq[d] + 1) % n] == cp;
      NeighborAt(g, q, d, 1, p);
    }
  }

  lemma UpperThenLower(g: Grid, p: nat, q: nat, d: nat)
    requires ValidGrid(g) && p < Size(g) && q < Size(g) && d < 3
    ensures Neighbor(g, q, d, 1) == Rank(p) ==> Neighbor(g, p, d, 0) == Rank(q)
  {
    if Neighbor(g, q, d, 1) == Rank(p) {
      var n := g.dims[d];
      var cp := CoordOf(g, p);
      var cq := CoordOf(g, q);
      WrapStep(cq[d], n);
      assert cp == cq[d := (cq[d] + 1) % n];
      assert cp[d := (cp[d] - 1) % n] == cq;
      NeighborAt(g, p, d, 0, q);
    }
  }

  /** The neighbor slot holds the rank whose coordinate is one step away, when the step is allowed. */
  lemma NeighborAt(g: Grid, r: nat, d: nat, side: nat, t: nat)
    requires ValidGrid(g) && r < Size(g) && d < 3 && side < 2 && t < Size(g)
    requires g.periods[d] || 0 <= CoordOf(g, r)[d] + Delta(side) < g.dims[d]
    requires CoordOf(g, t) == CoordOf(g, r)[d := (CoordOf(g, r)[d] + Delta(side)) % g.dims[d]]
    ensures Neighbor(g, r, d, side) == Rank(t)
  {
    var nb := Neighbor(g, r, d, side);
    assert nb.Rank?;
    OffsetInjective(g.dims, CoordOf(g, nb.id), CoordOf(g, t));
  }

  /** One step down or up on a ring of n positions, and back. */
  lemma WrapStep(a: int, n: int)
    requires 0 <= a < n
    ensures (a - 1) % n == (if a == 0 then n - 1 else a - 1)
    ensures (a + 1) % n == (if a == n - 1 then 0 else a + 1)
    ensures ((a - 1) % n + 1) % n == a
    ensures ((a + 1) % n - 1) % n == a
  {
    StepDown(a, n);
    StepUp(a, n);
    StepUp((a - 1) % n, n);
    StepDown((a + 1) % n, n);
  }

  lemma StepDown(a: int, n: int)
    requires 0 <= a < n
    ensures (a - 1) % n == (if a == 0 then n - 1 else a - 1)
  {
    if a == 0 {
      DivModUnique(-1, n - 1, n);
    } else {
      DivModUnique(0, a - 1, n);
    }
  }

  lemma StepUp(a: int, n: int)
    requires 0 <= a < n
    ensures (a + 1) % n == (if a == n - 1 then 0 else a + 1)
  {
    if a == n - 1 {
      DivModUnique(1, 0, n);
    } else {
      DivModUnique(0, a + 1, n);
    }
  }

  /** On a periodic direction of extent one or two, both neighbors are the same process. */
  lemma ShortPeriodicDirection(g: Grid, r: nat, d: nat)
    requires ValidGrid(g) && r < Size(g) && d < 3
    requires g.periods[d] && g.dims[d] <= 2
    ensures Neighbor(g, r, d, 0) == Neighbor(g, r, d, 1) != ProcNull
    ensures g.dims[d] == 1 ==> Neighbor(g, r, d, 0) == Rank(r)
  {
    var c := CoordOf(g, r);
    var n := g.dims[d];
    var low := Neighbor(g, r, d, 0);
    var up := Neighbor(g, r, d, 1);
    assert (c[d] - 1) % n == (c[d] + 1) % n by {
      if n == 2 {
        if c[d] == 0 {
          assert (c[d] - 1) % n == 1;
        } else {
          assert (c[d] + 1) % n == 0;
        }
      }
    }
    OffsetInjective(g.dims, CoordOf(g, low.id), CoordOf(g, up.id));
    if n == 1 {
      assert c[d := (c[d] - 1) % n] == c;
      OffsetInjective(g.dims, CoordOf(g, low.id), c);
    }
  }
}
