/**
 Start-up, naming and lifecycle of the MPI utility class: the consistency check between the
 requested domain decomposition and the number of processes, the per-process state the
 constructor records, the temporary and per-process file names, the neighbor report of info(),
 and the singleton that initialize / finalize / getInstance manage.

 MPI_Init, MPI_Comm_size and MPI_Comm_rank are not modelled: their results (the number of
 processes, this process's rank and the program name) are parameters.
 */
module Session {
  import opened Wrappers
  import opened RowMajor
  import opened Decimal
  import opened Topology
  import opened Slices

  /** The state the constructor records for one process. */
  datatype Context = Context(
    nprocess: nat,
    rank: nat,
    grid: Grid,
    coord: seq<int>,
    neighbors: seq<seq<Peer>>,
    concat: bool,
    outFile: string,
    errFile: string)

  /** The recorded coordinate and neighbor table are those of the rank in the grid. */
  predicate Consistent(c: Context)
  {
    ValidGrid(c.grid) && c.nprocess == Size(c.grid) && c.rank < c.nprocess
      && c.coord == CoordOf(c.grid, c.rank) && c.neighbors == NeighborTable(c.grid, c.rank)
  }

  /** What the constructor does on one process. */
  datatype Outcome =
    | Started(ctx: Context)
    | Exited(status: int, stderr: string)    // MPI_Finalize and exit
    | Aborted(reason: string)                // an MPI call failed under MPI_ERRORS_ARE_FATAL

  function DomainProduct(domain: seq<int>): int
    requires |domain| == 3
  {
    domain[0] * domain[1] * domain[2]
  }

  /** The diagnostic rank 0 writes when the decomposition does not match the process count. */
  function Diagnostic(nprocess: nat, domain: seq<int>): string
    requires |domain| == 3
  {
    DiagnosticHead + Pad(nprocess, 4) + DiagnosticTail(domain)
  }

  const DiagnosticHead: string := "Error in mpiutils: invalid number of PEs (="

  function DiagnosticTail(domain: seq<int>): string
    requires |domain| == 3
  {
    ")\ncurrent domain decomposition = [" + Pad(domain[0], 3) + ", " + Pad(domain[1], 3) + ", "
      + Pad(domain[2], 3) + "] ===> expected PEs = " + Pad(DomainProduct(domain), 4) + "\n"
  }

  /** "%s_PE%04d.<stream>": the temporary file that stands for a process's stdout or stderr. */
  function TempName(program: string, rank: nat, stream: string): string
  {
    program + "_PE" + ZeroPad(rank, 4) + "." + stream
  }

  /**
   The constructor on process `rank` of `nprocess`: check the decomposition, create the
   Cartesian topology (periodic where period[d] is nonzero) and name the temporary files.
   */
  function Startup(nprocess: nat, rank: nat, program: string, domain: seq<int>, period: seq<int>, concat: bool): (o: Outcome)
    requires rank < nprocess && |domain| == 3 && |period| == 3
    ensures o.Exited? <==> DomainProduct(domain) != nprocess
    ensures o.Exited? ==> o.status == -1 && (o.stderr != "" <==> rank == 0)
    ensures o.Aborted? <==> DomainProduct(domain) == nprocess && !(domain[0] > 0 && domain[1] > 0 && domain[2] > 0)
    ensures o.Started? ==>
      (Consistent(o.ctx) && o.ctx.rank == rank && o.ctx.nprocess == nprocess
       && o.ctx.grid.dims == domain && o.ctx.concat == concat
       && (forall d :: 0 <= d < 3 ==> o.ctx.grid.periods[d] == (period[d] != 0)))
  {
    if DomainProduct(domain) != nprocess then
      Exited(-1, if rank == 0 then Diagnostic(nprocess, domain) else "")
    else if !(domain[0] > 0 && domain[1] > 0 && domain[2] > 0) then
      Aborted("MPI_Cart_create: dimensions must be positive")
    else
      var g := Grid([domain[0], domain[1], domain[2]], [period[0] != 0, period[1] != 0, period[2] != 0]);
      assert Size(g) == nprocess by {
        assert g.dims[2..][1..] == [];
        assert Product(g.dims[2..]) == domain[2];
        assert g.dims[1..][1..] == g.dims[2..];
        assert Product(g.dims[1..]) == domain[1] * domain[2];
        assert Product(g.dims) == domain[0] * (domain[1] * domain[2]);
      }
      Started(Context(nprocess, rank, g, CoordOf(g, rank), NeighborTable(g, rank), concat,
                      TempName(program, rank, "stdout"), TempName(program, rank, "stderr")))
  }

  /** getFilename: "%s-%03d-%03d-%03d.%s" with this process's Cartesian coordinate. */
  function FileName(prefix: string, c: seq<int>, ext: string): string
    requires |c| == 3 && c[0] >= 0 && c[1] >= 0 && c[2] >= 0
  {
    Fields(prefix, ZeroPad(c[0], 3), ZeroPad(c[1], 3), ZeroPad(c[2], 3), ext)
  }

  /** prefix-a-b-z.ext */
  function Fields(prefix: string, a: string, b: string, z: string, ext: string): string
  {
    prefix + ("-" + (a + ("-" + (b + ("-" + (z + ("." + ext)))))))
  }

  function GetFilename(ctx: Context, prefix: string, ext: string): (name: string)
    requires Consistent(ctx)
    ensures forall d :: 0 <= d < 3 ==> 0 <= ctx.coord[d] < ctx.grid.dims[d]
    ensures |name| >= |prefix| + 13 + |ext|
    ensures name[..|prefix|] == prefix && name[|name| - |ext|..] == ext
  {
    RankCoordRoundTrip(ctx.grid, ctx.rank);
    FileNameShape(prefix, ctx.coord, ext);
    FileName(prefix, ctx.coord, ext)
  }

  /**
   On grids of at most 1000 processes per direction, two processes get the same file name
   exactly when they are the same process.
   */
  lemma GetFilenameDistinct(a: Context, b: Context, prefix: string, ext: string)
    ensures (Consistent(a) && Consistent(b) && a.grid == b.grid
             && forall d :: 0 <= d < 3 ==> a.grid.dims[d] <= 1000) ==>
      (GetFilename(a, prefix, ext) == GetFilename(b, prefix, ext) <==> a.rank == b.rank)
  {
    if Consistent(a) && Consistent(b) && a.grid == b.grid && forall d :: 0 <= d < 3 ==> a.grid.dims[d] <= 1000 {
      RankCoordRoundTrip(a.grid, a.rank);
      RankCoordRoundTrip(b.grid, b.rank);
      FileNameInjective(prefix, a.coord, b.coord, ext);
    }
  }

  /** The coordinate info() prints for a neighbor: (-1, -1, -1) for MPI_PROC_NULL. */
  function InfoTriple(g: Grid, p: Peer): (t: seq<int>)
    requires ValidGrid(g) && (p.Rank? ==> p.id < Size(g))
    ensures |t| == 3
    ensures p == ProcNull <==> t == [-1, -1, -1]
    ensures p.Rank? ==> InBounds(g.dims, t) && RankOf(g, t) == p.id
  {
    if p == ProcNull then [-1, -1, -1]
    else
      RankCoordRoundTrip(g, p.id);
      CoordOf(g, p.id)
  }

  function Triple(t: seq<int>): string
    requires |t| == 3
  {
    "[" + Pad(t[0], 2) + "," + Pad(t[1], 2) + "," + Pad(t[2], 2) + "]"
  }

  /** One line of info(): lower, own and upper coordinate along direction d. */
  function InfoLine(ctx: Context, d: nat): string
    requires Consistent(ctx) && d < 3
  {
    InfoLineHead + (Pad(d, 1) + InfoLineRest(ctx, d))
  }

  /** The three coordinates of a line of info(): lower <= own => upper. */
  function InfoLineRest(ctx: Context, d: nat): string
    requires Consistent(ctx) && d < 3
  {
    var lower := Neighbor(ctx.grid, ctx.rank, d, 0);
    var upper := Neighbor(ctx.grid, ctx.rank, d, 1);
    ": " + Triple(InfoTriple(ctx.grid, lower)) + " <= " + Triple(ctx.coord) + " => "
      + Triple(InfoTriple(ctx.grid, upper)) + "\n"
  }

  const InfoLineHead: string := " neighbor in dir "

  /** The whole text info() writes. */
  function Info(ctx: Context): string
    requires Consistent(ctx)
  {
    InfoFront(ctx) + (Pad(ctx.rank, 4) + InfoRest(ctx))
  }

  /** The banner of info(), the process count, and the label of the rank field. */
  function InfoFront(ctx: Context): string
  {
    InfoHead + (Pad(ctx.nprocess, 4) + ("\n" + RankLabel))
  }

  /** What info() writes after the rank: the file names and one line per direction. */
  function InfoRest(ctx: Context): string
    requires Consistent(ctx)
  {
    "\n"
      + "Temporary std::cout : " + ctx.outFile + "\n"
      + "Temporary std::cerr : " + ctx.errFile + "\n"
      + "Info for domain decomposition:\n"
      + InfoLine(ctx, 0) + InfoLine(ctx, 1) + InfoLine(ctx, 2) + "\n"
  }

  const InfoHead: string := "\n <<< INFO: mpiutils >>>\nNumber of Process   : "
  const RankLabel: string := "This Rank           : "

  // ----- singleton lifecycle -----

  datatype MpiState = NotStarted | Running | Finalized

  /** The static instance pointer and the state of the MPI library in one process. */
  datatype Runtime = Runtime(instance: Option<Context>, mpi: MpiState)

  /** What the launcher gives a process: the process count, its rank and argv[0]. */
  datatype Launch = Launch(nprocess: nat, rank: nat, program: string)

  predicate ValidLaunch(l: Launch)
  {
    l.rank < l.nprocess
  }

  /** The single invariant of the runtime: an instance exists exactly while MPI runs. */
  predicate Good(rt: Runtime)
  {
    (rt.instance.Some? <==> rt.mpi == Running) && (rt.instance.Some? ==> Consistent(rt.instance.value))
  }

  datatype InitOutcome =
    | Ready(rt: Runtime, handle: Context)
    | Terminated(status: int, stderr: string)
    | Abort(reason: string)

  /**
   initialize: the existing instance if there is one; otherwise MPI_Init and the constructor.
   MPI_Init after MPI_Finalize is erroneous (section 8.7 of MPI-3.1).
   */
  function Initialize(rt: Runtime, l: Launch, domain: seq<int>, period: seq<int>, concat: bool): (r: InitOutcome)
    requires Good(rt) && ValidLaunch(l) && |domain| == 3 && |period| == 3
    ensures rt.instance.Some? ==> r == Ready(rt, rt.instance.value)
    ensures r.Ready? ==> Good(r.rt) && r.rt.instance == Some(r.handle)
    ensures rt.instance.None? && rt.mpi == Finalized ==> r.Abort?
    ensures rt.instance.None? && rt.mpi == NotStarted ==>
      (r.Ready? <==> DomainProduct(domain) == l.nprocess && domain[0] > 0 && domain[1] > 0 && domain[2] > 0)
  {
    if rt.instance.Some? then Ready(rt, rt.instance.value)
    else if rt.mpi == Finalized then Abort("MPI_Init called after MPI_Finalize")
    else
      match Startup(l.nprocess, l.rank, l.program, domain, period, concat)
      case Started(ctx) => Ready(Runtime(Some(ctx), Running), ctx)
      case Exited(status, err) => Terminated(status, err)
      case Aborted(reason) => Abort(reason)
  }

  /**
   finalize: nothing without an instance; otherwise the destructor runs the output concatenation
   (when enabled), calls MPI_Finalize and clears the instance. ringRan says whether the
   concatenation ran.
   */
  datatype FinalizeOutcome = Done(rt: Runtime, ringRan: bool)

  function Finalize(rt: Runtime): (f: FinalizeOutcome)
    requires Good(rt)
    ensures Good(f.rt) && f.rt.instance.None?
    ensures rt.instance.None? ==> f == Done(rt, false)
    ensures rt.instance.Some? ==> f.rt.mpi == Finalized && f.ringRan == rt.instance.value.concat
  {
    match rt.instance
    case None => Done(rt, false)
    case Some(ctx) => Done(Runtime(None, Finalized), ctx.concat)
  }

  /** getInstance: the instance, or nothing together with the message written to stderr. */
  function GetInstance(rt: Runtime): (r: (Option<Context>, string))
    ensures r.0 == rt.instance
    ensures r.1 == "" <==> rt.instance.Some?
  {
    if rt.instance.Some? then (rt.instance, "")
    else
      (None, "Error in getInstance() !\n===> initialization method should be called in advance.\n")
  }

  // ----- lemmas -----

  /** Start-up succeeds exactly when the extents are positive and multiply to the process count. */
  lemma StartupSucceeds(nprocess: nat, rank: nat, program: string, domain: seq<int>, period: seq<int>, concat: bool)
    requires rank < nprocess && |domain| == 3 && |period| == 3
    ensures Startup(nprocess, rank, program, domain, period, concat).Started?
      <==> DomainProduct(domain) == nprocess && domain[0] > 0 && domain[1] > 0 && domain[2] > 0
  {
  }

  /** The diagnostic's "(=%4d)" field reads back, by atoi, as the process count. */
  lemma DiagnosticNamesCount(nprocess: nat, domain: seq<int>)
    requires |domain| == 3
    ensures var text := Diagnostic(nprocess, domain);
      text[..|DiagnosticHead|] == DiagnosticHead && Atoi(text[|DiagnosticHead|..]) == nprocess
  {
    var tail := DiagnosticTail(domain);
    assert Diagnostic(nprocess, domain) == DiagnosticHead + (Pad(nprocess, 4) + tail);
    Split(DiagnosticHead, Pad(nprocess, 4) + tail);
    TailOpens(domain);
    AtoiOfPad(nprocess, 4, tail);
  }

  /** A temporary name starts with the program and "_PE", its rank reads back by atoi, and it ends with the stream. */
  lemma TempNameFields(program: string, rank: nat, stream: string)
    ensures var name := TempName(program, rank, stream);
      name[..|program| + 3] == program + "_PE" && Atoi(name[|program| + 3..]) == rank
      && name[|name| - |stream|..] == stream
  {
    var digits := ZeroPad(rank, 4);
    var name := TempName(program, rank, stream);
    assert name == (program + "_PE") + (digits + ("." + stream));
    Split(program + "_PE", digits + ("." + stream));
    AtoiReadsNumeral(digits, "." + stream);
    assert name == (program + "_PE" + digits + ".") + stream;
    Split(program + "_PE" + digits + ".", stream);
  }

  /** Each line of info() names its direction in the "%1d" field. */
  lemma InfoLineFields(ctx: Context, d: nat)
    requires Consistent(ctx) && d < 3
    ensures var line := InfoLine(ctx, d);
      line[..|InfoLineHead|] == InfoLineHead && Atoi(line[|InfoLineHead|..]) == d
  {
    var rest := InfoLineRest(ctx, d);
    Split(InfoLineHead, Pad(d, 1) + rest);
    assert rest[0] == ':';
    AtoiOfPad(d, 1, rest);
  }

  /** info() reports the process count and this process's rank in its two "%4d" fields. */
  lemma InfoFields(ctx: Context)
    requires Consistent(ctx)
    ensures var text := Info(ctx);
      text[..|InfoHead|] == InfoHead && Atoi(text[|InfoHead|..]) == ctx.nprocess
    ensures var text := Info(ctx); var k := |InfoFront(ctx)|;
      text[k - |RankLabel|..k] == RankLabel && Atoi(text[k..]) == ctx.rank
  {
    var count, rank, rest := Pad(ctx.nprocess, 4), Pad(ctx.rank, 4), InfoRest(ctx);
    assert rest[0] == '\n';
    FrontSplit(InfoHead, count, RankLabel, rank, rest);
    AtoiOfPad(ctx.rank, 4, rest);
    AtoiOfPad(ctx.nprocess, 4, ("\n" + RankLabel) + (rank + rest));
  }

  /** The pieces of h + p + "\n" + l + q + rest, nested as info() builds it. */
  lemma FrontSplit(h: string, p: string, l: string, q: string, rest: string)
    ensures var front := h + (p + ("\n" + l)); var text := front + (q + rest);
      text[..|h|] == h && text[|h|..] == p + (("\n" + l) + (q + rest))
      && text[|front| - |l|..|front|] == l && text[|front|..] == q + rest
  {
    var front := h + (p + ("\n" + l));
    var text := front + (q + rest);
    assert text == h + (p + (("\n" + l) + (q + rest)));
    Split(h, p + (("\n" + l) + (q + rest)));
    Split(front, q + rest);
    assert front == (h + p + "\n") + l;
    Split(h + p + "\n", l);
    Prefix(front, q + rest, |front| - |l|, |front|);
  }

  lemma TailOpens(domain: seq<int>)
    requires |domain| == 3
    ensures DiagnosticTail(domain)[0] == ')'
  {
  }

  /** Where each part of a per-process file name lies. */
  lemma FileNameShape(prefix: string, c: seq<int>, ext: string)
    requires |c| == 3 && c[0] >= 0 && c[1] >= 0 && c[2] >= 0
    ensures var name := FileName(prefix, c, ext); var n := |prefix|;
      var a, b, z := ZeroPad(c[0], 3), ZeroPad(c[1], 3), ZeroPad(c[2], 3);
      |name| == n + 4 + |a| + |b| + |z| + |ext|
      && name[..n] == prefix
      && name[n + 1..n + 1 + |a|] == a
      && name[n + 2 + |a|..n + 2 + |a| + |b|] == b
      && name[n + 3 + |a| + |b|..n + 3 + |a| + |b| + |z|] == z
      && name[|name| - |ext|..] == ext
  {
    FieldsShape(prefix, ZeroPad(c[0], 3), ZeroPad(c[1], 3), ZeroPad(c[2], 3), ext);
  }

  lemma FieldsShape(prefix: string, a: string, b: string, z: string, ext: string)
    ensures var name := Fields(prefix, a, b, z, ext); var n := |prefix|;
      |name| == n + 4 + |a| + |b| + |z| + |ext|
      && name[..n] == prefix
      && name[n + 1..n + 1 + |a|] == a
      && name[n + 2 + |a|..n + 2 + |a| + |b|] == b
      && name[n + 3 + |a| + |b|..n + 3 + |a| + |b| + |z|] == z
      && name[|name| - |ext|..] == ext
  {
    var name, n := Fields(prefix, a, b, z, ext), |prefix|;
    var t3 := "." + ext;
    var t2 := "-" + (z + t3);
    var t1 := "-" + (b + t2);
    Split(prefix, "-" + (a + t1));
    Step(name, n, "-", a + t1);
    Step(name, n + 1, a, t1);
    Step(name, n + 1 + |a|, "-", b + t2);
    Step(name, n + 2 + |a|, b, t2);
    Step(name, n + 2 + |a| + |b|, "-", z + t3);
    Step(name, n + 3 + |a| + |b|, z, t3);
    Step(name, n + 3 + |a| + |b| + |z|, ".", ext);
  }

  /** Distinct ranks get distinct temporary files, and stdout and stderr never share one. */
  lemma TempNamesDistinct(program: string, a: nat, b: nat)
    ensures TempName(program, a, "stdout") == TempName(program, b, "stdout") ==> a == b
    ensures TempName(program, a, "stdout") != TempName(program, b, "stderr")
  {
    if TempName(program, a, "stdout") == TempName(program, b, "stdout") {
      var pre, suf := program + "_PE", ".stdout";
      assert TempName(program, a, "stdout") == pre + ZeroPad(a, 4) + suf;
      assert TempName(program, b, "stdout") == pre + ZeroPad(b, 4) + suf;
      Middle(pre, ZeroPad(a, 4), ZeroPad(b, 4), suf);
      ZeroPadInjective(a, b, 4);
    }
    StreamLast(program, a, "stdout");
    StreamLast(program, b, "stderr");
  }

  /** A temporary name ends with the last letter of its stream. */
  lemma StreamLast(program: string, rank: nat, stream: string)
    requires |stream| > 0
    ensures var x := TempName(program, rank, stream); |x| > 0 && x[|x| - 1] == stream[|stream| - 1]
  {
  }

  /** Two strings with the same prefix and suffix agree in between. */
  lemma Middle(p: string, u: string, v: string, q: string)
    requires p + u + q == p + v + q
    ensures u == v
  {
    assert |u| == |v|;
    assert u == (p + u + q)[|p|..|p| + |u|];
    assert v == (p + v + q)[|p|..|p| + |v|];
  }

  /** Each coordinate occupies three characters at a fixed place in the name. */
  lemma FileNameFields(prefix: string, c: seq<int>, ext: string)
    requires |c| == 3 && 0 <= c[0] < 1000 && 0 <= c[1] < 1000 && 0 <= c[2] < 1000
    ensures var name := FileName(prefix, c, ext); var n := |prefix|;
      |name| == n + 13 + |ext|
      && name[n + 1..n + 4] == ZeroPad(c[0], 3)
      && name[n + 5..n + 8] == ZeroPad(c[1], 3)
      && name[n + 9..n + 12] == ZeroPad(c[2], 3)
  {
    ZeroPadWidth(c[0], 3);
    ZeroPadWidth(c[1], 3);
    ZeroPadWidth(c[2], 3);
    FileNameShape(prefix, c, ext);
  }

  /**
   For a fixed prefix and extension, getFilename is injective over coordinates in [0, 1000), and
   each field reads back as its coordinate.
   */
  lemma FileNameInjective(prefix: string, c: seq<int>, c': seq<int>, ext: string)
    requires |c| == 3 && 0 <= c[0] < 1000 && 0 <= c[1] < 1000 && 0 <= c[2] < 1000
    requires |c'| == 3 && 0 <= c'[0] < 1000 && 0 <= c'[1] < 1000 && 0 <= c'[2] < 1000
    ensures FileName(prefix, c, ext) == FileName(prefix, c', ext) <==> c == c'
    ensures Value(FileName(prefix, c, ext)[|prefix| + 1..|prefix| + 4]) == c[0]
  {
    FileNameFields(prefix, c, ext);
    FileNameFields(prefix, c', ext);
    if FileName(prefix, c, ext) == FileName(prefix, c', ext) {
      ZeroPadInjective(c[0], c'[0], 3);
      ZeroPadInjective(c[1], c'[1], 3);
      ZeroPadInjective(c[2], c'[2], 3);
    }
  }

  /**
   info() prints (-1, -1, -1) exactly for a missing neighbor, and otherwise the neighbor's
   coordinate: the own coordinate moved by one step (wrapped) along the direction.
   */
  lemma InfoNeighbor(ctx: Context, d: nat, side: nat)
    requires Consistent(ctx) && d < 3 && side < 2
    ensures var p := Neighbor(ctx.grid, ctx.rank, d, side);
      var t := InfoTriple(ctx.grid, p);
      (t == [-1, -1, -1] <==> p == ProcNull)
      && (p.Rank? ==> t == ctx.coord[d := (ctx.coord[d] + Delta(side)) % ctx.grid.dims[d]])
  {
  }

  /** initialize is idempotent: once an instance exists, any further call returns it unchanged. */
  lemma InitializeIdempotent(rt: Runtime, l: Launch, domain: seq<int>, period: seq<int>, concat: bool,
                             l': Launch, domain': seq<int>, period': seq<int>, concat': bool)
    requires Good(rt) && ValidLaunch(l) && |domain| == 3 && |period| == 3
    requires ValidLaunch(l') && |domain'| == 3 && |period'| == 3
    ensures var r := Initialize(rt, l, domain, period, concat);
      r.Ready? ==> Initialize(r.rt, l', domain', period', concat') == r
  {
  }

  /**
   After finalize there is no instance: getInstance reports the error, a second finalize does
   nothing, and a new initialize is refused because MPI cannot be initialized again.
   */
  lemma AfterFinalize(rt: Runtime, l: Launch, domain: seq<int>, period: seq<int>, concat: bool)
    requires Good(rt) && rt.instance.Some? && ValidLaunch(l) && |domain| == 3 && |period| == 3
    ensures var f := Finalize(rt);
      GetInstance(f.rt).0.None? && GetInstance(f.rt).1 != ""
      && Finalize(f.rt) == Done(f.rt, false)
      && Initialize(f.rt, l, domain, period, concat).Abort?
  {
  }
}
