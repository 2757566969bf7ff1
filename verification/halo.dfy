/**
 Halo (boundary) exchange of the MPI utility class: the tag table, the requests that
 bc_exchange_dir_begin and bc_exchange_begin post, and a synchronous whole-grid completion that
 stands for the non-blocking sends and receives followed by a wait on every process.

 A process hands each exchange one byte buffer made of four consecutive regions of
 size = dsize * count bytes: send-to-lower, send-to-upper, receive-from-lower and
 receive-from-upper. Sends and receives are paired by the non-overtaking rule of section 3.5 of
 MPI-3.1: the k-th receive a process posts from peer q with tag t takes the k-th send that q
 posts to it with tag t, both counted in posting order. A receive from MPI_PROC_NULL completes
 at once without touching its region (section 3.11).
 */
module Halo {
  import opened Wrappers
  import opened Topology

  type Byte = bv8

  /** What one process hands to the exchanges: its buffers, by buffer number. */
  type Memory = seq<seq<Byte>>

  /** The static tag table: one row per direction, one column per side. */
  const Tags: seq<seq<nat>> := [[0, 1], [2, 3], [4, 5]]

  function Tag(d: nat, s: nat): (t: nat)
    requires d < 3 && s < 2
    ensures t == 2 * d + s
  {
    Tags[d][s]
  }

  datatype Kind = Send | Recv

  /** One posted non-blocking operation: its peer, tag and the bytes it covers. */
  datatype Request = Request(kind: Kind, peer: Peer, tag: nat, buffer: nat, offset: nat, len: nat)

  /** Bytes in one region: the element size times the element count. */
  function RegionSize(dsize: nat, count: nat): nat
  {
    dsize * count
  }

  /**
   bc_exchange_dir_begin: the four requests of process r along direction dir on buffer `buffer`.
   Region k starts at k * size; the sends cover regions 0 and 1, the receives regions 2 and 3.
   */
  function DirBegin(g: Grid, r: nat, dir: nat, buffer: nat, dsize: nat, count: nat): (rs: seq<Request>)
    requires ValidGrid(g) && r < Size(g) && dir < 3
    ensures |rs| == 4
    ensures forall k :: 0 <= k < 4 ==> rs[k].buffer == buffer && rs[k].len == RegionSize(dsize, count)
    ensures rs[0].offset == 0 && rs[1].offset == RegionSize(dsize, count)
      && rs[2].offset == 2 * RegionSize(dsize, count) && rs[3].offset == 3 * RegionSize(dsize, count)
    ensures forall k :: 0 <= k < 4 ==> (rs[k].kind == Send <==> k < 2)
    ensures rs[0].peer == rs[2].peer == Neighbor(g, r, dir, 0) && rs[1].peer == rs[3].peer == Neighbor(g, r, dir, 1)
  {
    var size := RegionSize(dsize, count);
    var lower := Neighbor(g, r, dir, 0);
    var upper := Neighbor(g, r, dir, 1);
    [ Request(Send, lower, Tag(dir, 0), buffer, 0, size),
      Request(Send, upper, Tag(dir, 1), buffer, size, size),
      Request(Recv, lower, Tag(dir, 1), buffer, 2 * size, size),
      Request(Recv, upper, Tag(dir, 0), buffer, 3 * size, size) ]
  }

  /** bc_exchange_begin: the twelve requests of process r, buffer d serving direction d. */
  function Begin(g: Grid, r: nat, dsize: nat, count: seq<nat>): (rs: seq<Request>)
    requires ValidGrid(g) && r < Size(g) && |count| == 3
    ensures |rs| == 12
    ensures forall k :: 0 <= k < 12 ==> rs[k].buffer == k / 4
  {
    var s0 := RegionSize(dsize, count[0]);
    var s1 := RegionSize(dsize, count[1]);
    var s2 := RegionSize(dsize, count[2]);
    var l0 := Neighbor(g, r, 0, 0);
    var u0 := Neighbor(g, r, 0, 1);
    var l1 := Neighbor(g, r, 1, 0);
    var u1 := Neighbor(g, r, 1, 1);
    var l2 := Neighbor(g, r, 2, 0);
    var u2 := Neighbor(g, r, 2, 1);
    [ Request(Send, l0, Tag(0, 0), 0, 0, s0),
      Request(Send, u0, Tag(0, 1), 0, s0, s0),
      Request(Recv, l0, Tag(0, 1), 0, 2 * s0, s0),
      Request(Recv, u0, Tag(0, 0), 0, 3 * s0, s0),
      Request(Send, l1, Tag(1, 0), 1, 0, s1),
      Request(Send, u1, Tag(1, 1), 1, s1, s1),
      Request(Recv, l1, Tag(1, 1), 1, 2 * s1, s1),
      Request(Recv, u1, Tag(1, 0), 1, 3 * s1, s1),
      Request(Send, l2, Tag(2, 0), 2, 0, s2),
      Request(Send, u2, Tag(2, 1), 2, s2, s2),
      Request(Recv, l2, Tag(2, 1), 2, 2 * s2, s2),
      Request(Recv, u2, Tag(2, 0), 2, 3 * s2, s2) ]
  }

  // ----- completion semantics -----

  /** rq is a request of the given kind whose peer is process `who`, with tag t. */
  predicate Matches(rq: Request, kind: Kind, who: nat, t: nat)
  {
    rq.kind == kind && rq.peer == Rank(who) && rq.tag == t
  }

  /** How many requests of rs are of the given kind, with peer `who` and tag t. */
  function Count(rs: seq<Request>, kind: Kind, who: nat, t: nat): nat
  {
    if |rs| == 0 then 0
    else (if Matches(rs[0], kind, who, t) then 1 else 0) + Count(rs[1..], kind, who, t)
  }

  /**
   The position of the j-th send (counting from 0) in rs that is addressed to `to` with tag t.
   Under the non-overtaking rule, the j-th receive from this sender with this tag takes it.
   */
  function FindSend(rs: seq<Request>, to: nat, t: nat, j: nat): (i: Option<nat>)
    ensures i.Some? <==> j < Count(rs, Send, to, t)
    ensures i.Some? ==> i.value < |rs| && Matches(rs[i.value], Send, to, t) && Count(rs[..i.value], Send, to, t) == j
    decreases |rs|
  {
    if |rs| == 0 then None
    else if Matches(rs[0], Send, to, t) && j == 0 then
      assert rs[..0] == [];
      Some(0)
    else
      match FindSend(rs[1..], to, t, if Matches(rs[0], Send, to, t) then j - 1 else j)
      case None => None
      case Some(i) =>
        assert rs[..i + 1][1..] == rs[1..][..i];
        Some(i + 1)
  }

  /** The bytes a send request covers in its owner's memory, if they lie inside it. */
  function Payload(m: Memory, rq: Request): (r: Result<seq<Byte>>)
    ensures r.Ok? <==> rq.buffer < |m| && rq.offset + rq.len <= |m[rq.buffer]|
    ensures r.Ok? ==> r.value == m[rq.buffer][rq.offset..rq.offset + rq.len]
  {
    if rq.buffer < |m| && rq.offset + rq.len <= |m[rq.buffer]| then
      Ok(m[rq.buffer][rq.offset..rq.offset + rq.len])
    else
      Err("send region outside the buffer")
  }

  /** The message of the j-th send that process q addressed to process p with tag t, as posted in plans[q]. */
  function Source(world: seq<Memory>, plans: seq<seq<Request>>, q: nat, p: nat, t: nat, j: nat): (r: Result<seq<Byte>>)
    requires |plans| == |world|
    ensures r.Ok? ==> q < |world| && j < Count(plans[q], Send, p, t)
  {
    if q >= |world| then Err("no such rank")
    else
      match FindSend(plans[q], p, t, j)
      case None => Err("receive never matched")
      case Some(i) => Payload(world[q], plans[q][i])
  }

  /** buf with the bytes m written at off. */
  function Write(buf: seq<Byte>, off: nat, m: seq<Byte>): (r: seq<Byte>)
    requires off + |m| <= |buf|
    ensures |r| == |buf|
    ensures r[off..off + |m|] == m
    ensures forall i :: 0 <= i < |buf| && !(off <= i < off + |m|) ==> r[i] == buf[i]
  {
    buf[..off] + m + buf[off + |m|..]
  }

  /**
   Completes the requests rs of process p, in order, on its memory acc, after the requests `done`
   that come before them in p's plan. Sends complete without changing their owner's memory; a
   receive from MPI_PROC_NULL changes nothing. A receive from q with tag t that follows j such
   receives in `done` takes the j-th send that q addressed to p with tag t.
   */
  function ApplyRecvs(world: seq<Memory>, plans: seq<seq<Request>>, p: nat, done: seq<Request>, acc: Memory, rs: seq<Request>): (r: Result<Memory>)
    requires |plans| == |world|
    ensures r.Ok? ==> |r.value| == |acc|
    ensures r.Ok? ==> forall b :: 0 <= b < |acc| ==> |r.value[b]| == |acc[b]|
    ensures r.Ok? ==> forall b :: 0 <= b < |acc| && (forall k :: 0 <= k < |rs| ==> rs[k].kind == Send || rs[k].buffer != b) ==>
      r.value[b] == acc[b]
    decreases |rs|
  {
    if |rs| == 0 then Ok(acc)
    else
      var rq := rs[0];
      if rq.kind == Send || rq.peer == ProcNull then
        ApplyRecvs(world, plans, p, done + [rq], acc, rs[1..])
      else
        match Source(world, plans, rq.peer.id, p, rq.tag, Count(done, Recv, rq.peer.id, rq.tag))
        case Err(e) => Err(e)
        case Ok(m) =>
          if |m| > rq.len then Err("message truncated")
          else if rq.buffer >= |acc| || rq.offset + rq.len > |acc[rq.buffer]| then
            Err("receive region outside the buffer")
          else
            ApplyRecvs(world, plans, p, done + [rq], acc[rq.buffer := Write(acc[rq.buffer], rq.offset, m)], rs[1..])
  }

  /** Every process's memory after all posted requests completed, or the first failure. */
  function Complete(world: seq<Memory>, plans: seq<seq<Request>>): (r: Result<seq<Memory>>)
    requires |plans| == |world|
    ensures r.Ok? ==> |r.value| == |world|
    ensures r.Ok? <==> forall q :: 0 <= q < |world| ==> ApplyRecvs(world, plans, q, [], world[q], plans[q]).Ok?
    ensures r.Ok? ==> forall q :: 0 <= q < |world| ==> ApplyRecvs(world, plans, q, [], world[q], plans[q]) == Ok(r.value[q])
  {
    CompleteFrom(world, plans, 0)
  }

  function CompleteFrom(world: seq<Memory>, plans: seq<seq<Request>>, p: nat): (r: Result<seq<Memory>>)
    requires |plans| == |world| && p <= |world|
    ensures r.Ok? ==> |r.value| == |world| - p
    ensures r.Ok? <==> forall q :: p <= q < |world| ==> ApplyRecvs(world, plans, q, [], world[q], plans[q]).Ok?
    ensures r.Ok? ==> forall q :: p <= q < |world| ==> ApplyRecvs(world, plans, q, [], world[q], plans[q]) == Ok(r.value[q - p])
    decreases |world| - p
  {
    if p == |world| then Ok([])
    else
      match ApplyRecvs(world, plans, p, [], world[p], plans[p])
      case Err(e) => Err(e)
      case Ok(m) =>
        match CompleteFrom(world, plans, p + 1)
        case Err(e) => Err(e)
        case Ok(ms) =>
          CompletedCons(world, plans, p, m, ms);
          Ok([m] + ms)
  }

  /** Prepending process p's completed memory to those of the later processes. */
  lemma CompletedCons(world: seq<Memory>, plans: seq<seq<Request>>, p: nat, m: Memory, ms: seq<Memory>)
    requires |plans| == |world| && p < |world| && |ms| == |world| - (p + 1)
    requires ApplyRecvs(world, plans, p, [], world[p], plans[p]) == Ok(m)
    requires forall q :: p + 1 <= q < |world| ==> ApplyRecvs(world, plans, q, [], world[q], plans[q]) == Ok(ms[q - (p + 1)])
    ensures forall q :: p <= q < |world| ==> ApplyRecvs(world, plans, q, [], world[q], plans[q]) == Ok(([m] + ms)[q - p])
  {
    forall q | p <= q < |world|
      ensures ApplyRecvs(world, plans, q, [], world[q], plans[q]) == Ok(([m] + ms)[q - p])
    {
      if q > p {
        assert ([m] + ms)[q - p] == ms[q - (p + 1)];
      }
    }
  }

  // ----- the exchange a correct halo swap performs -----

  /** Every process has buffer b, at least n bytes long. */
  predicate WideEnough(world: seq<Memory>, b: nat, n: nat)
  {
    forall p :: 0 <= p < |world| ==> b < |world[p]| && |world[p][b]| >= n
  }

  /** What region 2 (receive-lower) of buffer b of process p holds after the exchange along d. */
  function LowerMsg(g: Grid, world: seq<Memory>, d: nat, b: nat, size: nat, p: nat): (m: seq<Byte>)
    requires ValidGrid(g) && |world| == Size(g) && p < Size(g) && d < 3
    requires WideEnough(world, b, 4 * size)
    ensures |m| == size
  {
    var lower := Neighbor(g, p, d, 0);
    if lower.Rank? then world[lower.id][b][size..2 * size] else world[p][b][2 * size..3 * size]
  }

  /** What region 3 (receive-upper) of buffer b of process p holds after the exchange along d. */
  function UpperMsg(g: Grid, world: seq<Memory>, d: nat, b: nat, size: nat, p: nat): (m: seq<Byte>)
    requires ValidGrid(g) && |world| == Size(g) && p < Size(g) && d < 3
    requires WideEnough(world, b, 4 * size)
    ensures |m| == size
  {
    var upper := Neighbor(g, p, d, 1);
    if upper.Rank? then world[upper.id][b][..size] else world[p][b][3 * size..4 * size]
  }

  /**
   Buffer b of process p after the exchange along direction d: regions 0, 1 and the bytes past
   region 3 as they were; region 2 holds the lower neighbor's region 1 and region 3 the upper
   neighbor's region 0, each unchanged when that neighbor is MPI_PROC_NULL.
   */
  function Exchanged(g: Grid, world: seq<Memory>, d: nat, b: nat, size: nat, p: nat): (buf: seq<Byte>)
    requires ValidGrid(g) && |world| == Size(g) && p < Size(g) && d < 3
    requires WideEnough(world, b, 4 * size)
  {
    var own := world[p][b];
    own[..2 * size] + LowerMsg(g, world, d, b, size, p) + UpperMsg(g, world, d, b, size, p) + own[4 * size..]
  }

  /** Every process has buffers 0, 1 and 2, each wide enough for its direction's four regions. */
  predicate BeginWide(world: seq<Memory>, dsize: nat, count: seq<nat>)
    requires |count| == 3
  {
    WideEnough(world, 0, 4 * RegionSize(dsize, count[0]))
      && WideEnough(world, 1, 4 * RegionSize(dsize, count[1]))
      && WideEnough(world, 2, 4 * RegionSize(dsize, count[2]))
  }

  /** Every process posts bc_exchange_dir_begin(d, buffer b, dsize, count). */
  function DirPlans(g: Grid, d: nat, b: nat, dsize: nat, count: nat): (plans: seq<seq<Request>>)
    requires ValidGrid(g) && d < 3
    ensures |plans| == Size(g)
    ensures forall r :: 0 <= r < Size(g) ==> plans[r] == DirBegin(g, r, d, b, dsize, count)
  {
    seq(Size(g), r requires 0 <= r < Size(g) => DirBegin(g, r, d, b, dsize, count))
  }

  /** Every process posts bc_exchange_begin(buf0, buf1, buf2, dsize, count). */
  function BeginPlans(g: Grid, dsize: nat, count: seq<nat>): (plans: seq<seq<Request>>)
    requires ValidGrid(g) && |count| == 3
    ensures |plans| == Size(g)
    ensures forall r :: 0 <= r < Size(g) ==> plans[r] == Begin(g, r, dsize, count)
  {
    seq(Size(g), r requires 0 <= r < Size(g) => Begin(g, r, dsize, count))
  }

  // ----- lemmas -----

  /** The six direction/side tags are pairwise distinct. */
  lemma TagsDistinct(d: nat, s: nat, d': nat, s': nat)
    requires d < 3 && s < 2 && d' < 3 && s' < 2
    ensures Tag(d, s) == Tag(d', s') <==> d == d' && s == s'
  {
  }

  /** bc_exchange_begin is three bc_exchange_dir_begin calls, direction d on buffer d in slots 4d..4d+3. */
  lemma BeginIsThreeDirBegins(g: Grid, r: nat, dsize: nat, count: seq<nat>)
    requires ValidGrid(g) && r < Size(g) && |count| == 3
    ensures Begin(g, r, dsize, count)
      == DirBegin(g, r, 0, 0, dsize, count[0]) + DirBegin(g, r, 1, 1, dsize, count[1]) + DirBegin(g, r, 2, 2, dsize, count[2])
  {
  }

  /**
   Tag pairing: a request of process p and a request of process q form a send/receive match
   exactly when p's send-upper meets q's receive-lower with q the upper neighbor of p, or p's
   send-lower meets q's receive-upper with q the lower neighbor of p.
   */
  lemma Pairing(g: Grid, d: nat, b: nat, dsize: nat, count: nat, p: nat, q: nat, i: nat, j: nat)
    requires ValidGrid(g) && d < 3 && p < Size(g) && q < Size(g) && i < 4 && j < 4
    ensures var sp := DirBegin(g, p, d, b, dsize, count)[i];
      var rq := DirBegin(g, q, d, b, dsize, count)[j];
      (sp.kind == Send && rq.kind == Recv && sp.peer == Rank(q) && rq.peer == Rank(p) && sp.tag == rq.tag)
      <==> (i == 1 && j == 2 && Neighbor(g, p, d, 1) == Rank(q)) || (i == 0 && j == 3 && Neighbor(g, p, d, 0) == Rank(q))
  {
    NeighborSymmetry(g, p, q, d);
    NeighborSymmetry(g, q, p, d);
  }

  /** Counting over a concatenation. */
  lemma {:induction false} CountAppend(a: seq<Request>, c: seq<Request>, kind: Kind, who: nat, t: nat)
    ensures Count(a + c, kind, who, t) == Count(a, kind, who, t) + Count(c, kind, who, t)
    decreases |a|
  {
    if |a| == 0 {
      assert a + c == c;
    } else {
      assert (a + c)[0] == a[0];
      assert (a + c)[1..] == a[1..] + c;
      CountAppend(a[1..], c, kind, who, t);
    }
  }

  /** A list with no request of the kind, peer and tag counts none. */
  lemma {:induction false} CountNone(rs: seq<Request>, kind: Kind, who: nat, t: nat)
    requires forall k :: 0 <= k < |rs| ==> !Matches(rs[k], kind, who, t)
    ensures Count(rs, kind, who, t) == 0
    decreases |rs|
  {
    if |rs| > 0 {
      assert forall k :: 0 <= k < |rs| - 1 ==> rs[1..][k] == rs[k + 1];
      CountNone(rs[1..], kind, who, t);
    }
  }

  /** The count over four requests, one by one. */
  lemma CountFour(rs: seq<Request>, kind: Kind, who: nat, t: nat)
    requires |rs| == 4
    ensures Count(rs, kind, who, t) ==
      (if Matches(rs[0], kind, who, t) then 1 else 0) + (if Matches(rs[1], kind, who, t) then 1 else 0)
      + (if Matches(rs[2], kind, who, t) then 1 else 0) + (if Matches(rs[3], kind, who, t) then 1 else 0)
  {
    assert rs[1..][1..] == rs[2..];
    assert rs[2..][1..] == rs[3..];
    assert rs[3..][1..] == [];
    assert Count(rs[3..], kind, who, t) == if Matches(rs[3], kind, who, t) then 1 else 0;
    assert Count(rs[2..], kind, who, t) == (if Matches(rs[2], kind, who, t) then 1 else 0) + Count(rs[3..], kind, who, t);
    assert Count(rs[1..], kind, who, t) == (if Matches(rs[1], kind, who, t) then 1 else 0) + Count(rs[2..], kind, who, t);
  }

  /** An optional position moved n places further on. */
  function Later(o: Option<nat>, n: nat): Option<nat>
  {
    match o
    case None => None
    case Some(i) => Some(i + n)
  }

  /** Where the j-th matching send sits in a concatenation of request lists. */
  lemma FindSendAppend(a: seq<Request>, c: seq<Request>, to: nat, t: nat, j: nat)
    ensures FindSend(a + c, to, t, j) ==
      if j < Count(a, Send, to, t) then FindSend(a, to, t, j) else Later(FindSend(c, to, t, j - Count(a, Send, to, t)), |a|)
  {
    if j < Count(a, Send, to, t) {
      FindSendInFront(a, c, to, t, j);
    } else {
      FindSendBehind(a, c, to, t, j);
    }
  }

  /** Counting one more request of a prefix. */
  lemma CountSnoc(rs: seq<Request>, i: nat, kind: Kind, who: nat, t: nat)
    requires i < |rs|
    ensures Count(rs[..i + 1], kind, who, t) == Count(rs[..i], kind, who, t) + (if Matches(rs[i], kind, who, t) then 1 else 0)
  {
    assert rs[..i + 1] == rs[..i] + [rs[i]];
    CountAppend(rs[..i], [rs[i]], kind, who, t);
    assert [rs[i]][1..] == [];
  }

  /** A longer prefix counts at least as many requests. */
  lemma CountPrefixLe(rs: seq<Request>, m: nat, n: nat, kind: Kind, who: nat, t: nat)
    requires m <= n <= |rs|
    ensures Count(rs[..m], kind, who, t) <= Count(rs[..n], kind, who, t)
  {
    assert rs[..n] == rs[..m] + rs[m..n];
    CountAppend(rs[..m], rs[m..n], kind, who, t);
  }

  /** A matching send preceded by exactly j matching sends is the one FindSend finds for j. */
  lemma FindSendUnique(rs: seq<Request>, to: nat, t: nat, j: nat, i: nat)
    requires i < |rs| && Matches(rs[i], Send, to, t) && Count(rs[..i], Send, to, t) == j
    ensures FindSend(rs, to, t, j) == Some(i)
  {
    CountSnoc(rs, i, Send, to, t);
    CountPrefixLe(rs, i + 1, |rs|, Send, to, t);
    assert rs[..|rs|] == rs;
    var k := FindSend(rs, to, t, j).value;
    if k < i {
      CountSnoc(rs, k, Send, to, t);
      CountPrefixLe(rs, k + 1, i, Send, to, t);
    } else if k > i {
      CountPrefixLe(rs, i + 1, k, Send, to, t);
    }
  }

  /** A matching send of the first list keeps its position when more requests follow. */
  lemma FindSendInFront(a: seq<Request>, c: seq<Request>, to: nat, t: nat, j: nat)
    requires j < Count(a, Send, to, t)
    ensures FindSend(a + c, to, t, j) == FindSend(a, to, t, j)
  {
    var i := FindSend(a, to, t, j).value;
    assert (a + c)[..i] == a[..i];
    assert (a + c)[i] == a[i];
    FindSendUnique(a + c, to, t, j, i);
  }

  /** Past the matching sends of the first list, the search goes on in the second. */
  lemma FindSendBehind(a: seq<Request>, c: seq<Request>, to: nat, t: nat, j: nat)
    requires j >= Count(a, Send, to, t)
    ensures FindSend(a + c, to, t, j) == Later(FindSend(c, to, t, j - Count(a, Send, to, t)), |a|)
  {
    CountAppend(a, c, Send, to, t);
    match FindSend(c, to, t, j - Count(a, Send, to, t))
    case None =>
    case Some(k) =>
      assert (a + c)[..|a| + k] == a + c[..k];
      CountAppend(a, c[..k], Send, to, t);
      assert Count((a + c)[..|a| + k], Send, to, t) == j;
      assert (a + c)[|a| + k] == c[k];
      FindSendUnique(a + c, to, t, j, |a| + k);
  }

  /**
   In the directional requests of p's neighbor on one side, exactly one send reaches p with the
   facing tag: the neighbor's send-upper when it is p's lower neighbor, its send-lower otherwise.
   */
  lemma FacingSend(g: Grid, q: nat, d: nat, b: nat, dsize: nat, count: nat, p: nat, side: nat)
    requires ValidGrid(g) && d < 3 && p < Size(g) && q < Size(g) && side < 2
    ensures var rs := DirBegin(g, q, d, b, dsize, count);
      (Neighbor(g, p, d, side) == Rank(q)) ==>
        Count(rs, Send, p, Tag(d, 1 - side)) == 1 && FindSend(rs, p, Tag(d, 1 - side), 0) == Some(1 - side)
  {
    if Neighbor(g, p, d, side) == Rank(q) {
      var rs := DirBegin(g, q, d, b, dsize, count);
      CountFour(rs, Send, p, Tag(d, 1 - side));
      if side == 0 {
        LowerThenUpper(g, p, q, d);
        assert !Matches(rs[0], Send, p, Tag(d, 1));
        assert Matches(rs[1], Send, p, Tag(d, 1));
        assert FindSend(rs[1..], p, Tag(d, 1), 0) == Some(0);
      } else {
        UpperThenLower(g, q, p, d);
        assert Matches(rs[0], Send, p, Tag(d, 0));
        assert !Matches(rs[1], Send, p, Tag(d, 0));
      }
    }
  }

  /** In p's own directional requests, exactly one receive comes from its neighbor on a side with the facing tag. */
  lemma FacingRecv(g: Grid, p: nat, d: nat, b: nat, dsize: nat, count: nat, side: nat)
    requires ValidGrid(g) && d < 3 && p < Size(g) && side < 2
    ensures Neighbor(g, p, d, side).Rank? ==>
      Count(DirBegin(g, p, d, b, dsize, count), Recv, Neighbor(g, p, d, side).id, Tag(d, 1 - side)) == 1
  {
    if Neighbor(g, p, d, side).Rank? {
      CountFour(DirBegin(g, p, d, b, dsize, count), Recv, Neighbor(g, p, d, side).id, Tag(d, 1 - side));
    }
  }

  /**
   The message a lower or upper neighbor sends in a directional exchange on buffer b, wherever
   that exchange sits in the neighbor's plan: the receive that follows as many matching receives
   as the earlier part of the neighbor's plan has matching sends takes it.
   */
  lemma DirSource(g: Grid, world: seq<Memory>, plans: seq<seq<Request>>, d: nat, b: nat, dsize: nat, count: nat, p: nat, side: nat,
                  pre: seq<Request>, post: seq<Request>)
    requires ValidGrid(g) && |world| == Size(g) && |plans| == |world| && d < 3 && p < Size(g) && side < 2
    requires WideEnough(world, b, 4 * RegionSize(dsize, count))
    ensures var size := RegionSize(dsize, count);
      (Neighbor(g, p, d, side).Rank?
       && plans[Neighbor(g, p, d, side).id] == pre + DirBegin(g, Neighbor(g, p, d, side).id, d, b, dsize, count) + post) ==>
      Source(world, plans, Neighbor(g, p, d, side).id, p, Tag(d, 1 - side), Count(pre, Send, p, Tag(d, 1 - side)))
        == Ok(if side == 0 then LowerMsg(g, world, d, b, size, p) else UpperMsg(g, world, d, b, size, p))
  {
    if Neighbor(g, p, d, side).Rank? {
      var q := Neighbor(g, p, d, side).id;
      if plans[q] == pre + DirBegin(g, q, d, b, dsize, count) + post {
        FacingSend(g, q, d, b, dsize, count, p, side);
        SourceInMiddle(world, plans, q, p, Tag(d, 1 - side), pre, DirBegin(g, q, d, b, dsize, count), post, 1 - side);
        FacingPayload(g, world, q, d, b, dsize, count, p, side);
      }
    }
  }

  /**
   When the requests rs of process q, posted after pre and before post, hold the first send to p
   with tag t at position k, the receive that follows as many matching receives as pre has
   matching sends takes that send.
   */
  lemma SourceInMiddle(world: seq<Memory>, plans: seq<seq<Request>>, q: nat, p: nat, t: nat,
                       pre: seq<Request>, rs: seq<Request>, post: seq<Request>, k: nat)
    requires |plans| == |world| && q < |world| && plans[q] == pre + rs + post
    requires FindSend(rs, p, t, 0) == Some(k)
    ensures Source(world, plans, q, p, t, Count(pre, Send, p, t)) == Payload(world[q], rs[k])
  {
    var j := Count(pre, Send, p, t);
    CountAppend(pre, rs, Send, p, t);
    FindSendAppend(pre + rs, post, p, t, j);
    FindSendAppend(pre, rs, p, t, j);
    assert FindSend(plans[q], p, t, j) == Some(|pre| + k);
    assert plans[q][|pre| + k] == rs[k];
  }

  /** The bytes of the send that faces p in its neighbor's directional requests. */
  lemma FacingPayload(g: Grid, world: seq<Memory>, q: nat, d: nat, b: nat, dsize: nat, count: nat, p: nat, side: nat)
    requires ValidGrid(g) && |world| == Size(g) && d < 3 && p < Size(g) && side < 2
    requires WideEnough(world, b, 4 * RegionSize(dsize, count))
    ensures var size := RegionSize(dsize, count);
      (Neighbor(g, p, d, side) == Rank(q)) ==>
      Payload(world[q], DirBegin(g, q, d, b, dsize, count)[1 - side])
        == Ok(if side == 0 then LowerMsg(g, world, d, b, size, p) else UpperMsg(g, world, d, b, size, p))
  {
    if Neighbor(g, p, d, side) == Rank(q) {
      if side == 0 {
        LowerThenUpper(g, p, q, d);
      } else {
        UpperThenLower(g, q, p, d);
      }
    }
  }

  /** Completing a request list in two pieces is completing the first and then the second. */
  lemma {:induction false} ApplyRecvsAppend(world: seq<Memory>, plans: seq<seq<Request>>, p: nat, done: seq<Request>, acc: Memory,
                                            a: seq<Request>, c: seq<Request>)
    requires |plans| == |world|
    ensures ApplyRecvs(world, plans, p, done, acc, a + c) ==
      match ApplyRecvs(world, plans, p, done, acc, a)
      case Err(e) => Err(e)
      case Ok(m) => ApplyRecvs(world, plans, p, done + a, m, c)
    decreases |a|
  {
    if |a| == 0 {
      assert a + c == c;
      assert done + a == done;
    } else {
      assert (a + c)[0] == a[0];
      assert (a + c)[1..] == a[1..] + c;
      var rq := a[0];
      assert done + [rq] + a[1..] == done + a;
      if rq.kind == Send || rq.peer == ProcNull {
        ApplyRecvsAppend(world, plans, p, done + [rq], acc, a[1..], c);
      } else {
        match Source(world, plans, rq.peer.id, p, rq.tag, Count(done, Recv, rq.peer.id, rq.tag))
        case Err(e) =>
        case Ok(m) =>
          if |m| <= rq.len && rq.buffer < |acc| && rq.offset + rq.len <= |acc[rq.buffer]| {
            ApplyRecvsAppend(world, plans, p, done + [rq], acc[rq.buffer := Write(acc[rq.buffer], rq.offset, m)], a[1..], c);
          }
      }
    }
  }

  /** Two receives written into regions 2 and 3 of a buffer give the exchanged buffer. */
  lemma WriteRegions(own: seq<Byte>, size: nat, m2: seq<Byte>, m3: seq<Byte>)
    requires |own| >= 4 * size && |m2| == size && |m3| == size
    ensures Write(Write(own, 2 * size, m2), 3 * size, m3) == own[..2 * size] + m2 + m3 + own[4 * size..]
  {
    var r := Write(Write(own, 2 * size, m2), 3 * size, m3);
    var e := own[..2 * size] + m2 + m3 + own[4 * size..];
    assert |r| == |e|;
    forall i | 0 <= i < |r|
      ensures r[i] == e[i]
    {
      if i < 2 * size {
      } else if i < 3 * size {
        assert Write(own, 2 * size, m2)[2 * size..3 * size][i - 2 * size] == m2[i - 2 * size];
      } else if i < 4 * size {
        assert r[3 * size..4 * size][i - 3 * size] == m3[i - 3 * size];
      }
    }
  }

  /** A send, or a receive from MPI_PROC_NULL, completes without changing the memory. */
  lemma SkipOne(world: seq<Memory>, plans: seq<seq<Request>>, p: nat, done: seq<Request>, acc: Memory, rs: seq<Request>)
    requires |plans| == |world| && |rs| > 0
    requires rs[0].kind == Send || rs[0].peer == ProcNull
    ensures ApplyRecvs(world, plans, p, done, acc, rs) == ApplyRecvs(world, plans, p, done + [rs[0]], acc, rs[1..])
  {
  }

  /** A matched receive writes its message at the start of its region. */
  lemma RecvOne(world: seq<Memory>, plans: seq<seq<Request>>, p: nat, done: seq<Request>, acc: Memory, rs: seq<Request>, m: seq<Byte>)
    requires |plans| == |world| && |rs| > 0
    requires rs[0].kind == Recv && rs[0].peer.Rank?
    requires Source(world, plans, rs[0].peer.id, p, rs[0].tag, Count(done, Recv, rs[0].peer.id, rs[0].tag)) == Ok(m)
    requires |m| == rs[0].len && rs[0].buffer < |acc| && rs[0].offset + rs[0].len <= |acc[rs[0].buffer]|
    ensures ApplyRecvs(world, plans, p, done, acc, rs)
      == ApplyRecvs(world, plans, p, done + [rs[0]], acc[rs[0].buffer := Write(acc[rs[0].buffer], rs[0].offset, m)], rs[1..])
  {
  }

  /** Two leading sends complete without changing the memory. */
  lemma TwoSends(world: seq<Memory>, plans: seq<seq<Request>>, p: nat, done: seq<Request>, acc: Memory, rs: seq<Request>)
    requires |plans| == |world| && |rs| >= 2 && rs[0].kind == Send && rs[1].kind == Send
    ensures ApplyRecvs(world, plans, p, done, acc, rs) == ApplyRecvs(world, plans, p, done + rs[..2], acc, rs[2..])
  {
    SkipOne(world, plans, p, done, acc, rs);
    SkipOne(world, plans, p, done + [rs[0]], acc, rs[1..]);
    assert rs[1..][1..] == rs[2..];
    assert done + [rs[0]] + [rs[1..][0]] == done + rs[..2];
  }

  /** A receive region ends up holding its message, also when the peer is MPI_PROC_NULL and the message is what it held. */
  lemma RecvOrKeep(world: seq<Memory>, plans: seq<seq<Request>>, p: nat, done: seq<Request>, acc: Memory, rs: seq<Request>,
                   b: nat, off: nat, size: nat, peer: Peer, t: nat, m: seq<Byte>)
    requires |plans| == |world| && |rs| > 0
    requires rs[0] == Request(Recv, peer, t, b, off, size)
    requires b < |acc| && off + size <= |acc[b]| && |m| == size
    requires peer.Rank? ==> Source(world, plans, peer.id, p, t, Count(done, Recv, peer.id, t)) == Ok(m)
    requires peer == ProcNull ==> m == acc[b][off..off + size]
    ensures ApplyRecvs(world, plans, p, done, acc, rs)
      == ApplyRecvs(world, plans, p, done + [rs[0]], acc[b := Write(acc[b], off, m)], rs[1..])
  {
    if peer.Rank? {
      RecvOne(world, plans, p, done, acc, rs, m);
    } else {
      SkipOne(world, plans, p, done, acc, rs);
      assert Write(acc[b], off, m) == acc[b];
      assert acc[b := acc[b]] == acc;
    }
  }

  /**
   Four requests laid out as a directional exchange lays them out, completed on a memory acc
   after the requests `done`: regions 2 and 3 of buffer b receive m2 and m3, and nothing else
   changes. Each receive takes the send whose rank among its peer's matching sends is the
   number of matching receives in `done`.
   */
  lemma FourRegions(world: seq<Memory>, plans: seq<seq<Request>>, p: nat, done: seq<Request>, acc: Memory, rs: seq<Request>,
                    b: nat, size: nat, lower: Peer, upper: Peer, t0: nat, t1: nat, m2: seq<Byte>, m3: seq<Byte>)
    requires |plans| == |world| && t0 != t1
    requires rs == [ Request(Send, lower, t0, b, 0, size), Request(Send, upper, t1, b, size, size),
                     Request(Recv, lower, t1, b, 2 * size, size), Request(Recv, upper, t0, b, 3 * size, size) ]
    requires b < |acc| && |acc[b]| >= 4 * size && |m2| == size && |m3| == size
    requires lower.Rank? ==> Source(world, plans, lower.id, p, t1, Count(done, Recv, lower.id, t1)) == Ok(m2)
    requires lower == ProcNull ==> m2 == acc[b][2 * size..3 * size]
    requires upper.Rank? ==> Source(world, plans, upper.id, p, t0, Count(done, Recv, upper.id, t0)) == Ok(m3)
    requires upper == ProcNull ==> m3 == acc[b][3 * size..4 * size]
    ensures ApplyRecvs(world, plans, p, done, acc, rs) == Ok(acc[b := acc[b][..2 * size] + m2 + m3 + acc[b][4 * size..]])
  {
    TwoSends(world, plans, p, done, acc, rs);
    OrdinalsInFour(done, rs, b, size, lower, upper, t0, t1);
    TwoRecvs(world, plans, p, done + rs[..2], acc, rs[2..], b, size, lower, upper, t0, t1, m2, m3);
    WriteRegions(acc[b], size, m2, m3);
  }

  /** The two receives of a directional exchange, completed after the requests `done`. */
  lemma TwoRecvs(world: seq<Memory>, plans: seq<seq<Request>>, p: nat, done: seq<Request>, acc: Memory, rs: seq<Request>,
                 b: nat, size: nat, lower: Peer, upper: Peer, t0: nat, t1: nat, m2: seq<Byte>, m3: seq<Byte>)
    requires |plans| == |world|
    requires rs == [ Request(Recv, lower, t1, b, 2 * size, size), Request(Recv, upper, t0, b, 3 * size, size) ]
    requires b < |acc| && |acc[b]| >= 4 * size && |m2| == size && |m3| == size
    requires lower.Rank? ==> Source(world, plans, lower.id, p, t1, Count(done, Recv, lower.id, t1)) == Ok(m2)
    requires lower == ProcNull ==> m2 == acc[b][2 * size..3 * size]
    requires upper.Rank? ==> Source(world, plans, upper.id, p, t0, Count(done + [rs[0]], Recv, upper.id, t0)) == Ok(m3)
    requires upper == ProcNull ==> m3 == acc[b][3 * size..4 * size]
    ensures ApplyRecvs(world, plans, p, done, acc, rs) == Ok(acc[b := Write(Write(acc[b], 2 * size, m2), 3 * size, m3)])
  {
    var own := acc[b];
    var mid := Write(own, 2 * size, m2);
    var fin := Write(mid, 3 * size, m3);
    RecvOrKeep(world, plans, p, done, acc, rs, b, 2 * size, size, lower, t1, m2);
    var acc2 := acc[b := mid];
    assert mid[3 * size..4 * size] == own[3 * size..4 * size];
    RecvOrKeep(world, plans, p, done + [rs[0]], acc2, rs[1..], b, 3 * size, size, upper, t0, m3);
    assert rs[1..][1..] == [];
    assert acc2[b := fin] == acc[b := fin];
  }

  /** Inside a directional exchange, the sends and the first receive do not move the ordinals of the receives after them. */
  lemma OrdinalsInFour(done: seq<Request>, rs: seq<Request>, b: nat, size: nat, lower: Peer, upper: Peer, t0: nat, t1: nat)
    requires t0 != t1
    requires rs == [ Request(Send, lower, t0, b, 0, size), Request(Send, upper, t1, b, size, size),
                     Request(Recv, lower, t1, b, 2 * size, size), Request(Recv, upper, t0, b, 3 * size, size) ]
    ensures lower.Rank? ==> Count(done + rs[..2], Recv, lower.id, t1) == Count(done, Recv, lower.id, t1)
    ensures upper.Rank? ==> Count(done + rs[..2] + [rs[2..][0]], Recv, upper.id, t0) == Count(done, Recv, upper.id, t0)
    ensures rs[2..][0] == rs[2]
  {
    if lower.Rank? {
      CountNone(rs[..2], Recv, lower.id, t1);
      CountAppend(done, rs[..2], Recv, lower.id, t1);
    }
    if upper.Rank? {
      assert done + rs[..2] + [rs[2..][0]] == done + rs[..3];
      CountNone(rs[..3], Recv, upper.id, t0);
      CountAppend(done, rs[..3], Recv, upper.id, t0);
    }
  }

  /**
   The four requests of a directional exchange, completed on process p after the requests
   `done`, leave the exchanged buffer in place of buffer b, provided each neighbor's send that
   the receive is paired with carries its region as the exchange does.
   */
  lemma DirBlock(g: Grid, world: seq<Memory>, plans: seq<seq<Request>>, d: nat, b: nat, dsize: nat, count: nat, p: nat,
                 done: seq<Request>, acc: Memory)
    requires ValidGrid(g) && |world| == Size(g) && |plans| == |world| && d < 3 && p < Size(g)
    requires WideEnough(world, b, 4 * RegionSize(dsize, count))
    requires Neighbor(g, p, d, 0).Rank? ==>
      Source(world, plans, Neighbor(g, p, d, 0).id, p, Tag(d, 1), Count(done, Recv, Neighbor(g, p, d, 0).id, Tag(d, 1)))
        == Ok(LowerMsg(g, world, d, b, RegionSize(dsize, count), p))
    requires Neighbor(g, p, d, 1).Rank? ==>
      Source(world, plans, Neighbor(g, p, d, 1).id, p, Tag(d, 0), Count(done, Recv, Neighbor(g, p, d, 1).id, Tag(d, 0)))
        == Ok(UpperMsg(g, world, d, b, RegionSize(dsize, count), p))
    requires b < |acc| && acc[b] == world[p][b]
    ensures ApplyRecvs(world, plans, p, done, acc, DirBegin(g, p, d, b, dsize, count))
      == Ok(acc[b := Exchanged(g, world, d, b, RegionSize(dsize, count), p)])
  {
    var size := RegionSize(dsize, count);
    var lower := Neighbor(g, p, d, 0);
    var upper := Neighbor(g, p, d, 1);
    var m2 := LowerMsg(g, world, d, b, size, p);
    var m3 := UpperMsg(g, world, d, b, size, p);
    var rs := DirBegin(g, p, d, b, dsize, count);
    assert rs == [ Request(Send, lower, Tag(d, 0), b, 0, size), Request(Send, upper, Tag(d, 1), b, size, size),
                   Request(Recv, lower, Tag(d, 1), b, 2 * size, size), Request(Recv, upper, Tag(d, 0), b, 3 * size, size) ];
    FourRegions(world, plans, p, done, acc, rs, b, size, lower, upper, Tag(d, 0), Tag(d, 1), m2, m3);
  }

  /** Completing all requests of every process from position p on, when each one is known. */
  lemma {:induction false} CompleteEach(world: seq<Memory>, plans: seq<seq<Request>>, p: nat, expected: seq<Memory>)
    requires |plans| == |world| == |expected| && p <= |world|
    requires forall q :: p <= q < |world| ==> ApplyRecvs(world, plans, q, [], world[q], plans[q]) == Ok(expected[q])
    ensures CompleteFrom(world, plans, p) == Ok(expected[p..])
    decreases |world| - p
  {
    if p < |world| {
      CompleteEach(world, plans, p + 1, expected);
      assert expected[p..] == [expected[p]] + expected[p + 1..];
    } else {
      assert expected[p..] == [];
    }
  }

  /**
   Round trip of bc_exchange_dir_begin followed by the wait on every process: each process's
   receive-lower region holds its lower neighbor's send-upper region, its receive-upper region
   its upper neighbor's send-lower region (including when both neighbors are the same process),
   a region whose peer is MPI_PROC_NULL keeps its bytes, and nothing else changes.
   */
  lemma DirExchange(g: Grid, world: seq<Memory>, d: nat, b: nat, dsize: nat, count: nat)
    requires ValidGrid(g) && |world| == Size(g) && d < 3
    requires WideEnough(world, b, 4 * RegionSize(dsize, count))
    ensures var r := Complete(world, DirPlans(g, d, b, dsize, count));
      r.Ok? && forall p :: 0 <= p < Size(g) ==> r.value[p] == world[p][b := Exchanged(g, world, d, b, RegionSize(dsize, count), p)]
  {
    var plans := DirPlans(g, d, b, dsize, count);
    var expected := seq(Size(g), p requires 0 <= p < Size(g) => world[p][b := Exchanged(g, world, d, b, RegionSize(dsize, count), p)]);
    forall p | 0 <= p < Size(g)
      ensures ApplyRecvs(world, plans, p, [], world[p], plans[p]) == Ok(expected[p])
    {
      DirOne(g, world, d, b, dsize, count, p);
    }
    CompleteEach(world, plans, 0, expected);
    assert expected[0..] == expected;
  }

  /** One process's share of DirExchange. */
  lemma DirOne(g: Grid, world: seq<Memory>, d: nat, b: nat, dsize: nat, count: nat, p: nat)
    requires ValidGrid(g) && |world| == Size(g) && d < 3 && p < Size(g)
    requires WideEnough(world, b, 4 * RegionSize(dsize, count))
    ensures ApplyRecvs(world, DirPlans(g, d, b, dsize, count), p, [], world[p], DirPlans(g, d, b, dsize, count)[p])
      == Ok(world[p][b := Exchanged(g, world, d, b, RegionSize(dsize, count), p)])
  {
    var plans := DirPlans(g, d, b, dsize, count);
    DirNeighbor(g, world, d, b, dsize, count, p, 0);
    DirNeighbor(g, world, d, b, dsize, count, p, 1);
    DirBlock(g, world, plans, d, b, dsize, count, p, [], world[p]);
  }

  /** In the directional plan, the neighbor on one side sends what the exchange delivers there. */
  lemma DirNeighbor(g: Grid, world: seq<Memory>, d: nat, b: nat, dsize: nat, count: nat, p: nat, side: nat)
    requires ValidGrid(g) && |world| == Size(g) && d < 3 && p < Size(g) && side < 2
    requires WideEnough(world, b, 4 * RegionSize(dsize, count))
    ensures Neighbor(g, p, d, side).Rank? ==>
      var size := RegionSize(dsize, count);
      Source(world, DirPlans(g, d, b, dsize, count), Neighbor(g, p, d, side).id, p, Tag(d, 1 - side), 0)
        == Ok(if side == 0 then LowerMsg(g, world, d, b, size, p) else UpperMsg(g, world, d, b, size, p))
  {
    if Neighbor(g, p, d, side).Rank? {
      var q := Neighbor(g, p, d, side).id;
      assert DirPlans(g, d, b, dsize, count)[q] == [] + DirBegin(g, q, d, b, dsize, count) + [];
      DirSource(g, world, DirPlans(g, d, b, dsize, count), d, b, dsize, count, p, side, [], []);
    }
  }

  /** Every request of a directional exchange carries one of its direction's two tags. */
  lemma DirTags(g: Grid, r: nat, dir: nat, buffer: nat, dsize: nat, count: nat)
    requires ValidGrid(g) && r < Size(g) && dir < 3
    ensures var rs := DirBegin(g, r, dir, buffer, dsize, count);
      forall k :: 0 <= k < 4 ==> rs[k].tag == 2 * dir || rs[k].tag == 2 * dir + 1
  {
    var rs := DirBegin(g, r, dir, buffer, dsize, count);
    assert rs[0].tag == 2 * dir && rs[3].tag == 2 * dir;
    assert rs[1].tag == 2 * dir + 1 && rs[2].tag == 2 * dir + 1;
  }

  /** No request of direction e carries a tag of another direction. */
  lemma OtherDirectionSilent(g: Grid, q: nat, e: nat, dsize: nat, count: nat, d: nat)
    requires ValidGrid(g) && q < Size(g) && e < 3 && d < 3 && d != e
    ensures forall kind, who, s :: 0 <= s < 2 ==> Count(DirBegin(g, q, e, e, dsize, count), kind, who, Tag(d, s)) == 0
  {
    var rs := DirBegin(g, q, e, e, dsize, count);
    DirTags(g, q, e, e, dsize, count);
    forall kind, who, s | 0 <= s < 2
      ensures Count(rs, kind, who, Tag(d, s)) == 0
    {
      CountNone(rs, kind, who, Tag(d, s));
    }
  }

  /**
   bc_exchange_begin followed by the wait on every process performs the three directional
   exchanges at once, direction d on buffer d: the tags keep the directions apart.
   */
  lemma BeginExchange(g: Grid, world: seq<Memory>, dsize: nat, count: seq<nat>)
    requires ValidGrid(g) && |world| == Size(g) && |count| == 3
    requires BeginWide(world, dsize, count)
    ensures var r := Complete(world, BeginPlans(g, dsize, count));
      r.Ok? && forall p :: 0 <= p < Size(g) ==>
        r.value[p] == world[p][0 := Exchanged(g, world, 0, 0, RegionSize(dsize, count[0]), p)]
                             [1 := Exchanged(g, world, 1, 1, RegionSize(dsize, count[1]), p)]
                             [2 := Exchanged(g, world, 2, 2, RegionSize(dsize, count[2]), p)]
  {
    var plans := BeginPlans(g, dsize, count);
    var expected := seq(Size(g), p requires 0 <= p < Size(g) =>
      world[p][0 := Exchanged(g, world, 0, 0, RegionSize(dsize, count[0]), p)]
              [1 := Exchanged(g, world, 1, 1, RegionSize(dsize, count[1]), p)]
              [2 := Exchanged(g, world, 2, 2, RegionSize(dsize, count[2]), p)]);
    forall p | 0 <= p < Size(g)
      ensures ApplyRecvs(world, plans, p, [], world[p], plans[p]) == Ok(expected[p])
    {
      BeginOne(g, world, dsize, count, p);
    }
    CompleteEach(world, plans, 0, expected);
    assert expected[0..] == expected;
  }

  lemma BeginOne(g: Grid, world: seq<Memory>, dsize: nat, count: seq<nat>, p: nat)
    requires ValidGrid(g) && |world| == Size(g) && |count| == 3 && p < Size(g)
    requires BeginWide(world, dsize, count)
    ensures ApplyRecvs(world, BeginPlans(g, dsize, count), p, [], world[p], BeginPlans(g, dsize, count)[p])
      == Ok(world[p][0 := Exchanged(g, world, 0, 0, RegionSize(dsize, count[0]), p)]
                    [1 := Exchanged(g, world, 1, 1, RegionSize(dsize, count[1]), p)]
                    [2 := Exchanged(g, world, 2, 2, RegionSize(dsize, count[2]), p)])
  {
    var plans := BeginPlans(g, dsize, count);
    var b0 := DirBegin(g, p, 0, 0, dsize, count[0]);
    var b1 := DirBegin(g, p, 1, 1, dsize, count[1]);
    var b2 := DirBegin(g, p, 2, 2, dsize, count[2]);
    var m0 := world[p][0 := Exchanged(g, world, 0, 0, RegionSize(dsize, count[0]), p)];
    var m1 := m0[1 := Exchanged(g, world, 1, 1, RegionSize(dsize, count[1]), p)];
    var m2 := m1[2 := Exchanged(g, world, 2, 2, RegionSize(dsize, count[2]), p)];
    BeginPlanPieces(g, dsize, count, p);
    BeginSilent(g, dsize, count, p);
    BeginBlock(g, world, dsize, count, p, 0, [], world[p]);
    BeginBlock(g, world, dsize, count, p, 1, b0, m0);
    BeginBlock(g, world, dsize, count, p, 2, b0 + b1, m1);
    ThreeBlocks(world, plans, p, world[p], b0, b1, b2, m0, m1, m2);
  }

  /** The exchanges along directions 0 and 1 hold no receive with a tag of a later direction. */
  lemma BeginSilent(g: Grid, dsize: nat, count: seq<nat>, p: nat)
    requires ValidGrid(g) && |count| == 3 && p < Size(g)
    ensures var b0 := DirBegin(g, p, 0, 0, dsize, count[0]);
      var b1 := DirBegin(g, p, 1, 1, dsize, count[1]);
      (forall who, s :: 0 <= s < 2 ==> Count(b0, Recv, who, Tag(1, s)) == 0)
      && (forall who, s :: 0 <= s < 2 ==> Count(b0 + b1, Recv, who, Tag(2, s)) == 0)
  {
    var b0 := DirBegin(g, p, 0, 0, dsize, count[0]);
    var b1 := DirBegin(g, p, 1, 1, dsize, count[1]);
    OtherDirectionSilent(g, p, 0, dsize, count[0], 1);
    OtherDirectionSilent(g, p, 0, dsize, count[0], 2);
    OtherDirectionSilent(g, p, 1, dsize, count[1], 2);
    forall who, s | 0 <= s < 2
      ensures Count(b0 + b1, Recv, who, Tag(2, s)) == 0
    {
      CountAppend(b0, b1, Recv, who, Tag(2, s));
    }
  }

  /** Completing three request lists in a row, each after the ones before it. */
  lemma ThreeBlocks(world: seq<Memory>, plans: seq<seq<Request>>, p: nat, acc: Memory,
                    a: seq<Request>, b: seq<Request>, c: seq<Request>, m0: Memory, m1: Memory, m2: Memory)
    requires |plans| == |world|
    requires ApplyRecvs(world, plans, p, [], acc, a) == Ok(m0)
    requires ApplyRecvs(world, plans, p, a, m0, b) == Ok(m1)
    requires ApplyRecvs(world, plans, p, a + b, m1, c) == Ok(m2)
    ensures ApplyRecvs(world, plans, p, [], acc, a + b + c) == Ok(m2)
  {
    ApplyRecvsAppend(world, plans, p, [], acc, a, b);
    assert [] + a == a;
    ApplyRecvsAppend(world, plans, p, [], acc, a + b, c);
    assert [] + (a + b) == a + b;
  }

  /**
   Direction d of the twelve-request plan, completed after requests that hold no receive with a
   tag of direction d, on a memory whose buffer d is untouched.
   */
  lemma BeginBlock(g: Grid, world: seq<Memory>, dsize: nat, count: seq<nat>, p: nat, d: nat, done: seq<Request>, acc: Memory)
    requires ValidGrid(g) && |world| == Size(g) && |count| == 3 && p < Size(g) && d < 3
    requires WideEnough(world, d, 4 * (RegionSize(dsize, count[d])))
    requires forall who, s :: 0 <= s < 2 ==> Count(done, Recv, who, Tag(d, s)) == 0
    requires d < |acc| && acc[d] == world[p][d]
    ensures ApplyRecvs(world, BeginPlans(g, dsize, count), p, done, acc, DirBegin(g, p, d, d, dsize, count[d]))
      == Ok(acc[d := Exchanged(g, world, d, d, RegionSize(dsize, count[d]), p)])
  {
    var plans := BeginPlans(g, dsize, count);
    BeginNeighbor(g, world, dsize, count, p, d, 0);
    BeginNeighbor(g, world, dsize, count, p, d, 1);
    DirBlock(g, world, plans, d, d, dsize, count[d], p, done, acc);
  }

  /** In the twelve-request plan, the neighbor on one side of direction d sends what DirBegin would. */
  lemma BeginNeighbor(g: Grid, world: seq<Memory>, dsize: nat, count: seq<nat>, p: nat, d: nat, side: nat)
    requires ValidGrid(g) && |world| == Size(g) && |count| == 3 && p < Size(g) && d < 3 && side < 2
    requires WideEnough(world, d, 4 * (RegionSize(dsize, count[d])))
    ensures Neighbor(g, p, d, side).Rank? ==>
      var size := RegionSize(dsize, count[d]);
      Source(world, BeginPlans(g, dsize, count), Neighbor(g, p, d, side).id, p, Tag(d, 1 - side), 0)
        == Ok(if side == 0 then LowerMsg(g, world, d, d, size, p) else UpperMsg(g, world, d, d, size, p))
  {
    if Neighbor(g, p, d, side).Rank? {
      var q := Neighbor(g, p, d, side).id;
      var plans := BeginPlans(g, dsize, count);
      var b0 := DirBegin(g, q, 0, 0, dsize, count[0]);
      var b1 := DirBegin(g, q, 1, 1, dsize, count[1]);
      var b2 := DirBegin(g, q, 2, 2, dsize, count[2]);
      var t := Tag(d, 1 - side);
      BeginPlanPieces(g, dsize, count, q);
      Regroup(b0, b1, b2);
      if d == 0 {
        assert Count([], Send, p, t) == 0;
        DirSource(g, world, plans, d, d, dsize, count[d], p, side, [], b1 + b2);
      } else if d == 1 {
        OtherDirectionSilent(g, q, 0, dsize, count[0], d);
        assert Count(b0, Send, p, t) == 0;
        DirSource(g, world, plans, d, d, dsize, count[d], p, side, b0, b2);
      } else {
        OtherDirectionSilent(g, q, 0, dsize, count[0], d);
        OtherDirectionSilent(g, q, 1, dsize, count[1], d);
        CountAppend(b0, b1, Send, p, t);
        assert Count(b0 + b1, Send, p, t) == 0;
        DirSource(g, world, plans, d, d, dsize, count[d], p, side, b0 + b1, []);
      }
    }
  }

  /** Process q's plan in the twelve-request exchange is its three directional exchanges in turn. */
  lemma BeginPlanPieces(g: Grid, dsize: nat, count: seq<nat>, q: nat)
    requires ValidGrid(g) && |count| == 3 && q < Size(g)
    ensures BeginPlans(g, dsize, count)[q]
      == DirBegin(g, q, 0, 0, dsize, count[0]) + DirBegin(g, q, 1, 1, dsize, count[1]) + DirBegin(g, q, 2, 2, dsize, count[2])
  {
    BeginIsThreeDirBegins(g, q, dsize, count);
  }

  /** Three request lists in a row, grouped each way the exchange lemmas take them. */
  lemma Regroup(a: seq<Request>, b: seq<Request>, c: seq<Request>)
    ensures a + b + c == [] + a + (b + c) && a + b + c == (a + b) + c + []
  {
  }

  // ----- two exchanges in flight -----

  /** Every process posts bc_exchange_dir_begin along d twice, on buffer b0 and then on buffer b1, before one wait. */
  function TwoDirPlans(g: Grid, d: nat, b0: nat, b1: nat, dsize: nat, c0: nat, c1: nat): (plans: seq<seq<Request>>)
    requires ValidGrid(g) && d < 3
    ensures |plans| == Size(g)
    ensures forall r :: 0 <= r < Size(g) ==>
      plans[r] == DirBegin(g, r, d, b0, dsize, c0) + DirBegin(g, r, d, b1, dsize, c1)
  {
    seq(Size(g), r requires 0 <= r < Size(g) => DirBegin(g, r, d, b0, dsize, c0) + DirBegin(g, r, d, b1, dsize, c1))
  }

  /**
   Two exchanges along the same direction in flight at once, on different buffers: the tags
   coincide, and the non-overtaking rule pairs the first receive from a neighbor with that
   neighbor's first send and the second with the second, so each buffer gets its own exchange.
   */
  lemma TwoDirExchanges(g: Grid, world: seq<Memory>, d: nat, b0: nat, b1: nat, dsize: nat, c0: nat, c1: nat)
    requires ValidGrid(g) && |world| == Size(g) && d < 3 && b0 != b1
    requires WideEnough(world, b0, 4 * RegionSize(dsize, c0)) && WideEnough(world, b1, 4 * RegionSize(dsize, c1))
    ensures var r := Complete(world, TwoDirPlans(g, d, b0, b1, dsize, c0, c1));
      r.Ok? && forall p :: 0 <= p < Size(g) ==>
        r.value[p] == world[p][b0 := Exchanged(g, world, d, b0, RegionSize(dsize, c0), p)]
                              [b1 := Exchanged(g, world, d, b1, RegionSize(dsize, c1), p)]
  {
    var plans := TwoDirPlans(g, d, b0, b1, dsize, c0, c1);
    var expected := seq(Size(g), p requires 0 <= p < Size(g) =>
      world[p][b0 := Exchanged(g, world, d, b0, RegionSize(dsize, c0), p)]
              [b1 := Exchanged(g, world, d, b1, RegionSize(dsize, c1), p)]);
    forall p | 0 <= p < Size(g)
      ensures ApplyRecvs(world, plans, p, [], world[p], plans[p]) == Ok(expected[p])
    {
      TwoDirOne(g, world, d, b0, b1, dsize, c0, c1, p);
    }
    CompleteEach(world, plans, 0, expected);
    assert expected[0..] == expected;
  }

  /** One process's share of TwoDirExchanges. */
  lemma TwoDirOne(g: Grid, world: seq<Memory>, d: nat, b0: nat, b1: nat, dsize: nat, c0: nat, c1: nat, p: nat)
    requires ValidGrid(g) && |world| == Size(g) && d < 3 && b0 != b1 && p < Size(g)
    requires WideEnough(world, b0, 4 * RegionSize(dsize, c0)) && WideEnough(world, b1, 4 * RegionSize(dsize, c1))
    ensures var plans := TwoDirPlans(g, d, b0, b1, dsize, c0, c1);
      ApplyRecvs(world, plans, p, [], world[p], plans[p])
        == Ok(world[p][b0 := Exchanged(g, world, d, b0, RegionSize(dsize, c0), p)]
                      [b1 := Exchanged(g, world, d, b1, RegionSize(dsize, c1), p)])
  {
    var plans := TwoDirPlans(g, d, b0, b1, dsize, c0, c1);
    var first := DirBegin(g, p, d, b0, dsize, c0);
    var m0 := world[p][b0 := Exchanged(g, world, d, b0, RegionSize(dsize, c0), p)];
    TwoDirFirst(g, world, d, b0, b1, dsize, c0, c1, p);
    TwoDirSecond(g, world, d, b0, b1, dsize, c0, c1, p);
    ApplyRecvsAppend(world, plans, p, [], world[p], first, DirBegin(g, p, d, b1, dsize, c1));
    assert [] + first == first;
  }

  /** The first exchange of TwoDirOne, completed on p's memory as it was. */
  lemma TwoDirFirst(g: Grid, world: seq<Memory>, d: nat, b0: nat, b1: nat, dsize: nat, c0: nat, c1: nat, p: nat)
    requires ValidGrid(g) && |world| == Size(g) && d < 3 && p < Size(g)
    requires WideEnough(world, b0, 4 * RegionSize(dsize, c0)) && WideEnough(world, b1, 4 * RegionSize(dsize, c1))
    ensures ApplyRecvs(world, TwoDirPlans(g, d, b0, b1, dsize, c0, c1), p, [], world[p], DirBegin(g, p, d, b0, dsize, c0))
      == Ok(world[p][b0 := Exchanged(g, world, d, b0, RegionSize(dsize, c0), p)])
  {
    TwoDirNeighbor(g, world, d, b0, b1, dsize, c0, c1, p, 0);
    TwoDirNeighbor(g, world, d, b0, b1, dsize, c0, c1, p, 1);
    DirBlock(g, world, TwoDirPlans(g, d, b0, b1, dsize, c0, c1), d, b0, dsize, c0, p, [], world[p]);
  }

  /** The second exchange of TwoDirOne, completed after the first one's requests. */
  lemma TwoDirSecond(g: Grid, world: seq<Memory>, d: nat, b0: nat, b1: nat, dsize: nat, c0: nat, c1: nat, p: nat)
    requires ValidGrid(g) && |world| == Size(g) && d < 3 && b0 != b1 && p < Size(g)
    requires WideEnough(world, b0, 4 * RegionSize(dsize, c0)) && WideEnough(world, b1, 4 * RegionSize(dsize, c1))
    ensures var m0 := world[p][b0 := Exchanged(g, world, d, b0, RegionSize(dsize, c0), p)];
      ApplyRecvs(world, TwoDirPlans(g, d, b0, b1, dsize, c0, c1), p, DirBegin(g, p, d, b0, dsize, c0), m0, DirBegin(g, p, d, b1, dsize, c1))
        == Ok(m0[b1 := Exchanged(g, world, d, b1, RegionSize(dsize, c1), p)])
  {
    var m0 := world[p][b0 := Exchanged(g, world, d, b0, RegionSize(dsize, c0), p)];
    TwoDirNeighbor(g, world, d, b0, b1, dsize, c0, c1, p, 0);
    TwoDirNeighbor(g, world, d, b0, b1, dsize, c0, c1, p, 1);
    DirBlock(g, world, TwoDirPlans(g, d, b0, b1, dsize, c0, c1), d, b1, dsize, c1, p, DirBegin(g, p, d, b0, dsize, c0), m0);
  }

  /**
   With two exchanges in flight, the neighbor on one side delivers its first exchange's region
   to p's first matching receive and its second exchange's region to the second.
   */
  lemma TwoDirNeighbor(g: Grid, world: seq<Memory>, d: nat, b0: nat, b1: nat, dsize: nat, c0: nat, c1: nat, p: nat, side: nat)
    requires ValidGrid(g) && |world| == Size(g) && d < 3 && p < Size(g) && side < 2
    requires WideEnough(world, b0, 4 * RegionSize(dsize, c0)) && WideEnough(world, b1, 4 * RegionSize(dsize, c1))
    ensures Neighbor(g, p, d, side).Rank? ==>
      var plans := TwoDirPlans(g, d, b0, b1, dsize, c0, c1);
      var q := Neighbor(g, p, d, side).id;
      var t := Tag(d, 1 - side);
      Source(world, plans, q, p, t, 0)
        == Ok(if side == 0 then LowerMsg(g, world, d, b0, RegionSize(dsize, c0), p) else UpperMsg(g, world, d, b0, RegionSize(dsize, c0), p))
      && Source(world, plans, q, p, t, Count(DirBegin(g, p, d, b0, dsize, c0), Recv, q, t))
        == Ok(if side == 0 then LowerMsg(g, world, d, b1, RegionSize(dsize, c1), p) else UpperMsg(g, world, d, b1, RegionSize(dsize, c1), p))
  {
    if Neighbor(g, p, d, side).Rank? {
      var plans := TwoDirPlans(g, d, b0, b1, dsize, c0, c1);
      var q := Neighbor(g, p, d, side).id;
      var t := Tag(d, 1 - side);
      var first := DirBegin(g, q, d, b0, dsize, c0);
      var second := DirBegin(g, q, d, b1, dsize, c1);
      assert plans[q] == [] + first + second;
      DirSource(g, world, plans, d, b0, dsize, c0, p, side, [], second);
      assert plans[q] == first + second + [];
      DirSource(g, world, plans, d, b1, dsize, c1, p, side, first, []);
      FacingSend(g, q, d, b0, dsize, c0, p, side);
      FacingRecv(g, p, d, b0, dsize, c0, side);
    }
  }

  /** A single process on a grid periodic in every direction. */
  const SelfGrid := Grid([1, 1, 1], [true, true, true])

  /** Its memory: two buffers of four one-byte regions, the receive regions still zero. */
  const SelfWorld: seq<Memory> := [[[1, 2, 0, 0], [3, 4, 0, 0]]]

  /**
   The single process exchanges along direction 0 with itself, twice in a row, on buffers 0 and
   1 of one byte per region: each buffer receives its own send regions, crossed over, and the
   second exchange does not take the first one's bytes.
   */
  lemma SelfExchangeTwice()
    ensures Complete(SelfWorld, TwoDirPlans(SelfGrid, 0, 0, 1, 1, 1, 1)) == Ok([[[1, 2, 2, 1], [3, 4, 4, 3]]])
  {
    SelfExchanged();
    TwoDirExchanges(SelfGrid, SelfWorld, 0, 0, 1, 1, 1, 1);
    var r := Complete(SelfWorld, TwoDirPlans(SelfGrid, 0, 0, 1, 1, 1, 1));
    assert r.value[0] == [[1, 2, 2, 1], [3, 4, 4, 3]];
    assert r.value == [r.value[0]];
  }

  /** Each buffer of the single process, exchanged along direction 0 with itself. */
  lemma SelfExchanged()
    ensures Size(SelfGrid) == 1 && |SelfWorld| == 1
    ensures WideEnough(SelfWorld, 0, 4) && WideEnough(SelfWorld, 1, 4)
    ensures Exchanged(SelfGrid, SelfWorld, 0, 0, 1, 0) == [1, 2, 2, 1]
    ensures Exchanged(SelfGrid, SelfWorld, 0, 1, 1, 0) == [3, 4, 4, 3]
  {
    assert Size(SelfGrid) == 1;
    assert Neighbor(SelfGrid, 0, 0, 0) == Rank(0) && Neighbor(SelfGrid, 0, 0, 1) == Rank(0);
  }
}
