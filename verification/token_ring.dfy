/**
 The token ring that the destructor of the MPI utility class runs, when concatenation is on, to
 copy every process's temporary stdout and then stderr file to the real stream in rank order.

 For one stream with tag t, process r > 0 first waits for a token from r - 1 with tag t, then
 writes its block (a begin line, its file, an end line) and, unless it is the last process,
 sends a token with tag t to r + 1. Each process does this for stdout (tag 0) and then for stderr
 (tag 1). Here every process runs the same six stages, 3t (wait), 3t + 1 (write) and 3t + 2
 (pass) for t = 0, 1; the wait of rank 0 and the pass of the last rank change nothing.
 Sends are buffered: a passed token stays in flight until its receiver consumes it.
 */
module TokenRing {
  import opened Wrappers
  import opened Decimal
  import opened Slices

  datatype Token = Token(src: nat, dest: nat, tag: nat)

  /** Stage of every process, tokens in flight, and the text written to stdout (0) and stderr (1). */
  datatype State = State(pc: seq<nat>, tokens: multiset<Token>, out: seq<string>)

  /** Stages of one process: wait, write and pass for each of the two streams. */
  const Stages: nat := 6

  function Label(t: nat): string
    requires t < 2
  {
    if t == 0 then "stdout" else "stderr"
  }

  /** The text process r writes for one stream: its file between a begin and an end line. */
  function Block(stream: string, r: nat, content: string): string
  {
    BeginLine(stream, r) + content + EndLine(stream, r)
  }

  /** "--- begin %s from PE =%4d ---\n" */
  function BeginLine(stream: string, r: nat): string
  {
    RingLine("--- begin ", stream, r)
  }

  /** "--- end   %s from PE =%4d ---\n" */
  function EndLine(stream: string, r: nat): string
  {
    RingLine("--- end   ", stream, r)
  }

  /** A begin or end line: its ten-character opening, the stream's name, and the rank as "%4d". */
  function RingLine(opening: string, stream: string, r: nat): string
  {
    opening + (stream + (" from PE =" + (Pad(r, 4) + " ---\n")))
  }

  /** files[t][r] is the content of process r's temporary file for stream t. */
  predicate FilesFor(n: nat, files: seq<seq<string>>)
  {
    |files| == 2 && |files[0]| == n && |files[1]| == n
  }

  /** The blocks of processes 0 .. k-1 for stream t, in rank order. */
  function Blocks(files: seq<seq<string>>, t: nat, k: nat): string
    requires |files| == 2 && t < 2 && k <= |files[t]|
  {
    if k == 0 then "" else Blocks(files, t, k - 1) + Block(Label(t), k - 1, files[t][k - 1])
  }

  function Init(n: nat): (s: State)
    ensures |s.pc| == n && |s.out| == 2
  {
    State(seq(n, _ => 0), multiset{}, ["", ""])
  }

  /** Process r can take its next stage: it is not done and, if it must wait, its token has arrived. */
  predicate Enabled(n: nat, s: State, r: nat)
  {
    r < n == |s.pc| && s.pc[r] < Stages
      && (s.pc[r] % 3 == 0 && r > 0 ==> Token(r - 1, r, s.pc[r] / 3) in s.tokens)
  }

  /** Process r takes its next stage. */
  function Fire(n: nat, files: seq<seq<string>>, s: State, r: nat): (s': State)
    requires FilesFor(n, files) && |s.out| == 2 && Enabled(n, s, r)
    ensures |s'.pc| == n && |s'.out| == 2
    ensures s'.pc == s.pc[r := s.pc[r] + 1]
    ensures forall t :: 0 <= t < 2 ==> s.out[t] <= s'.out[t]
  {
    var p := s.pc[r];
    var t := p / 3;
    var pc := s.pc[r := p + 1];
    if p % 3 == 0 then
      if r > 0 then State(pc, s.tokens - multiset{Token(r - 1, r, t)}, s.out) else State(pc, s.tokens, s.out)
    else if p % 3 == 1 then
      State(pc, s.tokens, s.out[t := s.out[t] + Block(Label(t), r, files[t][r])])
    else if r + 1 == n then
      State(pc, s.tokens, s.out)
    else
      State(pc, s.tokens + multiset{Token(r, r + 1, t)}, s.out)
  }

  /** Runs a schedule of process choices; None when it picks a process that cannot move. */
  function Run(n: nat, files: seq<seq<string>>, s: State, sched: seq<nat>): (r: Option<State>)
    requires FilesFor(n, files) && |s.out| == 2
    ensures r.Some? ==> |r.value.out| == 2 && |r.value.pc| == |s.pc|
    decreases |sched|
  {
    if |sched| == 0 then Some(s)
    else if Enabled(n, s, sched[0]) then Run(n, files, Fire(n, files, s, sched[0]), sched[1..])
    else None
  }

  predicate AllDone(s: State)
  {
    forall r :: 0 <= r < |s.pc| ==> s.pc[r] == Stages
  }

  // ----- invariant -----

  predicate Basic(n: nat, s: State)
  {
    |s.pc| == n && |s.out| == 2
      && (forall r :: 0 <= r < n ==> s.pc[r] <= Stages)
      && (forall tok :: tok in s.tokens ==> tok.tag < 2)
  }

  /**
   Shape of stream t: exactly processes 0 .. k-1 have written, in rank order; a process past its
   wait had its predecessor pass; the only token in flight is the one from k-1 to k, sent and not
   yet consumed; and every passed token not yet consumed is in flight.
   */
  predicate StreamShape(n: nat, files: seq<seq<string>>, s: State, t: nat, k: nat)
    requires FilesFor(n, files) && Basic(n, s) && t < 2
  {
    Written(n, files, s, t, k) && Chained(n, s, t) && InFlight(n, s, t, k) && Delivered(n, s, t)
  }

  /** Exactly processes 0 .. k-1 are past their write of stream t, and the stream holds their blocks. */
  predicate Written(n: nat, files: seq<seq<string>>, s: State, t: nat, k: nat)
    requires FilesFor(n, files) && Basic(n, s) && t < 2
  {
    k <= n
      && (forall r :: 0 <= r < n ==> (s.pc[r] > 3 * t + 1 <==> r < k))
      && s.out[t] == Blocks(files, t, k)
  }

  /** A process past its wait on stream t had its predecessor pass on that stream. */
  predicate Chained(n: nat, s: State, t: nat)
    requires |s.pc| == n
  {
    forall q, r :: 0 <= q < n && r == q + 1 && r < n && s.pc[r] > 3 * t ==> s.pc[q] > 3 * t + 2
  }

  /** The only token of stream t in flight is one copy of the token from k-1 to k, not yet consumed. */
  predicate InFlight(n: nat, s: State, t: nat, k: nat)
    requires |s.pc| == n
  {
    forall tok :: tok in s.tokens && tok.tag == t ==>
      1 <= k < n && tok == Token(k - 1, k, t) && s.tokens[tok] == 1
      && s.pc[k - 1] > 3 * t + 2 && s.pc[k] <= 3 * t
  }

  /** A token of stream t passed and not yet consumed is in flight. */
  predicate Delivered(n: nat, s: State, t: nat)
    requires |s.pc| == n
  {
    forall q, r :: 0 <= q < n && r == q + 1 && r < n && s.pc[q] > 3 * t + 2 && s.pc[r] <= 3 * t ==>
      Token(q, r, t) in s.tokens
  }

  predicate Inv(n: nat, files: seq<seq<string>>, s: State, k0: nat, k1: nat)
  {
    FilesFor(n, files) && Basic(n, s) && StreamShape(n, files, s, 0, k0) && StreamShape(n, files, s, 1, k1)
  }

  // ----- lemmas -----

  lemma InitInv(n: nat, files: seq<seq<string>>)
    requires FilesFor(n, files)
    ensures Inv(n, files, Init(n), 0, 0)
  {
  }

  /**
   A block's begin and end lines open with "--- begin " and "--- end   ", and the rank field
   after " from PE =" reads back, through atoi, as the writer's rank.
   */
  lemma RingLinesRead(stream: string, r: nat)
    ensures BeginLine(stream, r)[..10] == "--- begin " && EndLine(stream, r)[..10] == "--- end   "
    ensures Atoi(BeginLine(stream, r)[20 + |stream|..]) == r
    ensures Atoi(EndLine(stream, r)[20 + |stream|..]) == r
  {
    RingLineFields("--- begin ", stream, r);
    RingLineFields("--- end   ", stream, r);
  }

  lemma RingLineFields(opening: string, stream: string, r: nat)
    requires |opening| == 10
    ensures var line := RingLine(opening, stream, r);
      line[..10] == opening && Atoi(line[20 + |stream|..]) == r
  {
    var line := RingLine(opening, stream, r);
    var tail := " ---\n";
    var from := " from PE =";
    Split(opening, stream + (from + (Pad(r, 4) + tail)));
    Step(line, 10, stream, from + (Pad(r, 4) + tail));
    Step(line, 10 + |stream|, from, Pad(r, 4) + tail);
    assert tail[0] == ' ';
    AtoiOfPad(r, 4, tail);
  }

  /** No begin line is an end line, whatever the streams and ranks. */
  lemma BeginIsNotEnd(a: string, r: nat, b: string, q: nat)
    ensures BeginLine(a, r) != EndLine(b, q)
  {
    assert BeginLine(a, r)[4] == 'b';
    assert EndLine(b, q)[4] == 'e';
  }

  /** What each kind of stage does to the tokens and the streams. */
  lemma FireEffects(n: nat, files: seq<seq<string>>, s: State, r: nat)
    requires FilesFor(n, files) && |s.out| == 2 && Enabled(n, s, r)
    ensures var s' := Fire(n, files, s, r); var t := s.pc[r] / 3;
      s.pc[r] % 3 != 1 ==> s'.out == s.out
    ensures var s' := Fire(n, files, s, r); var t := s.pc[r] / 3;
      s.pc[r] % 3 == 1 ==> s'.tokens == s.tokens && s'.out == s.out[t := s.out[t] + Block(Label(t), r, files[t][r])]
    ensures var s' := Fire(n, files, s, r); var t := s.pc[r] / 3;
      s.pc[r] % 3 == 0 ==> s'.tokens == if r > 0 then s.tokens - multiset{Token(r - 1, r, t)} else s.tokens
    ensures var s' := Fire(n, files, s, r); var t := s.pc[r] / 3;
      s.pc[r] % 3 == 2 ==> s'.tokens == if r + 1 < n then s.tokens + multiset{Token(r, r + 1, t)} else s.tokens
  {
  }

  /** A stage below the last is stage 3t + j of stream t < 2, for some j < 3. */
  lemma StageSplit(p: nat)
    requires p < Stages
    ensures p / 3 < 2 && (p == 3 * (p / 3) || p == 3 * (p / 3) + 1 || p == 3 * (p / 3) + 2)
  {
  }

  /** Stage j of stream t is stage 3t + j. */
  lemma StageOf(t: nat, j: nat)
    requires j < 3
    ensures (3 * t + j) % 3 == j && (3 * t + j) / 3 == t
  {
  }

  /** The state after a wait, spelt out. */
  lemma FireWait(n: nat, files: seq<seq<string>>, s: State, r: nat, t: nat)
    requires FilesFor(n, files) && |s.out| == 2 && Enabled(n, s, r) && s.pc[r] == 3 * t
    ensures Fire(n, files, s, r)
      == State(s.pc[r := 3 * t + 1], if r > 0 then s.tokens - multiset{Token(r - 1, r, t)} else s.tokens, s.out)
  {
    StageOf(t, 0);
  }

  /** The state after a write, spelt out. */
  lemma FireWrite(n: nat, files: seq<seq<string>>, s: State, r: nat, t: nat)
    requires FilesFor(n, files) && |s.out| == 2 && Enabled(n, s, r) && s.pc[r] == 3 * t + 1
    ensures Fire(n, files, s, r)
      == State(s.pc[r := 3 * t + 2], s.tokens, s.out[t := s.out[t] + Block(Label(t), r, files[t][r])])
  {
    StageOf(t, 1);
  }

  /** The state after a pass, spelt out. */
  lemma FirePass(n: nat, files: seq<seq<string>>, s: State, r: nat, t: nat)
    requires FilesFor(n, files) && |s.out| == 2 && Enabled(n, s, r) && s.pc[r] == 3 * t + 2
    ensures Fire(n, files, s, r)
      == State(s.pc[r := 3 * t + 3], if r + 1 < n then s.tokens + multiset{Token(r, r + 1, t)} else s.tokens, s.out)
  {
    StageOf(t, 2);
  }

  /** A stage of stream t leaves the shape of the other stream as it was. */
  lemma OtherStream(n: nat, files: seq<seq<string>>, s: State, r: nat, t: nat, k: nat)
    requires FilesFor(n, files) && Basic(n, s) && Enabled(n, s, r) && t < 2 && s.pc[r] / 3 != t
    requires StreamShape(n, files, s, t, k)
    ensures Basic(n, Fire(n, files, s, r)) ==> StreamShape(n, files, Fire(n, files, s, r), t, k)
  {
    if Basic(n, Fire(n, files, s, r)) {
      OtherUntouched(n, files, s, r, t);
      ShapeTransfer(n, files, s, Fire(n, files, s, r), t, k);
    }
  }

  /** A stage of one stream crosses no stage boundary of the other, and leaves its text and tokens alone. */
  lemma OtherUntouched(n: nat, files: seq<seq<string>>, s: State, r: nat, t: nat)
    requires FilesFor(n, files) && |s.out| == 2 && Enabled(n, s, r) && t < 2 && s.pc[r] / 3 != t
    ensures forall q :: 0 <= q < n ==> SameSide(s.pc[q], Fire(n, files, s, r).pc[q], t)
    ensures Fire(n, files, s, r).out[t] == s.out[t]
    ensures forall tok: Token :: tok.tag == t ==> Fire(n, files, s, r).tokens[tok] == s.tokens[tok]
  {
    OtherSide(s.pc[r], t);
    FireEffects(n, files, s, r);
  }

  lemma OtherSide(p: nat, t: nat)
    requires p < Stages && t < 2 && p / 3 != t
    ensures SameSide(p, p + 1, t)
  {
  }

  /** Two stages are on the same side of every stage boundary of stream t. */
  predicate SameSide(a: nat, b: nat, t: nat)
  {
    (a > 3 * t <==> b > 3 * t) && (a > 3 * t + 1 <==> b > 3 * t + 1) && (a > 3 * t + 2 <==> b > 3 * t + 2)
  }

  /** The shape of stream t depends only on the stages relative to t, t's tokens and t's text. */
  lemma ShapeTransfer(n: nat, files: seq<seq<string>>, s: State, s': State, t: nat, k: nat)
    requires FilesFor(n, files) && Basic(n, s) && Basic(n, s') && t < 2
    requires StreamShape(n, files, s, t, k)
    requires forall q :: 0 <= q < n ==> SameSide(s.pc[q], s'.pc[q], t)
    requires s'.out[t] == s.out[t]
    requires forall tok: Token :: tok.tag == t ==> s'.tokens[tok] == s.tokens[tok]
    ensures StreamShape(n, files, s', t, k)
  {
    forall tok | tok in s'.tokens && tok.tag == t
      ensures 1 <= k < n && tok == Token(k - 1, k, t) && s'.tokens[tok] == 1
        && s'.pc[k - 1] > 3 * t + 2 && s'.pc[k] <= 3 * t
    {
      assert tok in s.tokens;
      assert SameSide(s.pc[k - 1], s'.pc[k - 1], t);
      assert SameSide(s.pc[k], s'.pc[k], t);
    }
    forall q | 0 <= q && q + 1 < n && s'.pc[q] > 3 * t + 2 && s'.pc[q + 1] <= 3 * t
      ensures Token(q, q + 1, t) in s'.tokens
    {
      assert SameSide(s.pc[q], s'.pc[q], t);
      assert SameSide(s.pc[q + 1], s'.pc[q + 1], t);
      assert Token(q, q + 1, t) in s.tokens;
    }
    forall q | 1 <= q < n && s'.pc[q] > 3 * t
      ensures s'.pc[q - 1] > 3 * t + 2
    {
      assert SameSide(s.pc[q], s'.pc[q], t);
      assert SameSide(s.pc[q - 1], s'.pc[q - 1], t);
    }
  }

  /** The wait of process r on stream t consumes the one token in flight for t. */
  lemma WaitStep(n: nat, files: seq<seq<string>>, s: State, r: nat, t: nat, k: nat)
    requires FilesFor(n, files) && Basic(n, s) && Enabled(n, s, r) && t < 2 && s.pc[r] == 3 * t
    requires StreamShape(n, files, s, t, k)
    ensures Basic(n, Fire(n, files, s, r))
    ensures StreamShape(n, files, Fire(n, files, s, r), t, k)
  {
    var tokens' := if r > 0 then s.tokens - multiset{Token(r - 1, r, t)} else s.tokens;
    FireWait(n, files, s, r, t);
    WaitBasic(n, s, r, t, tokens');
    WaitRest(n, s, r, t, k, tokens');
  }

  lemma WaitBasic(n: nat, s: State, r: nat, t: nat, tokens': multiset<Token>)
    requires Basic(n, s) && r < n && s.pc[r] == 3 * t && t < 2
    requires tokens' == if r > 0 then s.tokens - multiset{Token(r - 1, r, t)} else s.tokens
    ensures Basic(n, State(s.pc[r := 3 * t + 1], tokens', s.out))
  {
    forall x | x in tokens' ensures x.tag < 2 {
      assert x in s.tokens;
    }
  }

  lemma WaitRest(n: nat, s: State, r: nat, t: nat, k: nat, tokens': multiset<Token>)
    requires |s.pc| == n && r < n && s.pc[r] == 3 * t
    requires Chained(n, s, t) && InFlight(n, s, t, k) && Delivered(n, s, t)
    requires r > 0 ==> Token(r - 1, r, t) in s.tokens
    requires tokens' == if r > 0 then s.tokens - multiset{Token(r - 1, r, t)} else s.tokens
    ensures Chained(n, State(s.pc[r := 3 * t + 1], tokens', s.out), t)
    ensures InFlight(n, State(s.pc[r := 3 * t + 1], tokens', s.out), t, k)
    ensures Delivered(n, State(s.pc[r := 3 * t + 1], tokens', s.out), t)
  {
    if r > 0 {
      var tok := Token(r - 1, r, t);
      assert tokens'[tok] == 0;
      forall x | x in tokens' ensures x in s.tokens {
      }
    }
  }

  /** The write of process r on stream t extends the stream by r's block, r being next in order. */
  lemma WriteStep(n: nat, files: seq<seq<string>>, s: State, r: nat, t: nat, k: nat)
    requires FilesFor(n, files) && Basic(n, s) && Enabled(n, s, r) && t < 2 && s.pc[r] == 3 * t + 1
    requires StreamShape(n, files, s, t, k)
    ensures r == k
    ensures Basic(n, Fire(n, files, s, r))
    ensures StreamShape(n, files, Fire(n, files, s, r), t, k + 1)
  {
    var out' := s.out[t := s.out[t] + Block(Label(t), r, files[t][r])];
    FireWrite(n, files, s, r, t);
    WriteNext(n, files, s, r, t, k);
    WriteWritten(n, files, s, r, t, k, out');
    WriteRest(n, files, s, r, t, k, out');
  }

  /** The writer is the next process in rank order, and no token of its stream is in flight. */
  lemma WriteNext(n: nat, files: seq<seq<string>>, s: State, r: nat, t: nat, k: nat)
    requires FilesFor(n, files) && Basic(n, s) && r < n && t < 2 && s.pc[r] == 3 * t + 1
    requires Written(n, files, s, t, k) && Chained(n, s, t) && InFlight(n, s, t, k)
    ensures r == k
    ensures forall x :: x in s.tokens ==> x.tag != t
  {
    assert !(r < k);
    if r > 0 {
      assert s.pc[r - 1] > 3 * t + 2;
    }
  }

  lemma WriteWritten(n: nat, files: seq<seq<string>>, s: State, r: nat, t: nat, k: nat, out': seq<string>)
    requires FilesFor(n, files) && Basic(n, s) && r < n && t < 2 && s.pc[r] == 3 * t + 1 && r == k
    requires Written(n, files, s, t, k)
    requires out' == s.out[t := s.out[t] + Block(Label(t), r, files[t][r])]
    ensures Basic(n, State(s.pc[r := 3 * t + 2], s.tokens, out'))
    ensures Written(n, files, State(s.pc[r := 3 * t + 2], s.tokens, out'), t, k + 1)
  {
  }

  lemma WriteRest(n: nat, files: seq<seq<string>>, s: State, r: nat, t: nat, k: nat, out': seq<string>)
    requires |s.pc| == n && r < n && s.pc[r] == 3 * t + 1
    requires Chained(n, s, t) && Delivered(n, s, t)
    requires forall x :: x in s.tokens ==> x.tag != t
    ensures Chained(n, State(s.pc[r := 3 * t + 2], s.tokens, out'), t)
    ensures InFlight(n, State(s.pc[r := 3 * t + 2], s.tokens, out'), t, k + 1)
    ensures Delivered(n, State(s.pc[r := 3 * t + 2], s.tokens, out'), t)
  {
  }

  /** The pass of process r on stream t puts the token for r + 1 in flight (none for the last). */
  lemma PassStep(n: nat, files: seq<seq<string>>, s: State, r: nat, t: nat, k: nat)
    requires FilesFor(n, files) && Basic(n, s) && Enabled(n, s, r) && t < 2 && s.pc[r] == 3 * t + 2
    requires StreamShape(n, files, s, t, k)
    ensures Basic(n, Fire(n, files, s, r))
    ensures StreamShape(n, files, Fire(n, files, s, r), t, k)
  {
    var tokens' := if r + 1 < n then s.tokens + multiset{Token(r, r + 1, t)} else s.tokens;
    FirePass(n, files, s, r, t);
    PassNext(n, files, s, r, t, k);
    PassWritten(n, files, s, r, t, k, tokens');
    PassRest(n, s, r, t, k, tokens');
  }

  /** The passer is the last process that has written, and no token of its stream is in flight. */
  lemma PassNext(n: nat, files: seq<seq<string>>, s: State, r: nat, t: nat, k: nat)
    requires FilesFor(n, files) && Basic(n, s) && r < n && t < 2 && s.pc[r] == 3 * t + 2
    requires Written(n, files, s, t, k) && Chained(n, s, t) && InFlight(n, s, t, k)
    ensures k == r + 1
    ensures r + 1 < n ==> s.pc[r + 1] <= 3 * t
    ensures forall x :: x in s.tokens ==> x.tag != t
  {
    assert r < k;
    if r + 1 < n {
      assert s.pc[r + 1] <= 3 * t;
    }
  }

  lemma PassWritten(n: nat, files: seq<seq<string>>, s: State, r: nat, t: nat, k: nat, tokens': multiset<Token>)
    requires FilesFor(n, files) && Basic(n, s) && r < n && t < 2 && s.pc[r] == 3 * t + 2
    requires Written(n, files, s, t, k)
    requires tokens' == if r + 1 < n then s.tokens + multiset{Token(r, r + 1, t)} else s.tokens
    ensures Basic(n, State(s.pc[r := 3 * t + 3], tokens', s.out))
    ensures Written(n, files, State(s.pc[r := 3 * t + 3], tokens', s.out), t, k)
  {
  }

  lemma PassRest(n: nat, s: State, r: nat, t: nat, k: nat, tokens': multiset<Token>)
    requires |s.pc| == n && r < n && s.pc[r] == 3 * t + 2 && k == r + 1
    requires r + 1 < n ==> s.pc[r + 1] <= 3 * t
    requires Chained(n, s, t) && Delivered(n, s, t)
    requires forall x :: x in s.tokens ==> x.tag != t
    requires tokens' == if r + 1 < n then s.tokens + multiset{Token(r, r + 1, t)} else s.tokens
    ensures Chained(n, State(s.pc[r := 3 * t + 3], tokens', s.out), t)
    ensures InFlight(n, State(s.pc[r := 3 * t + 3], tokens', s.out), t, k)
    ensures Delivered(n, State(s.pc[r := 3 * t + 3], tokens', s.out), t)
  {
  }

  /** Every stage keeps the invariant; the write of stream t moves that stream's frontier by one. */
  lemma FireInv(n: nat, files: seq<seq<string>>, s: State, r: nat, k0: nat, k1: nat) returns (k0': nat, k1': nat)
    requires Inv(n, files, s, k0, k1) && Enabled(n, s, r)
    ensures Inv(n, files, Fire(n, files, s, r), k0', k1')
    ensures k0 <= k0' <= k0 + 1 && k1 <= k1' <= k1 + 1
  {
    var p := s.pc[r];
    var t := p / 3;
    StageSplit(p);
    k0', k1' := k0, k1;
    var kt := if t == 0 then k0 else k1;
    if p == 3 * t {
      WaitStep(n, files, s, r, t, kt);
    } else if p == 3 * t + 1 {
      WriteStep(n, files, s, r, t, kt);
      if t == 0 { k0' := k0 + 1; } else { k1' := k1 + 1; }
    } else {
      PassStep(n, files, s, r, t, kt);
    }
    if t == 0 {
      OtherStream(n, files, s, r, 1, k1);
    } else {
      OtherStream(n, files, s, r, 0, k0);
    }
  }

  /** The invariant holds of every state a schedule reaches from a state where it holds. */
  lemma {:induction false} RunInv(n: nat, files: seq<seq<string>>, s: State, sched: seq<nat>, k0: nat, k1: nat)
    returns (k0': nat, k1': nat)
    requires Inv(n, files, s, k0, k1)
    ensures Run(n, files, s, sched).Some? ==> Inv(n, files, Run(n, files, s, sched).value, k0', k1')
    decreases |sched|
  {
    k0', k1' := k0, k1;
    if |sched| > 0 && Enabled(n, s, sched[0]) {
      var a, b := FireInv(n, files, s, sched[0], k0, k1);
      k0', k1' := RunInv(n, files, Fire(n, files, s, sched[0]), sched[1..], a, b);
    }
  }

  /**
   Whatever the interleaving, each stream holds the blocks of processes 0 .. k-1 in ascending
   rank order, each exactly once; when every process is done, both streams hold all n blocks
   and no token is left in flight.
   */
  lemma OutputInRankOrder(n: nat, files: seq<seq<string>>, sched: seq<nat>) returns (k0: nat, k1: nat)
    requires FilesFor(n, files)
    requires Run(n, files, Init(n), sched).Some?
    ensures var s := Run(n, files, Init(n), sched).value;
      k0 <= n && k1 <= n && s.out[0] == Blocks(files, 0, k0) && s.out[1] == Blocks(files, 1, k1)
    ensures var s := Run(n, files, Init(n), sched).value;
      AllDone(s) ==> k0 == n && k1 == n && s.tokens == multiset{}
  {
    InitInv(n, files);
    k0, k1 := RunInv(n, files, Init(n), sched, 0, 0);
    var s := Run(n, files, Init(n), sched).value;
    if AllDone(s) {
      if n > 0 {
        assert s.pc[n - 1] == Stages;
      }
      TokensAwaited(n, files, s, k0, k1);
      assert s.tokens == multiset{};
    }
  }

  /** A token in flight is addressed to a process that has not yet consumed it. */
  lemma TokensAwaited(n: nat, files: seq<seq<string>>, s: State, k0: nat, k1: nat)
    requires Inv(n, files, s, k0, k1)
    ensures forall tok :: tok in s.tokens ==> tok.dest < n && s.pc[tok.dest] <= 3 * tok.tag
  {
  }

  /**
   No deadlock: in a state the ring can reach that is not finished, some process can move (the
   lowest process that is not done).
   */
  lemma Progress(n: nat, s: State) returns (r: nat)
    requires Basic(n, s) && Delivered(n, s, 0) && Delivered(n, s, 1) && !AllDone(s)
    ensures Enabled(n, s, r)
  {
    var q :| 0 <= q < n && s.pc[q] != Stages;
    r := LowestBusy(s, q);
    var p := s.pc[r];
    WaitStages(p);
    if r > 0 && p % 3 == 0 {
      var q := r - 1;
      assert s.pc[q] == Stages;
      assert Token(q, r, p / 3) in s.tokens;
    }
  }

  /** The waits are stages 0 and 3, of streams 0 and 1. */
  lemma WaitStages(p: nat)
    requires p < Stages
    ensures p % 3 == 0 <==> p == 0 || p == 3
    ensures p / 3 == if p < 3 then 0 else 1
  {
  }

  /** The lowest process at or below q whose stage is not the last. */
  lemma {:induction false} LowestBusy(s: State, q: nat) returns (r: nat)
    requires q < |s.pc| && s.pc[q] != Stages
    ensures r <= q && s.pc[r] != Stages
    ensures forall j :: 0 <= j < r ==> s.pc[j] == Stages
    decreases q
  {
    if exists j :: 0 <= j < q && s.pc[j] != Stages {
      var j :| 0 <= j < q && s.pc[j] != Stages;
      r := LowestBusy(s, j);
    } else {
      r := q;
    }
  }

  /** Stages still to run, summed over the processes. */
  function Remaining(pc: seq<nat>): int
  {
    if |pc| == 0 then 0 else (Stages - pc[0]) + Remaining(pc[1..])
  }

  lemma {:induction false} RemainingBounds(pc: seq<nat>)
    requires forall r :: 0 <= r < |pc| ==> pc[r] <= Stages
    ensures Remaining(pc) >= 0
    ensures Remaining(pc) == 0 <==> forall r :: 0 <= r < |pc| ==> pc[r] == Stages
  {
    if |pc| > 0 {
      RemainingBounds(pc[1..]);
      if Remaining(pc) == 0 {
        forall r | 0 <= r < |pc| ensures pc[r] == Stages {
          if r > 0 {
            assert pc[1..][r - 1] == pc[r];
          }
        }
      }
    }
  }

  lemma {:induction false} RemainingStep(pc: seq<nat>, r: nat)
    requires r < |pc|
    ensures Remaining(pc[r := pc[r] + 1]) == Remaining(pc) - 1
  {
    if r == 0 {
      assert pc[r := pc[r] + 1][1..] == pc[1..];
    } else {
      assert pc[r := pc[r] + 1][1..] == pc[1..][r - 1 := pc[r] + 1];
      RemainingStep(pc[1..], r - 1);
    }
  }

  /** From any state the ring can reach, some schedule runs every process to the end. */
  lemma {:induction false} Drive(n: nat, files: seq<seq<string>>, s: State, k0: nat, k1: nat) returns (sched: seq<nat>)
    requires Inv(n, files, s, k0, k1)
    ensures Run(n, files, s, sched).Some? && AllDone(Run(n, files, s, sched).value)
    decreases Remaining(s.pc)
  {
    RemainingBounds(s.pc);
    if AllDone(s) {
      sched := [];
    } else {
      var r := Progress(n, s);
      var a, b := FireInv(n, files, s, r, k0, k1);
      FireRemaining(n, files, s, r);
      var rest := Drive(n, files, Fire(n, files, s, r), a, b);
      sched := [r] + rest;
      RunCons(n, files, s, r, rest);
    }
  }

  /** Every stage leaves one stage fewer to run. */
  lemma FireRemaining(n: nat, files: seq<seq<string>>, s: State, r: nat)
    requires FilesFor(n, files) && |s.out| == 2 && Enabled(n, s, r)
    ensures Remaining(Fire(n, files, s, r).pc) == Remaining(s.pc) - 1
  {
    RemainingStep(s.pc, r);
  }

  /** Running r and then a schedule is running the schedule from the state after r's stage. */
  lemma RunCons(n: nat, files: seq<seq<string>>, s: State, r: nat, rest: seq<nat>)
    requires FilesFor(n, files) && |s.out| == 2 && Enabled(n, s, r)
    ensures Run(n, files, s, [r] + rest) == Run(n, files, Fire(n, files, s, r), rest)
  {
    assert ([r] + rest)[1..] == rest;
  }

  /**
   The ring always completes: some schedule from the start finishes every process, and then
   stdout holds the stdout blocks of processes 0 .. n-1 in order and stderr their stderr blocks.
   */
  lemma Completes(n: nat, files: seq<seq<string>>) returns (sched: seq<nat>)
    requires FilesFor(n, files)
    ensures Run(n, files, Init(n), sched).Some?
    ensures var s := Run(n, files, Init(n), sched).value;
      AllDone(s) && s.out[0] == Blocks(files, 0, n) && s.out[1] == Blocks(files, 1, n) && s.tokens == multiset{}
  {
    InitInv(n, files);
    sched := Drive(n, files, Init(n), 0, 0);
    var k0, k1 := OutputInRankOrder(n, files, sched);
  }
}
