/**
 The MT19937 generator of Matsumoto and Nishimura as the MersenneTwister class holds it: 624
 state words and an index. The words are unsigned long, which is 64 bits wide on the usual LP64
 platforms, so they are bv64 here and every update ends with the source's explicit
 "& 0xffffffff"; the 32-bit bounds are proved, not assumed.

 Each operation has a functional reference definition; the methods follow the source's loops and
 are proved to compute the reference.
 */
module MersenneTwister {
  import opened RowMajor

  const N: nat := 624
  const M: nat := 397
  const MatrixA: bv64 := 0x9908_b0df
  const UpperMask: bv64 := 0x8000_0000
  const LowerMask: bv64 := 0x7fff_ffff
  const Mask32: bv64 := 0xffff_ffff
  /** The key index and step counter of init_by_array are ints. */
  const MaxKey: nat := 0x7fff_ffff

  /** A word that fits in 32 bits. */
  predicate Is32(x: bv64)
  {
    x <= Mask32
  }

  predicate All32(s: seq<bv64>)
  {
    forall i :: 0 <= i < |s| ==> Is32(s[i])
  }

  /** The state: mt[0..N) and the index of the next word to hand out (N + 1: never seeded). */
  datatype Generator = Generator(mt: seq<bv64>, mti: nat)

  predicate Valid(g: Generator)
  {
    |g.mt| == N && All32(g.mt) && g.mti <= N + 1
  }

  /** "x &= 0xffffffff". */
  function Low32(x: bv64): (r: bv64)
    ensures Is32(r)
    ensures x <= Mask32 ==> r == x
  {
    x & Mask32
  }

  // ----- init_genrand -----

  /** Word i of the seeding recurrence from its predecessor (Knuth's multiplier 1812433253). */
  function SeedStep(prev: bv64, i: nat): (w: bv64)
    requires i < N
    ensures Is32(w)
  {
    Low32(1812433253 * (prev ^ (prev >> 30)) + i as bv64)
  }

  /** Word i of init_genrand(s). */
  function SeedWord(s: bv64, i: nat): (w: bv64)
    requires i < N
    ensures Is32(w)
  {
    if i == 0 then Low32(s) else SeedStep(SeedWord(s, i - 1), i)
  }

  /** The first k words init_genrand(s) writes. */
  function SeedPrefix(s: bv64, k: nat): (mt: seq<bv64>)
    requires k <= N
    ensures |mt| == k && All32(mt)
  {
    seq(k, i requires 0 <= i < k => SeedWord(s, i))
  }

  function SeedWords(s: bv64): (mt: seq<bv64>)
    ensures |mt| == N && All32(mt)
  {
    SeedPrefix(s, N)
  }

  /** mt[0] is the masked seed and every later word follows from its predecessor. */
  predicate SeededBy(mt: seq<bv64>, s: bv64)
  {
    1 <= |mt| <= N && mt[0] == Low32(s) &&
    forall i :: 1 <= i < |mt| ==> mt[i] == SeedStep(mt[i - 1], i)
  }

  /** The recurrence fixes the words: a state that follows it from seed s is SeedWords(s). */
  lemma SeededUnique(mt: seq<bv64>, s: bv64)
    requires |mt| == N && SeededBy(mt, s)
    ensures mt == SeedWords(s)
  {
    forall i | 0 <= i < N
      ensures mt[i] == SeedWord(s, i)
    {
      SeededWord(mt, s, i);
    }
  }

  lemma {:induction false} SeededWord(mt: seq<bv64>, s: bv64, i: nat)
    requires SeededBy(mt, s) && i < |mt|
    ensures mt[i] == SeedWord(s, i)
  {
    if i > 0 {
      SeededWord(mt, s, i - 1);
    }
  }

  /** init_genrand: the seeding loop; afterwards mti == N. */
  method InitGenrand(s: bv64) returns (g: Generator)
    ensures Valid(g) && g.mti == N
    ensures SeededBy(g.mt, s)
  {
    var mt := [Low32(s)];
    var mti := 1;
    while mti < N
      invariant 1 <= mti <= N
      invariant |mt| == mti && All32(mt)
      invariant SeededBy(mt, s)
    {
      mt := mt + [SeedStep(mt[mti - 1], mti)];
      mti := mti + 1;
    }
    g := Generator(mt, mti);
  }

  // ----- init_by_array -----

  /** One step of the first init_by_array loop at position i with key word j. */
  function KeyStep(mt: seq<bv64>, i: nat, key: seq<bv64>, j: nat): (mt': seq<bv64>)
    requires |mt| == N && 1 <= i < N && j < |key| <= MaxKey
    ensures |mt'| == N
  {
    var w := mt[i := KeyWord(mt[i], mt[i - 1], key[j], j)];
    if i + 1 >= N then w[0 := w[N - 1]] else w
  }

  /** The new mt[i] of a key step: the old word mixed with its predecessor, plus key[j] and j. */
  function KeyWord(cur: bv64, prev: bv64, k: bv64, j: nat): (v: bv64)
    requires j <= 0xffff_ffff
    ensures Is32(v)
  {
    Low32((cur ^ ((prev ^ (prev >> 30)) * 1664525)) + k + j as bv64)
  }

  /** The new mt[i] of a mixing step: the old word mixed with its predecessor, minus i. */
  function MixWord(cur: bv64, prev: bv64, i: nat): (v: bv64)
    requires i < N
    ensures Is32(v)
  {
    Low32((cur ^ ((prev ^ (prev >> 30)) * 1566083941)) - i as bv64)
  }

  /** One step of the second init_by_array loop at position i. */
  function MixStep(mt: seq<bv64>, i: nat): (mt': seq<bv64>)
    requires |mt| == N && 1 <= i < N
    ensures |mt'| == N
  {
    var w := mt[i := MixWord(mt[i], mt[i - 1], i)];
    if i + 1 >= N then w[0 := w[N - 1]] else w
  }

  /** The position t steps after position i: positions run 1 .. N-1 and start over at 1. */
  function Advance(i: nat, t: nat): (i': nat)
    requires 1 <= i < N
    ensures 1 <= i' < N
  {
    if t == 0 then i else NextPos(Advance(i, t - 1))
  }

  /** Key word j of step t: j runs 0 .. len-1 and starts over at 0. */
  function KeyIndex(t: nat, len: nat): (j: nat)
    requires len >= 1
    ensures j < len
  {
    if t == 0 then 0 else NextKey(KeyIndex(t - 1, len), len)
  }

  function KeySteps(key: seq<bv64>): nat
  {
    if N > |key| then N else |key|
  }

  /** "i++; if (i >= N) i = 1". */
  function NextPos(i: nat): (i': nat)
    ensures 1 <= i' < N
  {
    if i + 1 >= N then 1 else i + 1
  }

  /** "j++; if (j >= key_length) j = 0". */
  function NextKey(j: nat, len: nat): (j': nat)
    requires len >= 1
    ensures j' < len
  {
    if j + 1 >= len then 0 else j + 1
  }

  /** Counting modulo len advances the same way, from len-1 back to 0. */
  lemma CyclicNext(t: nat, len: nat)
    requires len >= 1
    ensures (t + 1) % len == NextKey(t % len, len)
  {
    var q, r := t / len, t % len;
    assert t == q * len + r;
    if r + 1 < len {
      DivModUnique(q, r + 1, len);
    } else {
      assert t + 1 == (q + 1) * len + 0;
      DivModUnique(q + 1, 0, len);
    }
  }

  /** Step t uses key word t mod len. */
  lemma {:induction false} KeyIndexIsMod(t: nat, len: nat)
    requires len >= 1
    ensures KeyIndex(t, len) == t % len
  {
    if t > 0 {
      KeyIndexIsMod(t - 1, len);
      CyclicNext(t - 1, len);
    }
  }

  /** t steps after position i the loops work at position 1 + (i - 1 + t) mod (N-1). */
  lemma {:induction false} AdvanceIsMod(i: nat, t: nat)
    requires 1 <= i < N
    ensures Advance(i, t) == 1 + (i - 1 + t) % (N - 1)
  {
    if t > 0 {
      AdvanceIsMod(i, t - 1);
      CyclicNext(i - 1 + t - 1, N - 1);
    }
  }

  /** The words after t steps of the first loop: step t uses position Advance(1, t) and key word KeyIndex(t). */
  function KeyPhase(key: seq<bv64>, t: nat): (mt: seq<bv64>)
    requires 1 <= |key| <= MaxKey
    ensures |mt| == N
  {
    if t == 0 then SeedWords(19650218)
    else KeyStep(KeyPhase(key, t - 1), Advance(1, t - 1), key, KeyIndex(t - 1, |key|))
  }

  /** The words after t mixing steps of the second loop, the first at position i. */
  function Mix(mt: seq<bv64>, i: nat, t: nat): (r: seq<bv64>)
    requires |mt| == N && 1 <= i < N
    ensures |r| == N
  {
    if t == 0 then mt else MixStep(Mix(mt, i, t - 1), Advance(i, t - 1))
  }

  /** The state init_by_array leaves: both loops, then the top bit alone in mt[0]. */
  function ByArrayWords(key: seq<bv64>): (mt: seq<bv64>)
    requires 1 <= |key| <= MaxKey
    ensures |mt| == N && All32(mt) && mt[0] == 0x8000_0000
  {
    KeyPhaseWords(key, KeySteps(key));
    MixWords(KeyPhase(key, KeySteps(key)), Advance(1, KeySteps(key)), N - 1);
    Mix(KeyPhase(key, KeySteps(key)), Advance(1, KeySteps(key)), N - 1)[0 := 0x8000_0000]
  }

  /** Storing a 32-bit word, and copying mt[N-1] into mt[0], keep all words below 2^32. */
  lemma UpdateWords(mt: seq<bv64>, i: nat, v: bv64)
    requires |mt| == N && All32(mt) && i < N && Is32(v)
    ensures All32(mt[i := v]) && All32(mt[i := v][0 := mt[i := v][N - 1]])
  {
  }

  /** Every key step keeps all words below 2^32. */
  lemma {:induction false} KeyPhaseWords(key: seq<bv64>, t: nat)
    requires 1 <= |key| <= MaxKey
    ensures All32(KeyPhase(key, t))
  {
    if t > 0 {
      KeyPhaseWords(key, t - 1);
      KeyStepWords(KeyPhase(key, t - 1), Advance(1, t - 1), key, KeyIndex(t - 1, |key|));
    }
  }

  lemma KeyStepWords(mt: seq<bv64>, i: nat, key: seq<bv64>, j: nat)
    requires |mt| == N && 1 <= i < N && j < |key| <= MaxKey && All32(mt)
    ensures All32(KeyStep(mt, i, key, j))
  {
    UpdateWords(mt, i, KeyWord(mt[i], mt[i - 1], key[j], j));
  }

  /** Every mixing step keeps all words below 2^32. */
  lemma {:induction false} MixWords(mt: seq<bv64>, i: nat, t: nat)
    requires |mt| == N && 1 <= i < N && All32(mt)
    ensures All32(Mix(mt, i, t))
  {
    if t > 0 {
      MixWords(mt, i, t - 1);
      MixStepWords(Mix(mt, i, t - 1), Advance(i, t - 1));
    }
  }

  lemma MixStepWords(mt: seq<bv64>, i: nat)
    requires |mt| == N && 1 <= i < N && All32(mt)
    ensures All32(MixStep(mt, i))
  {
    UpdateWords(mt, i, MixWord(mt[i], mt[i - 1], i));
  }

  /** The first init_by_array loop, from its start for the given number of steps. */
  method KeyLoop(key: seq<bv64>) returns (mt: seq<bv64>, i: nat)
    requires 1 <= |key| <= MaxKey
    ensures mt == KeyPhase(key, KeySteps(key))
    ensures i == Advance(1, KeySteps(key))
  {
    mt := SeedWords(19650218);
    i := 1;
    var j := 0;
    var steps := KeySteps(key);
    var k := steps;
    ghost var t := 0;
    while k > 0
      invariant t + k == steps
      invariant i == Advance(1, t)
      invariant j == KeyIndex(t, |key|)
      invariant mt == KeyPhase(key, t)
    {
      mt := KeyStep(mt, i, key, j);
      i := NextPos(i);
      j := NextKey(j, |key|);
      k := k - 1;
      t := t + 1;
    }
    assert t == steps;
  }

  /**
   The second init_by_array loop: count mixing steps from where the first loop stopped (the
   source runs it with count = N-1).
   */
  method MixLoop(mt0: seq<bv64>, i0: nat, count: nat) returns (mt: seq<bv64>)
    requires |mt0| == N && 1 <= i0 < N
    ensures mt == Mix(mt0, i0, count)
  {
    mt := mt0;
    var i := i0;
    var k := count;
    ghost var t := 0;
    while k > 0
      invariant t + k == count
      invariant i == Advance(i0, t)
      invariant mt == Mix(mt0, i0, t)
    {
      mt := MixStep(mt, i);
      i := NextPos(i);
      k := k - 1;
      t := t + 1;
    }
    assert t == count;
  }

  /**
   init_by_array: seed with 19650218, run max(N, |key|) key steps with i and j both wrapping,
   then N-1 mixing steps, then force mt[0] = 0x80000000 so the state is never all zero.
   */
  method InitByArray(key: seq<bv64>) returns (g: Generator)
    requires 1 <= |key| <= MaxKey
    ensures Valid(g) && g.mti == N
    ensures g.mt == ByArrayWords(key)
    ensures g.mt[0] == 0x8000_0000
  {
    var mt, i := KeyLoop(key);
    mt := MixLoop(mt, i, N - 1);
    mt := mt[0 := 0x8000_0000];
    assert mt == ByArrayWords(key);
    g := Generator(mt, N);
  }

  // ----- genrand_int32 -----

  /** mag01[y & 1]: 0 or MATRIX_A. */
  function Mag(y: bv64): bv64
  {
    if y & 1 == 0 then 0 else MatrixA
  }

  /** x[k+N] from x[k], x[k+1] and x[k+M]: the top bit of one word, the low 31 of the next. */
  function Twist(xk: bv64, xk1: bv64, xkm: bv64): (r: bv64)
    requires Is32(xk) && Is32(xk1) && Is32(xkm)
    ensures Is32(r)
  {
    var y := (xk & UpperMask) | (xk1 & LowerMask);
    xkm ^ (y >> 1) ^ Mag(y)
  }

  /**
   The extended sequence x[0 .. 2N): the first N words are the current state, and each later
   word follows the recurrence x[k+N] = Twist(x[k], x[k+1], x[k+M]).
   */
  function Ext(mt: seq<bv64>, m: nat): (x: bv64)
    requires |mt| == N && All32(mt) && m < 2 * N
    ensures Is32(x)
    decreases m
  {
    if m < N then mt[m] else Twist(Ext(mt, m - N), Ext(mt, m - N + 1), Ext(mt, m - N + M))
  }

  /** Word k of the next block: x[N + k]. */
  function NextWord(mt: seq<bv64>, k: nat): (x: bv64)
    requires |mt| == N && All32(mt) && k < N
    ensures Is32(x)
  {
    Ext(mt, N + k)
  }

  /**
   The recurrence in terms of the state and the words already replaced: x[k+1] and x[k+M] are
   old words while they lie below N and new words from there on.
   */
  lemma NextWordStep(mt: seq<bv64>, k: nat)
    requires |mt| == N && All32(mt) && k < N
    ensures NextWord(mt, k) == Twist(mt[k],
      if k + 1 < N then mt[k + 1] else NextWord(mt, 0),
      if k + M < N then mt[k + M] else NextWord(mt, k + M - N))
  {
    assert Ext(mt, k) == mt[k];
    if k + 1 < N {
      assert Ext(mt, k + 1) == mt[k + 1];
    }
    if k + M < N {
      assert Ext(mt, k + M) == mt[k + M];
    }
  }

  /** The next N words of the recurrence: what regeneration stores. */
  function Regenerated(mt: seq<bv64>): (r: seq<bv64>)
    requires |mt| == N && All32(mt)
    ensures |r| == N && All32(r)
    ensures forall k :: 0 <= k < N ==> r[k] == NextWord(mt, k)
  {
    seq(N, k requires 0 <= k < N => NextWord(mt, k))
  }

  /**
   The regeneration of genrand_int32 in place, as its three loops do it: the first N-M words read
   x[k+M] from the old state, the rest from words already replaced, and the last word pairs with
   the new mt[0].
   */
  method Regenerate(mt0: seq<bv64>) returns (mt: seq<bv64>)
    requires |mt0| == N && All32(mt0)
    ensures mt == Regenerated(mt0)
  {
    mt := mt0;
    var kk := 0;
    while kk < N - M
      invariant 0 <= kk <= N - M && |mt| == N
      invariant forall j :: 0 <= j < kk ==> mt[j] == NextWord(mt0, j)
      invariant forall j :: kk <= j < N ==> mt[j] == mt0[j]
    {
      NextWordStep(mt0, kk);
      mt := mt[kk := Twist(mt[kk], mt[kk + 1], mt[kk + M])];
      kk := kk + 1;
    }
    while kk < N - 1
      invariant N - M <= kk <= N - 1 && |mt| == N
      invariant forall j :: 0 <= j < kk ==> mt[j] == NextWord(mt0, j)
      invariant forall j :: kk <= j < N ==> mt[j] == mt0[j]
    {
      NextWordStep(mt0, kk);
      mt := mt[kk := Twist(mt[kk], mt[kk + 1], mt[kk + M - N])];
      kk := kk + 1;
    }
    NextWordStep(mt0, N - 1);
    mt := mt[N - 1 := Twist(mt[N - 1], mt[0], mt[M - 1])];
    assert mt == Regenerated(mt0);
  }

  /**
   The tempering transform applied to every word handed out: four xor-shift stages, a right shift
   by 11, a left shift by 7 masked with 0x9d2c5680, a left shift by 15 masked with 0xefc60000 and
   a right shift by 18.
   */
  function Temper(y: bv64): (z: bv64)
    requires Is32(y)
    ensures Is32(z)
  {
    ShiftRight18(MaskedLeft15(MaskedLeft7(ShiftRight11(y))))
  }

  function ShiftRight11(y: bv64): (z: bv64)
    requires Is32(y)
    ensures Is32(z)
  {
    y ^ (y >> 11)
  }

  function MaskedLeft7(y: bv64): (z: bv64)
    requires Is32(y)
    ensures Is32(z)
  {
    y ^ ((y << 7) & 0x9d2c_5680)
  }

  function MaskedLeft15(y: bv64): (z: bv64)
    requires Is32(y)
    ensures Is32(z)
  {
    y ^ ((y << 15) & 0xefc6_0000)
  }

  function ShiftRight18(y: bv64): (z: bv64)
    requires Is32(y)
    ensures Is32(z)
  {
    y ^ (y >> 18)
  }

  /** One draw: the value handed out and the state after it. */
  datatype Draw = Draw(value: bv64, next: Generator)

  /**
   genrand_int32: when the index has run past the state (mti >= N), regenerate all N words first,
   seeding with 5489 when the state was never seeded (mti == N + 1), and restart at 0; then hand
   out the tempered word at the index and advance it.
   */
  function GenrandInt32(g: Generator): (d: Draw)
    requires Valid(g)
    ensures Valid(d.next) && 1 <= d.next.mti <= N
    ensures Is32(d.value)
    ensures g.mti < N <==> d.next.mt == g.mt && d.next.mti == g.mti + 1
    ensures g.mti >= N ==> d.next.mti == 1
    ensures g.mti < N ==> d.value == Temper(g.mt[g.mti])
    ensures g.mti == N ==> d.next.mt == Regenerated(g.mt) && d.value == Temper(d.next.mt[0])
    ensures g.mti == N + 1 ==> d.next.mt == Regenerated(SeedWords(5489))
  {
    var base := if g.mti >= N then
        Generator(Regenerated(if g.mti == N + 1 then SeedWords(5489) else g.mt), 0)
      else g;
    Draw(Temper(base.mt[base.mti]), Generator(base.mt, base.mti + 1))
  }

  /** genrand_int31: the 32-bit output without its lowest bit. */
  function GenrandInt31(g: Generator): (d: Draw)
    requires Valid(g)
    ensures d.value <= 0x7fff_ffff
    ensures d.next == GenrandInt32(g).next
    ensures d.value << 1 == GenrandInt32(g).value & 0xffff_fffe
  {
    var e := GenrandInt32(g);
    Draw(e.value >> 1, e.next)
  }

  /** The first n values drawn from g. */
  function Outputs(g: Generator, n: nat): (out: seq<bv64>)
    requires Valid(g)
    ensures |out| == n && All32(out)
    decreases n
  {
    if n == 0 then []
    else
      var d := GenrandInt32(g);
      [d.value] + Outputs(d.next, n - 1)
  }

  // ----- constructors -----

  /** The default constructor: init_by_array with the key {0x123, 0x234, 0x345, 0x456}. */
  method Default() returns (g: Generator)
    ensures Valid(g) && g.mti == N
    ensures g.mt == ByArrayWords([0x123, 0x234, 0x345, 0x456])
  {
    g := InitByArray([0x123, 0x234, 0x345, 0x456]);
  }

  /** The copy constructor: all N words and the index. */
  method Copy(src: Generator) returns (g: Generator)
    requires Valid(src)
    ensures g == src
  {
    var mt: seq<bv64> := [];
    var i := 0;
    while i < N
      invariant 0 <= i <= N
      invariant mt == src.mt[..i]
    {
      mt := mt + [src.mt[i]];
      i := i + 1;
    }
    assert mt == src.mt;
    g := Generator(mt, src.mti);
  }

  // ----- lemmas -----

  /** A state that was never seeded behaves exactly like one seeded with 5489. */
  lemma UnseededUsesDefaultSeed(g: Generator)
    requires Valid(g) && g.mti == N + 1
    ensures GenrandInt32(g) == GenrandInt32(Generator(SeedWords(5489), N))
  {
  }

  /** Within a block the index just counts up: draw k after a regeneration hands out word k. */
  lemma {:induction false} DrawsWithinBlock(g: Generator, n: nat)
    requires Valid(g) && g.mti + n <= N
    ensures forall k :: 0 <= k < n ==> Outputs(g, n)[k] == Temper(g.mt[g.mti + k])
    decreases n
  {
    if n > 0 {
      var d := GenrandInt32(g);
      DrawsWithinBlock(d.next, n - 1);
    }
  }
}
