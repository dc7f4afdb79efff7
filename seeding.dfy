/** How the 312-word state is derived from a seed: the scalar recurrence and
    the two mixing passes of array seeding, as functions of the seed. */
module Seeding {
  import opened Params

  /** `n as u64` for a `usize` counter: truncation to the low 64 bits. */
  function AsU64(n: nat): bv64
  {
    (n % 0x1_0000_0000_0000_0000) as bv64
  }

  // ---------------------------------------------------------------------------
  // Scalar seeding
  // ---------------------------------------------------------------------------

  /** Word i of the scalar-seed recurrence, computed from word i - 1. */
  function InitStep(prev: bv64, i: bv64): bv64
  {
    F * (prev ^ (prev >> SEED_SHIFT)) + i
  }

  /** Word i of the state after scalar seeding with s. */
  function SeedWord(s: bv64, i: nat): bv64
    requires i < N
    decreases i
  {
    if i == 0 then s else InitStep(SeedWord(s, i - 1), AsU64(i))
  }

  /** t is a state produced by scalar seeding with s: it starts with s and
      every later word follows from its predecessor by the recurrence. */
  predicate IsSeededBy(t: seq<bv64>, s: bv64)
  {
    |t| == N && t[0] == s &&
    forall i :: 1 <= i < N ==> t[i] == InitStep(t[i - 1], AsU64(i))
  }

  /** The state left by scalar seeding with s. */
  function SeedState(s: bv64): seq<bv64>
  {
    seq(N, i requires 0 <= i < N => SeedWord(s, i))
  }

  /** SeedState(s) satisfies the scalar-seed recurrence. */
  lemma SeedStateIsSeeded(s: bv64)
    ensures IsSeededBy(SeedState(s), s)
  {
    hide InitStep, AsU64;
    var t := SeedState(s);
    forall i | 1 <= i < N
      ensures t[i] == InitStep(t[i - 1], AsU64(i))
    {
      assert t[i] == SeedWord(s, i);
      assert t[i - 1] == SeedWord(s, i - 1);
    }
  }

  /** The recurrence determines the state: a state satisfies it for s
      exactly when it is SeedState(s). */
  lemma {:induction false} SeededByUnique(t: seq<bv64>, s: bv64)
    ensures IsSeededBy(t, s) <==> t == SeedState(s)
  {
    hide InitStep, AsU64;
    SeedStateIsSeeded(s);
    if IsSeededBy(t, s) {
      forall i | 0 <= i < N
        ensures t[i] == SeedState(s)[i]
      {
        SeededWordAt(t, s, i);
      }
    }
  }

  lemma {:induction false} SeededWordAt(t: seq<bv64>, s: bv64, i: nat)
    requires IsSeededBy(t, s) && i < N
    ensures t[i] == SeedWord(s, i)
    decreases i
  {
    hide InitStep, AsU64;
    if i > 0 {
      SeededWordAt(t, s, i - 1);
    }
  }

  // ---------------------------------------------------------------------------
  // Array seeding
  // ---------------------------------------------------------------------------

  /** Scalar seed applied before the key is mixed in. */
  const INIT_SEED: bv64 := 19650218
  /** Multipliers of the first and second mixing passes. */
  const MIX_FIRST: bv64 := 3935559000370003845
  const MIX_SECOND: bv64 := 2862933555777941757
  /** Final value of word 0: only the top bit set. */
  const TOP_BIT: bv64 := 1 << 63

  /** Number of steps of the first mixing pass: max(N, key length). */
  function FirstPassLength(keyLength: nat): (k: nat)
    ensures k >= N && k >= keyLength && (k == N || k == keyLength)
  {
    if N >= keyLength then N else keyLength
  }

  /** The state cursor at step t of the mixing passes (counting both passes
      together): it runs over 1 .. N - 1 and then starts again at 1. */
  function Cursor(t: nat): (i: nat)
    ensures 1 <= i < N
  {
    1 + t % (N - 1)
  }

  /** The key cursor at step t of the first pass: it runs over the key and
      then starts again at 0. */
  function KeyCursor(t: nat, keyLength: nat): (j: nat)
    requires keyLength > 0
    ensures j < keyLength
  {
    t % keyLength
  }

  /** A value written as q * n + r with 0 <= r < n has remainder r modulo n. */
  lemma ModUnique(x: int, n: int, q: int, r: int)
    requires n > 0 && 0 <= r < n && x == q * n + r
    ensures x % n == r
  {
    var q', r' := x / n, x % n;
    MulSub(q, q', n);
    var d := q - q';
    if d > 0 {
      MulAtLeast(d, n);
    } else if d < 0 {
      MulAtLeast(-d, n);
      MulNeg(d, n);
    }
  }

  lemma MulSub(a: int, b: int, n: int)
    ensures a * n - b * n == (a - b) * n
  {
  }

  lemma MulNeg(a: int, n: int)
    ensures -a * n == -(a * n)
  {
  }

  lemma {:induction false} MulAtLeast(d: int, n: int)
    requires d >= 1 && n > 0
    ensures d * n >= n
    decreases d
  {
    if d > 1 {
      MulAtLeast(d - 1, n);
      assert d * n == (d - 1) * n + n;
    }
  }

  /** Advancing a counter modulo n: add one and wrap to 0 on reaching n. */
  lemma ModStep(t: nat, n: nat)
    requires n > 0
    ensures (t + 1) % n == if t % n + 1 >= n then 0 else t % n + 1
  {
    var q, r := t / n, t % n;
    if r + 1 >= n {
      ModUnique(t + 1, n, q + 1, 0);
    } else {
      ModUnique(t + 1, n, q, r + 1);
    }
  }

  /** The mixing loops' cursor update (add one, and on reaching N go back to 1)
      yields the closed form Cursor(t + 1). */
  lemma CursorStep(t: nat)
    ensures Cursor(t + 1) == if Cursor(t) + 1 >= N then 1 else Cursor(t) + 1
  {
    ModStep(t, N - 1);
  }

  /** The first mixing loop's key cursor update (add one, and on reaching the key
      length go back to 0) yields the closed form KeyCursor(t + 1). */
  lemma KeyCursorStep(t: nat, keyLength: nat)
    requires keyLength > 0
    ensures KeyCursor(t + 1, keyLength) ==
            if KeyCursor(t, keyLength) + 1 >= keyLength then 0 else KeyCursor(t, keyLength) + 1
  {
    ModStep(t, keyLength);
  }

  /** First-pass update of the word at the cursor, from its predecessor, the
      key word k and the key cursor j. */
  function MixFirst(cur: bv64, prev: bv64, k: bv64, j: bv64): bv64
  {
    (cur ^ ((prev ^ (prev >> SEED_SHIFT)) * MIX_FIRST)) + k + j
  }

  /** Second-pass update of the word at cursor i, from its predecessor. */
  function MixSecond(cur: bv64, prev: bv64, i: bv64): bv64
  {
    (cur ^ ((prev ^ (prev >> SEED_SHIFT)) * MIX_SECOND)) - i
  }

  /** After the word at cursor i is written: when the cursor is about to wrap,
      word 0 takes a copy of word N - 1. */
  function WrapCopy(s: seq<bv64>, i: nat): (r: seq<bv64>)
    requires |s| == N
    ensures |r| == N
  {
    if i + 1 >= N then s[0 := s[N - 1]] else s
  }

  /** Step t of the first pass: cursor Cursor(t) in the state, t mod |key| in the key. */
  function FirstPassStep(s: seq<bv64>, key: seq<bv64>, t: nat): (r: seq<bv64>)
    requires |s| == N && |key| > 0
    ensures |r| == N
  {
    var i, j := Cursor(t), KeyCursor(t, |key|);
    WrapCopy(s[i := MixFirst(s[i], s[i - 1], key[j], AsU64(j))], i)
  }

  /** The state after the first n steps of the first pass, starting from s. */
  function FirstPass(s: seq<bv64>, key: seq<bv64>, n: nat): (r: seq<bv64>)
    requires |s| == N && |key| > 0
    ensures |r| == N
    decreases n
  {
    if n == 0 then s else FirstPassStep(FirstPass(s, key, n - 1), key, n - 1)
  }

  /** One more step of the first pass. */
  lemma FirstPassNext(s: seq<bv64>, key: seq<bv64>, n: nat)
    requires |s| == N && |key| > 0
    ensures FirstPass(s, key, n + 1) == FirstPassStep(FirstPass(s, key, n), key, n)
  {
  }

  /** Step t of the second pass (t counts from the start of the first pass,
      so the cursor continues where the first pass left it). */
  function SecondPassStep(s: seq<bv64>, t: nat): (r: seq<bv64>)
    requires |s| == N
    ensures |r| == N
  {
    var i := Cursor(t);
    WrapCopy(s[i := MixSecond(s[i], s[i - 1], AsU64(i))], i)
  }

  /** The state after the first n steps of the second pass, which begins at step `start`. */
  function SecondPass(s: seq<bv64>, start: nat, n: nat): (r: seq<bv64>)
    requires |s| == N
    ensures |r| == N
    decreases n
  {
    if n == 0 then s else SecondPassStep(SecondPass(s, start, n - 1), start + n - 1)
  }

  /** The state left by array seeding with key: scalar seeding with
      INIT_SEED, max(N, |key|) first-pass steps, N - 1 second-pass steps,
      then word 0 forced to TOP_BIT. */
  function ArraySeedState(key: seq<bv64>): (t: seq<bv64>)
    requires |key| > 0
    ensures |t| == N && t[0] == TOP_BIT
  {
    var k := FirstPassLength(|key|);
    SecondPass(FirstPass(SeedState(INIT_SEED), key, k), k, N - 1)[0 := TOP_BIT]
  }
}
