/** The generator object: a 312-word state buffer and the index of the next
    unconsumed word, seeded on construction and twisted lazily. */
module Generator {
  import opened Params
  import opened Seeding
  import opened Twisting
  import opened Tempering

  /** The index after `calls` outputs since seeding: N right after seeding
      (the next call twists), then 1 + (calls - 1) mod N. */
  ghost function IndexAfter(calls: nat): (i: nat)
    ensures 1 <= i <= N
  {
    if calls == 0 then N else 1 + (calls - 1) % N
  }

  /** One call advances the index: the buffer is exhausted (index N) exactly
      when the number of calls so far is a multiple of N; then the twist
      resets the index to 0 and the call leaves it at 1, otherwise the call
      adds one. */
  lemma IndexStep(calls: nat)
    ensures IndexAfter(calls) >= N <==> calls % N == 0
    ensures IndexAfter(calls + 1) == if IndexAfter(calls) >= N then 1 else IndexAfter(calls) + 1
  {
    if calls > 0 {
      ModStep(calls - 1, N);
    }
  }

  class MersenneTwister64 {
    var state: array<bv64>
    var index: nat

    /** The state right after the last seeding: word 0 of the stream. */
    ghost var origin: seq<bv64>
    /** Number of values produced since the last seeding. */
    ghost var calls: nat

    /** The buffer holds N words and is the window of the stream whose
        word `index` is the next output, stream word N + calls. The index
        is N right after seeding and then cycles through 1 .. N. */
    ghost predicate Valid()
      reads this, state
    {
      state.Length == N && |origin| == N && index <= N &&
      index == IndexAfter(calls) &&
      state[..] == Window(origin, N + calls - index)
    }

    /** A generator seeded with DEFAULT_SEED. */
    constructor ()
      ensures Valid() && fresh(state)
      ensures state[..] == SeedState(DEFAULT_SEED) && index == N
      ensures origin == SeedState(DEFAULT_SEED) && calls == 0
    {
      state := new bv64[N](_ => 0);
      index := N + 1;
      new;
      Seed(DEFAULT_SEED);
    }

    /** A generator seeded with a non-empty key. */
    constructor NewFromArraySeed(key: seq<bv64>)
      requires |key| > 0
      ensures Valid() && fresh(state)
      ensures state[..] == ArraySeedState(key) && index == N
      ensures origin == ArraySeedState(key) && calls == 0
    {
      state := new bv64[N](_ => 0);
      index := N + 1;
      new;
      SeedByArray(key);
    }

    /** Scalar seeding: word 0 is s and every later word follows from its
        predecessor by the recurrence; the next call twists. */
    method Seed(s: bv64)
      requires state.Length == N
      modifies state, this`index, this`origin, this`calls
      ensures Valid()
      ensures IsSeededBy(state[..], s) && state[..] == SeedState(s)
      ensures index == N && origin == state[..] && calls == 0
    {
      hide InitStep, AsU64, SeedWord, SeedState, Stream, TwistWord;
      state[0] := s;
      for i := 1 to N
        invariant state[0] == s
        invariant forall k :: 1 <= k < i ==> state[k] == InitStep(state[k - 1], AsU64(k))
      {
        state[i] := InitStep(state[i - 1], AsU64(i));
      }
      index := N;
      origin := state[..];
      calls := 0;
      SeededByUnique(origin, s);
      WindowAtZero(origin);
    }

    /** Array seeding: scalar seeding with INIT_SEED, then the two mixing
        passes, then word 0 set to the top bit. The state cursor i runs over
        1 .. N - 1 and carries over from the first pass to the second. */
    method SeedByArray(key: seq<bv64>)
      requires state.Length == N && |key| > 0
      modifies state, this`index, this`origin, this`calls
      ensures Valid()
      ensures state[..] == ArraySeedState(key) && state[0] == TOP_BIT
      ensures index == N && origin == state[..] && calls == 0
    {
      hide FirstPass, SecondPass, SeedState, Stream, TwistWord;
      Seed(INIT_SEED);
      var i := FirstMixingPass(key);
      SecondMixingPass(i, FirstPassLength(|key|));
      state[0] := TOP_BIT;
      origin := state[..];
      WindowAtZero(origin);
    }

    /** The first mixing pass: max(N, |key|) steps from cursors i = 1 and
        j = 0. Returns the state cursor. */
    method FirstMixingPass(key: seq<bv64>) returns (i: nat)
      requires state.Length == N && |key| > 0
      modifies state
      ensures state[..] == FirstPass(old(state[..]), key, FirstPassLength(|key|))
      ensures i == Cursor(FirstPassLength(|key|))
    {
      ghost var start := state[..];
      assert Cursor(0) == 1 && KeyCursor(0, |key|) == 0;
      hide *;
      i := 1;
      var j: nat := 0;
      var passLength := FirstPassLength(|key|);
      for t := 0 to passLength
        invariant i == Cursor(t) && j == KeyCursor(t, |key|)
        invariant state[..] == FirstPass(start, key, t)
      {
        FirstPassNext(start, key, t);
        i, j := FirstMixingStep(key, i, j, t);
      }
    }

    /** Step t of the first mixing pass: mixes key word j and the counter j
        into the word at cursor i, then advances both cursors. */
    method FirstMixingStep(key: seq<bv64>, i: nat, j: nat, ghost t: nat) returns (i': nat, j': nat)
      requires state.Length == N && |key| > 0
      requires i == Cursor(t) && j == KeyCursor(t, |key|)
      modifies state
      ensures state[..] == FirstPassStep(old(state[..]), key, t)
      ensures i' == Cursor(t + 1) && j' == KeyCursor(t + 1, |key|)
    {
      hide MixFirst, AsU64, Cursor, KeyCursor, WrapCopy;
      state[i] := MixFirst(state[i], state[i - 1], key[j], AsU64(j));
      i' := AdvanceCursor(i, t);
      j' := j + 1;
      if j' >= |key| {
        j' := 0;
      }
      KeyCursorStep(t, |key|);
    }

    /** The second mixing pass: N - 1 steps continuing from cursor i, which
        is the cursor at step `start` of the mixing. */
    method SecondMixingPass(i: nat, ghost start: nat)
      requires state.Length == N && i == Cursor(start)
      modifies state
      ensures state[..] == SecondPass(old(state[..]), start, N - 1)
    {
      hide MixSecond, AsU64, Cursor, WrapCopy;
      ghost var mixed := state[..];
      var i := i;
      for t := 0 to N - 1
        invariant 1 <= i < N
        invariant i == Cursor(start + t)
        invariant state[..] == SecondPass(mixed, start, t)
      {
        ghost var before := state[..];
        state[i] := MixSecond(state[i], state[i - 1], AsU64(i));
        i := AdvanceCursor(i, start + t);
        assert state[..] == SecondPassStep(before, start + t);
      }
    }

    /** Advances the state cursor of the mixing passes: one step forward,
        and on reaching N back to 1 after copying word N - 1 into word 0. */
    method AdvanceCursor(i: nat, ghost t: nat) returns (next: nat)
      requires state.Length == N && i == Cursor(t)
      modifies state
      ensures state[..] == WrapCopy(old(state[..]), i)
      ensures next == (if i + 1 >= N then 1 else i + 1) && next == Cursor(t + 1)
    {
      CursorStep(t);
      next := i + 1;
      if next >= N {
        state[0] := state[N - 1];
        next := 1;
      }
    }


    /** Returns the next output: twists first when the buffer is exhausted
        (index >= N, which happens exactly every N calls), then tempers the
        word at index and advances index. */
    method NextU64() returns (r: bv64)
      requires Valid()
      modifies state, this`index, this`calls
      ensures Valid() && origin == old(origin) && calls == old(calls) + 1
      ensures old(index) >= N <==> old(calls) % N == 0
      ensures state[..] == if old(index) >= N then Twisted(old(state[..])) else old(state[..])
      ensures index == (if old(index) >= N then 1 else old(index) + 1) && 1 <= index <= N
      ensures r == Temper(state[index - 1])
      ensures r == Temper(Stream(origin, N + old(calls)))
    {
      hide TwistWord, TwistedAt, Stream, Temper, IndexAfter;
      IndexStep(calls);
      ghost var base := N + calls - index;
      if index >= N {
        TwistAdvancesWindow(origin, base);
        Twist();
        base := base + N;
      }
      assert state[..] == Window(origin, base);
      r := Temper(state[index]);
      index := index + 1;
      calls := calls + 1;
      assert N + calls - index == base;
    }

    /** Regenerates all N words in place, in index order, and resets index. */
    method Twist()
      requires state.Length == N
      modifies state, this`index
      ensures state[..] == Twisted(old(state[..])) && index == 0
    {
      hide TwistWord;
      ghost var s := state[..];
      TwistLow();
      TwistHigh(s);
      state[N - 1] := TwistWord(state[N - 1], state[0], state[M - 1]);
      TwistedWordwise(state[..], s);
      index := 0;
    }

    method TwistLow()
      requires state.Length == N
      modifies state
      ensures forall k :: 0 <= k < N - M ==> state[k] == TwistedAt(old(state[..]), k)
      ensures forall k :: N - M <= k < N ==> state[k] == old(state[k])
    {
      hide TwistWord;
      ghost var s := state[..];
      for i := 0 to N - M
        invariant forall k :: 0 <= k < i ==> state[k] == TwistedAt(s, k)
        invariant forall k :: i <= k < N ==> state[k] == s[k]
      {
        state[i] := TwistWord(state[i], state[i + 1], state[i + M]);
      }
    }

    method TwistHigh(ghost s: seq<bv64>)
      requires state.Length == N && |s| == N
      requires forall k :: 0 <= k < N - M ==> state[k] == TwistedAt(s, k)
      requires forall k :: N - M <= k < N ==> state[k] == s[k]
      modifies state
      ensures forall k :: 0 <= k < N - 1 ==> state[k] == TwistedAt(s, k)
      ensures state[N - 1] == s[N - 1]
    {
      hide TwistWord;
      for i := N - M to N - 1
        invariant forall k :: 0 <= k < i ==> state[k] == TwistedAt(s, k)
        invariant forall k :: i <= k < N ==> state[k] == s[k]
      {
        var nindex := i + DIFF;
        assert 0 <= nindex < M - 1;
        state[i] := TwistWord(state[i], state[i + 1], state[nindex]);
      }
    }
  }

  /** The first output of the default generator is the tempering of stream
      word N of the recurrence seeded with DEFAULT_SEED. */
  method DefaultSeedFirstOutput() returns (r: bv64)
    ensures r == Temper(Stream(SeedState(DEFAULT_SEED), N))
  {
    hide *;
    var g := new MersenneTwister64();
    r := g.NextU64();
  }

  /** The first two outputs of an array-seeded generator are the temperings
      of stream words N and N + 1 of the recurrence started from the
      array-seeded state. */
  method ArraySeedFirstOutputs(key: seq<bv64>) returns (r0: bv64, r1: bv64)
    requires |key| > 0
    ensures r0 == Temper(Stream(ArraySeedState(key), N))
    ensures r1 == Temper(Stream(ArraySeedState(key), N + 1))
  {
    hide *;
    var g := new MersenneTwister64.NewFromArraySeed(key);
    r0 := g.NextU64();
    r1 := g.NextU64();
  }
}
