/** The twist: how the 312 state words are regenerated, and the linear
    recurrence over the whole word stream that the twist implements. */
module Twisting {
  import opened Params

  /** One step of the recurrence: the top bit of `upper` joined with the low
      31 bits of `lower`, shifted right by one, xor-ed with the twist matrix
      row when its low bit is set, and xor-ed into `far`. */
  function TwistWord(upper: bv64, lower: bv64, far: bv64): bv64
  {
    var y := (upper & UPPER_MASK) | (lower & LOWER_MASK);
    far ^ (y >> 1) ^ (if y & 1 == 0 then MAGIC[0] else MAGIC[1])
  }

  /** Word i after an in-place twist of s. The twist rewrites the words in
      index order, so a read of a word below i sees its new value and a read
      at i or above sees the old one:
      - i < N - M reads old words i, i + 1 and i + M;
      - N - M <= i < N - 1 reads old words i and i + 1 and the NEW word i + M - N;
      - i = N - 1 reads the old word N - 1 and the NEW words 0 and M - 1. */
  function TwistedAt(s: seq<bv64>, i: nat): bv64
    requires |s| == N && i < N
    decreases i
  {
    if i < N - M then TwistWord(s[i], s[i + 1], s[i + M])
    else if i < N - 1 then TwistWord(s[i], s[i + 1], TwistedAt(s, i + M - N))
    else TwistWord(s[N - 1], TwistedAt(s, 0), TwistedAt(s, M - 1))
  }

  /** The state after an in-place twist of s. */
  function Twisted(s: seq<bv64>): seq<bv64>
    requires |s| == N
  {
    seq(N, i requires 0 <= i < N => TwistedAt(s, i))
  }

  /** A state whose every word is the twisted word of s is Twisted(s). */
  lemma TwistedWordwise(t: seq<bv64>, s: seq<bv64>)
    requires |t| == N && |s| == N
    requires forall k :: 0 <= k < N ==> t[k] == TwistedAt(s, k)
    ensures t == Twisted(s)
  {
  }

  /** Word k of the MT19937-64 stream generated from the initial words o:
      x[k] = o[k] for k < N, and x[k + N] = TwistWord(x[k], x[k + 1], x[k + M]). */
  function Stream(o: seq<bv64>, k: nat): bv64
    requires |o| == N
    decreases k
  {
    if k < N then o[k]
    else TwistWord(Stream(o, k - N), Stream(o, k - N + 1), Stream(o, k - N + M))
  }

  /** The N consecutive stream words starting at word b. */
  function Window(o: seq<bv64>, b: nat): seq<bv64>
    requires |o| == N
  {
    seq(N, i requires 0 <= i < N => Stream(o, b + i))
  }

  /** The window at word 0 is the initial state itself. */
  lemma WindowAtZero(o: seq<bv64>)
    requires |o| == N
    ensures Window(o, 0) == o
  {
  }

  /** Word i of the twisted window at b is stream word b + N + i. */
  lemma {:induction false} TwistedAtWindow(o: seq<bv64>, b: nat, i: nat)
    requires |o| == N && i < N
    ensures TwistedAt(Window(o, b), i) == Stream(o, b + N + i)
    decreases i
  {
    hide TwistWord;
    var w := Window(o, b);
    if i < N - M {
      assert w[i] == Stream(o, b + i) && w[i + 1] == Stream(o, b + i + 1);
      assert w[i + M] == Stream(o, b + i + M);
    } else if i < N - 1 {
      TwistedAtWindow(o, b, i + M - N);
      assert w[i] == Stream(o, b + i) && w[i + 1] == Stream(o, b + i + 1);
    } else {
      TwistedAtWindow(o, b, 0);
      TwistedAtWindow(o, b, M - 1);
      assert w[N - 1] == Stream(o, b + N - 1);
    }
  }

  /** Twisting the window at b yields the window at b + N: the in-place
      twist, with its mix of old and new reads, computes exactly the next N
      words of the stream. */
  lemma TwistAdvancesWindow(o: seq<bv64>, b: nat)
    requires |o| == N
    ensures Twisted(Window(o, b)) == Window(o, b + N)
  {
    hide TwistWord, Stream;
    forall i | 0 <= i < N
      ensures Twisted(Window(o, b))[i] == Window(o, b + N)[i]
    {
      TwistedAtWindow(o, b, i);
    }
  }
}
