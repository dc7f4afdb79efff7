# MersenneTwister64 in Dafny

A model of `MersenneTwister64`, the 64-bit Mersenne Twister (MT19937-64)
pseudo-random generator. The generator keeps a buffer of N = 312 64-bit words
and an index into it:

- **seed** fills the buffer from one 64-bit seed with a linear recurrence.
- **seed by array** seeds with 19650218, then mixes a non-empty key into the
  buffer in two passes driven by wrapping cursors, and sets word 0 to `1 << 63`.
- **twist** regenerates all 312 words in place, in index order. Later words
  read words that were already rewritten earlier in the same twist.
- **next u64** twists when the buffer is exhausted, tempers the word at the
  index and advances the index.

The generator is the class `Generator.MersenneTwister64`. It has a
`state: array<bv64>` of length N and an `index: nat`. All 64-bit wrap-around
arithmetic is `bv64` arithmetic. The specification functions live in
separate modules:

- `Params`: the constants.
- `Seeding`:
  - the scalar seed recurrence `SeedState`;
  - the closed forms `Cursor` and `KeyCursor` of the mixing cursors;
  - the two mixing passes as functions of the step count (`FirstPass`,
    `SecondPass`);
  - `ArraySeedState`.
- `Twisting`:
  - `TwistWord`, the one-word recurrence;
  - `TwistedAt`/`Twisted`, the in-place twist. A read below the word being
    written sees a new value; a read at or above it sees the old one.
  - `Stream`, the MT19937-64 word sequence `x[k + N] = TwistWord(x[k], x[k + 1], x[k + M])`.
- `Tempering`: `Temper`, its four steps, and the inverse `Untemper`.

The class carries two ghost fields:
- `origin`, the buffer right after the last seeding;
- `calls`, the number of outputs produced since then.

Its invariant `Valid` says:
- the buffer is the window of N consecutive stream words from `origin` whose
  word `index` is stream word `N + calls`;
- `index` is `N` right after seeding and then cycles through `1 .. N`.

The main theorem is about `NextU64`. It returns the tempering of stream word
`N + calls`, so output k after seeding is `Temper(Stream(origin, N + k))`.
The in-place twist, with its mix of old and new reads, therefore produces
exactly the MT19937-64 recurrence (`Twisting.TwistAdvancesWindow`).

## Model

| member | source | states |
|---|---|---|
| `Seeding.SeedStateIsSeeded` | src/lib.rs:48-54 | The scalar-seed state starts with the seed, and every later word i is `F * (prev ^ (prev >> 62)) + i` of its predecessor, modulo 2^64. |
| `Seeding.SeededByUnique` | src/lib.rs:48-54 | A buffer satisfies the scalar-seed recurrence for seed s exactly when it is `SeedState(s)`, so the recurrence determines the state. |
| `Seeding.FirstPassLength` | src/lib.rs:62 | The first mixing loop runs max(N, key length) times: at least N, at least the key length, and equal to one of them. |
| `Seeding.Cursor` | src/lib.rs:60-69 | The state cursor of the mixing passes stays in `[1, N - 1]`, so `state[i]` and `state[i - 1]` are in bounds. |
| `Seeding.KeyCursor` | src/lib.rs:61-73 | The key cursor stays in `[0, key length - 1]`, so `seed[j]` is in bounds whenever the key is non-empty. |
| `Seeding.CursorStep` | src/lib.rs:65-69 | The mixing loops' cursor update (add one; on reaching N go back to 1) moves the closed form `1 + t mod (N - 1)` from step t to step t + 1. |
| `Seeding.KeyCursorStep` | src/lib.rs:70-73 | The key cursor update (add one; on reaching the key length go back to 0) moves the closed form `t mod len` from step t to step t + 1. |
| `Seeding.ArraySeedState` | src/lib.rs:84 | The array-seeded state has N words and word 0 equal to `1 << 63`. |
| `Twisting.TwistedAtWindow` | src/lib.rs:101-116 | Word i of the in-place twist of the stream window at b is stream word b + N + i. This holds in all three regions: old reads below N - M, new reads at `i + DIFF` in the second loop, and new words 0 and M - 1 in the final step. |
| `Twisting.TwistAdvancesWindow` | src/lib.rs:100-116 | Twisting the window of N stream words at b gives the window at b + N. |
| `Tempering.UntemperTemper` | src/lib.rs:91-95 | `Untemper` recovers every state word from its tempered output. |
| `Tempering.TemperUntemper` | src/lib.rs:91-95 | Tempering `Untemper(z)` gives back z, so every 64-bit value is the output of some state word. |
| `Tempering.TemperInjective` | src/lib.rs:91-95 | Two state words temper to the same output exactly when they are equal. |
| `Generator.IndexAfter` | src/lib.rs:87-96 | After any number of calls since seeding, the index lies in `[1, N]`. |
| `Generator.IndexStep` | src/lib.rs:87-96 | The buffer is exhausted (index >= N) exactly when the number of calls since seeding is a multiple of N. A call then leaves the index at 1, and otherwise adds one. |
| `Generator.MersenneTwister64.constructor` | src/lib.rs:30-40 | `new()` yields a valid generator in the scalar-seed state of 5489, with index N. |
| `Generator.MersenneTwister64.NewFromArraySeed` | src/lib.rs:42-46 | `new_from_array_seed(key)` with a non-empty key yields a valid generator in `ArraySeedState(key)`, with index N. |
| `Generator.MersenneTwister64.Seed` | src/lib.rs:48-56 | `seed(s)` leaves `state[0] == s` and the recurrence for every word 1 .. N - 1, which is `SeedState(s)`. The index is N, so the next call twists. |
| `Generator.MersenneTwister64.SeedByArray` | src/lib.rs:58-85 | `seed_by_array(key)` leaves `ArraySeedState(key)` with `state[0] == 1 << 63` and index N, inherited from the initial `seed(19650218)`. |
| `Generator.MersenneTwister64.FirstMixingPass` | src/lib.rs:60-74 | The first loop performs max(N, key length) mixing steps from cursors i = 1 and j = 0, and leaves the state cursor at its closed form for the next loop. |
| `Generator.MersenneTwister64.FirstMixingStep` | src/lib.rs:63-73 | One iteration of the first loop: mixes key word j and j into the word at cursor i, with the wrap copy of word N - 1 into word 0, and advances both cursors. |
| `Generator.MersenneTwister64.SecondMixingPass` | src/lib.rs:75-83 | The second loop performs N - 1 mixing steps, continuing from the state cursor that the first loop left. |
| `Generator.MersenneTwister64.AdvanceCursor` | src/lib.rs:65-69 | The cursor update shared by both loops. On reaching N it copies word N - 1 into word 0 and returns 1; otherwise it adds one. |
| `Generator.MersenneTwister64.NextU64` | src/lib.rs:87-98 | Twists exactly when `index >= N`, and otherwise leaves the buffer unchanged. Returns the tempering of the word at the post-twist index, then increments the index, so afterwards `1 <= index <= N`. The output is the tempered stream word `N + calls`. |
| `Generator.MersenneTwister64.Twist` | src/lib.rs:100-119 | The in-place twist leaves `Twisted(old state)` and sets the index to 0. |
| `Generator.MersenneTwister64.TwistLow` | src/lib.rs:101-105 | The first loop rewrites each word below N - M from the old words i, i + 1 and i + M, and leaves the rest unchanged. |
| `Generator.MersenneTwister64.TwistHigh` | src/lib.rs:107-112 | The second loop reads `nindex = i + DIFF` in `[0, M - 1)`, a word already rewritten. Every word below N - 1 then holds its twisted value, and word N - 1 is still old. |
| `Generator.DefaultSeedFirstOutput` | src/lib.rs:134-139 | The first output of `new()` is the tempering of stream word N of the recurrence started from `SeedState(5489)`. |
| `Generator.ArraySeedFirstOutputs` | src/lib.rs:126-132 | The first two outputs of an array-seeded generator are the temperings of stream words N and N + 1 from `ArraySeedState(key)`. |

## Left out

- Generator.DefaultSeedFirstOutput: the test's literal value 14514284786278117030 is not proved. The contract states the output symbolically; reaching the literal would mean evaluating about 160 chained 64-bit multiplications in the verifier.
- Generator.ArraySeedFirstOutputs: the literals 7266447313870364031 and 4946485549665804864 for the key `[0x12345, 0x23456, 0x34567, 0x45678]` are not proved, for the same reason (over 900 recurrence steps: 311 seeding steps and 623 mixing steps).
- `new_unseeded` is not a separate operation. Its sentinel index N + 1 is set inside both constructors just before seeding and is never observable. After construction the invariant gives `index <= N`.
- An empty key: `seed_by_array` panics on `seed[0]`, and the code has no rejection of an empty key, so `NewFromArraySeed` and `SeedByArray` require `|key| > 0`.
- The constants `R` and `A` are unused by the code and are not modelled. `A` duplicates `MAGIC[1]`, and `R` is implicit in the masks. The word size `W` is used only as `W - 2`, the seeding shift, which the model writes as the constant 62 (`Params.SEED_SHIFT`).
- `std::num::Wrapping` is modelled by `bv64` arithmetic. `j as u64` and `i as u64` are taken modulo 2^64 (`Seeding.AsU64`).
- `seed_by_array` is split into methods. Its two loops are `FirstMixingPass` and `SecondMixingPass`. The body of the first loop is `FirstMixingStep`, and the cursor update both loops share is `AdvanceCursor`. The loops of `twist` are the methods `TwistLow` and `TwistHigh`, called from `Twist`, which then does the final step. They perform the same array writes in the same order.
- The `#[cfg(test)]` harness itself is not modelled. There is no I/O, concurrency or floating point in the core.
