# Box counting game: rule engine model

Players take turns saying successive integers. A number that some element of a
configured divisor list (the *base*) divides must be replaced by the word
"Box". This project models the two types that hold the game's rules:

- `Counters` (`counter.dfy`, from `types/counter.go`): one game entry as a
  `Counter` value. It has a `value`, a `filled` flag (it carries a number), a
  `boxed` flag (a divisor triggers it, or it is the literal "box") and the
  `base` it was built with. The module holds the divisibility test, the three
  constructors with their empty-base and parse errors, and the `Add`/`Sub`
  combinators with their four-row override table and the zero clamp of `Sub`.
  The Go accessors `Get`, `Filled` and `Boxed` are the datatype's destructors
  `value`, `filled` and `boxed`.
- `Sequences` (`sequence.dfy`, from `types/sequence.go`): a round in progress.
  The `Sequence` class has the `base` and `contents` fields. Its `Add` method
  appends a candidate in place when Rule A or Rule B holds against the last
  entry. Rule A: the last entry is boxed and the candidate's value follows a
  triggered number. Rule B: both are numbers and the candidate is one more.
  The module also has `BuildSequenceFromBase` and `NewGenerator`. The
  generator's two closures are the member method `GenSequence` and the member
  function `GenCounter` of a `Generator` value.
- `Text` (`text.dfy`): the standard-library behaviour the string constructor
  depends on. This is an ASCII `strings.ToLower` compared with "box", and a
  base-10 `strconv.Atoi` (optional sign, at least one digit). `FormatInt` is
  the parser's inverse and is used for the round-trip lemma.

Design choices:

- Go's `%` truncates, so `GoRem` models it. `GoRemZero` proves that a zero
  remainder means the same under Go's convention and under Dafny's Euclidean
  one. The contracts can therefore state divisibility with Dafny's `%`.
- Every member that divides by base elements requires `0 !in base`, because
  Go panics on `num % 0`. Negative divisors are allowed, as in the code.
- A `Counter` stores the base it was built with, as `types/counter.go:13`
  does.
- `BuildCounterFromStr` returns the "box" placeholder without checking the
  base, so an empty base is accepted on that path.
- An unfilled "box" candidate carries value 0. Rule A then tests `0 - 1`, so
  such a candidate is accepted only after a boxed entry when the base holds 1
  or -1 (`PlaceholderCandidate`).
- `Sequence.Add` requires a non-empty `contents`. The source indexes the last
  entry without a guard (`types/sequence.go:16`). The fields `base` and
  `contents` are unexported (`types/sequence.go:5-8`), and both exported ways
  to obtain a sequence, `BuildSequenceFromBase` and the generator's
  `genSequence`, return empty contents. So code outside the package can only
  ever call `Add` on an empty sequence, where the source panics. Only code
  inside the package can seed a sequence, through the struct literal
  `Sequence{base, contents}` (the anonymous constructor here) or by writing
  `contents` directly, as `PlayRound` does.
- `base` is a `const` field and `Sequence.Add` may modify only `contents`
  (`modifies this`contents`), so the base cannot change. The contract of
  `Add` also shows that it keeps the ghost invariant `Chain`: every entry
  after the first was accepted after its predecessor.

## Model

| member | source | states |
|---|---|---|
| Counters.GoRem | types/counter.go:20 | Go's remainder: a equals the truncated quotient times b plus the remainder; the remainder is smaller in magnitude than the divisor and takes the dividend's sign |
| Counters.GoRemZero | types/counter.go:20 | Go's remainder is zero iff Dafny's Euclidean remainder is zero |
| Counters.Divides | types/counter.go:18-25 | true iff some base element leaves remainder 0 on num; false for an empty base |
| Counters.UnitDivides | types/counter.go:31 | 1 and -1 are triggered iff the base holds 1 or -1 |
| Counters.BuildCounterFromInt | types/counter.go:34-39 | EmptyBase error iff the base is empty; otherwise a filled entry with the given value and base, boxed iff a base element divides the value |
| Counters.BuildCounterFromBase | types/counter.go:27-32 | equals the integer constructor at 1; EmptyBase iff the base is empty; boxed iff the base holds 1 or -1 |
| Counters.BuildCounterFromStr | types/counter.go:41-50 | an unfilled result iff the text is "box" in some casing, and it is the boxed value-0 placeholder even for an empty base; ParseError iff the text is neither "box" nor an integer; EmptyBase iff it is an integer and the base is empty; an integer text builds what the integer constructor builds |
| Counters.CounterFromFormattedInt | types/counter.go:45-49 | typing the decimal form of n builds the same entry as n |
| Counters.Counter.Add | types/counter.go:64-91 | filled iff either side is filled; the value is the sum of the filled sides' values (0 when neither is); boxed is the conjunction over the filled sides, or over both when neither is; the base is the receiver's |
| Counters.Counter.Sub | types/counter.go:93-123 | same filled/boxed/base as Add; the value is the difference when both are filled, otherwise Add's pass-through value, then clamped at 0 on every row |
| Counters.AddSymmetric | types/counter.go:64-91 | Add's value, filled and boxed do not depend on operand order |
| Counters.AddAssociative | types/counter.go:64-91 | Add is associative |
| Counters.PlaceholderNeutral | types/counter.go:72-80 | the "box" placeholder is passed over by Add on either side of a filled entry |
| Counters.SubOfFilled | types/counter.go:110-121 | for two filled entries Sub is max(0, difference), and it is 1 iff the first is exactly one more |
| Text.BoxWordCasings | types/counter.go:42 | the lower-cased text is "box" iff it is three letters b/B, o/O, x/X |
| Text.ParseInt | types/counter.go:45-48 | parses iff the text is an optional sign followed by at least one digit and nothing else; a negative result needs a leading '-' |
| Text.ParseIntFormat | types/counter.go:45 | parsing the decimal rendering of n gives n |
| Text.BoxWordIsNotInt | types/counter.go:42-45 | "box" in any casing never parses as an integer |
| Sequences.IsAfterMultiple | types/sequence.go:10-13 | true iff num - 1 is divisible by some base element |
| Sequences.AcceptsIff | types/sequence.go:16-19 | a candidate is accepted iff (last is boxed and candidate - 1 is triggered) or (both are filled and the candidate is exactly one more) |
| Sequences.PlaceholderCandidate | types/sequence.go:17-18 | an unfilled value-0 candidate never passes Rule B, and is accepted iff the last entry is boxed and the base holds 1 or -1 |
| Sequences.TypedBoxAccepted | types/sequence.go:17-18 | the same for the entry built from typed "box" text |
| Sequences.Sequence.constructor | types/sequence.go:31 | the struct literal stores the given base and contents |
| Sequences.Sequence.Add | types/sequence.go:15-25 | requires a last entry; returns true iff Rule A or Rule B holds; on acceptance contents is the old contents plus the candidate, on rejection it is unchanged; base is never written; the accepted-chain invariant is preserved |
| Sequences.BuildSequenceFromBase | types/sequence.go:27-32 | EmptyBase iff the base is empty; otherwise a fresh sequence with that base and empty contents |
| Sequences.Generator.GenSequence | types/sequence.go:42-48 | for a non-empty base, a fresh empty sequence over it; the fatal branch is unreachable |
| Sequences.Generator.GenCounter | types/sequence.go:49-55 | for a non-empty base, the entry BuildCounterFromBase returns (value 1, filled); the fatal branch is unreachable |
| Sequences.NewGenerator | types/sequence.go:34-57 | EmptyBase iff the base is empty, decided up front; otherwise a generator over that non-empty base |

## Left out

- Sequences.Sequence.Add: the index-out-of-range panic on empty `contents` (`types/sequence.go:16`) is excluded by `requires |contents| > 0`, although an empty sequence is the only state that callers outside the package can reach.
- Go's fixed-width `int`: sums, differences and `num - 1` use unbounded integers, with no wrap-around.
- Text.ParseInt: does not model `strconv.Atoi`'s out-of-range error for values outside 64 bits.
- Text.BoxWordCasings: `strings.ToLower` is modelled on ASCII only; Unicode case mapping is not modelled.
- The panic on a zero element of the base (`num % 0`) is excluded by the precondition `0 !in base`.
- The zero values that Go returns next to an error are not modelled, because a `Result` carries only the error. These are `Counter{}`, `Sequence{}` and the two dummy closures of `NewGenerator` for an empty base.
- Sequences.NewGenerator: the closures become a `Generator` value, and `log.Fatalln`'s process exit is not modelled, because those branches are unreachable for the non-empty base the generator holds.
- The distinct error values that `strconv.Atoi` returns are merged into one `ParseError`.
- The console layer (`cli/inputs.go`: prompts, menus, reading input) is not part of this model.
