# wu-diff-js in Dafny

This project models the sequence diff of wu-diff-js. That is the function
`diff(A, B)` and its helpers `createFP`, `snake` and `backTrace` in
`lib/index.ts`. `diff` computes an edit script between two sequences using
Wu, Manber, Myers and Miller's O(NP) algorithm. The script is a list of
`{ type, value }` entries: each entry is `removed` (only in `A`), `added`
(only in `B`) or `common` (in both).

The algorithm first swaps the operands if needed, so that the first operand
A is at least as long as the second, B. Write M = |A|, N = |B| and
delta = M - N. The frontier has one slot per diagonal k in [-N, M]. Each slot
holds the farthest row `y` reached on that diagonal so far, together with a
trace: a linked list of REMOVED, ADDED and COMMON steps, newest first. Round
p updates the diagonals in this order:

1. upwards from -p to delta - 1;
2. downwards from delta + p to delta + 1;
3. delta itself.

Each update moves one step from a neighbouring diagonal (`createFP`). It
then follows matching elements along its own diagonal (`snake`). The search
stops once diagonal delta reaches row N. `backTrace` then turns the trace
into the script. When the operands were swapped, `backTrace` exchanges the
`removed` and `added` labels.

The modules follow the source:

- `Trace`: the trace tree and its counting invariant.
- `Frontier`: frontier points, `createFP` and `snake`.
- `Script`: the result entries and `backTrace`.
- `Onp`: the round loop as pure functions, with the loop invariants that
  prove it ends at the corner (M, N) of the edit graph.
- `Engine`: the exported `diff`.
- `Growth`: the rows of the frontier never go down from one round to the
  next. Every slot stays "tight": its row is at most the row `snake`
  would give it from its current neighbours.
- `Imperative`: the same loops over a mutable array. Each method is proved
  equal to its functional counterpart.
- `Examples`: the expected outputs of the repository's test cases, derived
  from the model.
- `AsWritten`: the neighbour reads of the round loop as the code writes
  them (see Findings).

On a tie between the two candidates of `createFP` (slide.y == down.y + 1)
the code takes the ADDED step. lib/index.ts:48 takes REMOVED only when
`down` is unreached, when k == M, or when `slide.y > down.y + 1`.
`Frontier.CreateFP` states this.

Two details of the extension loop and of element comparison:

- `snake`'s loop condition (lib/index.ts:58) checks only the upper bounds
  of the two indices. Every point the search extends lies inside the edit
  graph, with y >= 0 and y + k >= 0 (`Frontier.SnakeReaches`), so a
  negative index is never read. The model's guard (`Frontier.Matches`)
  also states the lower bounds, and agrees with the source's guard at
  every such point.
- Elements are compared with Dafny equality, which stands for `===`. The
  two agree on strings, as in all of the repository's tests. They differ
  on `NaN` (see "## Left out").

## Model

| member | source | states |
|---|---|---|
| Trace.Commons | lib/index.ts:58-61 | each step of the extension loop adds one COMMON node to the trace, so n steps add n COMMON nodes and leave the REMOVED and ADDED counts alone |
| Trace.PathCounts | lib/index.ts:24-44 | a trace that reaches (x, y) holds exactly x REMOVED-or-COMMON nodes and y ADDED-or-COMMON nodes. This is why `backTrace`'s cursors a and b run from M - 1 and N - 1 down to exactly -1 |
| Frontier.At | lib/index.ts:82 | the neighbour read: inside the frontier it is the slot, outside it is a point with row -1 (the corrected reading, see Findings) |
| Frontier.CreateFP | lib/index.ts:46-51 | two unreached neighbours give row 0 with an empty trace; otherwise the result is one REMOVED step from `slide` or one ADDED step from `down`; ADDED is chosen exactly when `down` is reached, k != M and slide.y <= down.y + 1; the result is never behind a reached `slide` or behind `down` + 1 |
| Frontier.MatchesGuard | lib/index.ts:58 | wherever both indices are non-negative, the model's guard `Matches` holds exactly when the source's guard does: both indices are below the operands' lengths and the two elements are equal |
| Frontier.Extend | lib/index.ts:58-61 | the extension never moves backwards; it adds one COMMON node per row gained; every row it passes matches; it stops at the first row that does not match (maximal snake) |
| Frontier.ExtendReaches | lib/index.ts:58-61 | extending a point whose trace is a path of the edit graph gives a point whose trace is still such a path |
| Frontier.Snake | lib/index.ts:53-63 | a diagonal outside [-N, M] gives the sentinel `{ y: -1 }`; inside, the result is at least the branch point of `createFP` and cannot be extended further |
| Frontier.SnakeReaches | lib/index.ts:53-63 | from neighbours that the search can present, `snake` gives a point on diagonal k with 0 <= y <= N and 0 <= y + k <= M, reached by a path of the edit graph, and stopped at the grid edge or at a mismatch |
| Script.Tagged | lib/index.ts:73 | against an empty operand the script has one entry per element, in order, each with the same tag |
| Script.TaggedSides | lib/index.ts:73 | an all-`removed` script gives back its values as the first operand and nothing as the second, and an all-`added` script the other way round |
| Script.EditType | lib/index.ts:31-36 | a REMOVED or ADDED node is labelled `added` exactly when it is an ADDED node of an unswapped diff or a REMOVED node of a swapped one, and never `common` |
| Script.BackTrace | lib/index.ts:24-44 | the script of a trace has one entry per trace node |
| Script.BackTraceSides | lib/index.ts:24-44 | reconstruction: the `removed`/`common` values of the script of a trace reaching (a, b) are A[..a] in order, and its `added`/`common` values are B[..b], with the two exchanged when the operands were swapped |
| Script.FlipAll | lib/index.ts:32-35 | flipping a script keeps its length and exchanges `removed` and `added` entry by entry |
| Script.BackTraceCommons | lib/index.ts:37-41 | a trace of n COMMON steps is the diagonal path to (n, n) of a sequence against itself, and its script is the first n elements, all `common`, in order |
| Script.BackTraceSwapped | lib/index.ts:30-41 | the script built with `swapped` set is the unswapped script with `removed` and `added` exchanged, entry by entry |
| Onp.Init | lib/index.ts:77-78 | a frontier of M + N + 1 sentinels satisfies the loop-head invariant before the first round |
| Onp.UpdateFrame | lib/index.ts:82 | the update of diagonal k (`Onp.Update`) writes the point `snake` computes from the neighbours read through `At` into slot k + offset and keeps every other slot |
| Onp.BandAt | lib/index.ts:82 | inside the reached band every neighbour read gives a point on its own diagonal with a row of at least 0 |
| Onp.AscendReady | lib/index.ts:81-83 | in the upward sweep both neighbours of diagonal k are fit for `snake`; from the second diagonal on, `slide` is the point just updated on k - 1 |
| Onp.AscendStep | lib/index.ts:81-83 | one update of the upward sweep keeps its invariant: the band grows by diagonal k, and the rows below k do not pass k's |
| Onp.AscendKeeps | lib/index.ts:81-83 | the whole upward sweep keeps its invariant and leaves delta and every diagonal above it unchanged |
| Onp.AscendFrame | lib/index.ts:81-83 | the upward sweep (`Onp.Ascend`) from diagonal k writes only the slots of diagonals k .. delta - 1 |
| Onp.DescendReady | lib/index.ts:84-86 | in the downward sweep both neighbours of diagonal k are fit for `snake` |
| Onp.DescendStep | lib/index.ts:84-86 | one update of the downward sweep keeps its invariant: a diagonal above delta that has reached column M passes that on to the diagonal below |
| Onp.DescendKeeps | lib/index.ts:84-86 | the whole downward sweep keeps its invariant |
| Onp.DescendFrame | lib/index.ts:84-86 | the downward sweep (`Onp.Descend`) from diagonal k writes only the slots of diagonals delta + 1 .. k |
| Onp.StartRound | lib/index.ts:79-81 | a loop head where delta is below row N is a valid start for the upward sweep of the next round |
| Onp.TurnRound | lib/index.ts:81-86 | the end of the upward sweep is a valid start for the downward sweep |
| Onp.FinishReady | lib/index.ts:87 | both neighbours of delta are fit for `snake` at the end of a round, and `down` is reached from round 1 on |
| Onp.FinishEdge | lib/index.ts:87 | if delta stays below row N after its update, no diagonal above delta has reached column M |
| Onp.FinishLast | lib/index.ts:79-88 | after round N diagonal -N is at row N, so delta has reached row N and the loop ends after at most N + 1 rounds |
| Onp.FinishBand | lib/index.ts:87 | the update of delta completes the band -p .. delta + p, and its row is at least that of delta - 1 and at least that of delta + 1 plus one |
| Onp.FinishRound | lib/index.ts:87 | the update of delta ends the round at a state that satisfies the loop-head invariant again |
| Onp.RoundKeeps | lib/index.ts:79-88 | a whole round started where the loop goes on ends at the next loop head |
| Onp.RoundFrame | lib/index.ts:80-87 | one round (`Onp.Round`) writes only the slots of diagonals -p .. delta + p; the diagonals beyond its band keep their points |
| Onp.Search | lib/index.ts:79-88 | the loop ends with diagonal delta at row N, and its trace is a path of the edit graph from (0, 0) to (M, N) |
| Onp.SearchGoesOn | lib/index.ts:79-88 | after one more round from a loop head where delta is below row N, the next loop head satisfies the invariant and the search ends as it would have from the earlier head |
| Onp.SearchStops | lib/index.ts:79 | the loop does nothing once delta has reached row N |
| Onp.SearchEnds | lib/index.ts:79-88 | a loop head where delta is below row N, followed by a round that brings delta to row N, ends the search with that round's frontier |
| Onp.SearchTwoRounds | lib/index.ts:79-88 | the same for a search that needs two more rounds |
| Growth.CreateFPRow | lib/index.ts:46-51 | off diagonal M the row `createFP` picks is the larger of `slide.y` and `down.y + 1`; on diagonal M it is `slide.y`, or 0 when neither neighbour is reached |
| Growth.ExtendMono | lib/index.ts:58-61 | the extension loop started from a larger row ends at a row no smaller |
| Growth.SnakeMono | lib/index.ts:53-63 | `snake` given neighbours at rows no smaller returns a row no smaller |
| Growth.InitTight | lib/index.ts:77 | the frontier of `{ y: -1 }` sentinels is tight: every slot's row is between -1 and the row `snake` would give it from its neighbours |
| Growth.UpdateGrows | lib/index.ts:82 | one assignment of `snake` to slot k + offset keeps a tight frontier tight and lowers no slot's row |
| Growth.AscendGrows | lib/index.ts:81-83 | the upward `for` loop keeps a tight frontier tight and lowers no slot's row |
| Growth.DescendGrows | lib/index.ts:84-86 | the downward `for` loop keeps a tight frontier tight and lowers no slot's row |
| Growth.RoundGrows | lib/index.ts:80-87 | one round of the `while` body keeps a tight frontier tight, and every diagonal ends it at a row no smaller than it started with |
| Growth.SearchGrows | lib/index.ts:79-88 | from a tight loop head the loop ends with a tight frontier at a row no smaller on every diagonal |
| Growth.SearchFromInitGrows | lib/index.ts:77-88 | starting from the `{ y: -1 }` sentinels, the loop ends with a tight frontier |
| Engine.Diff | lib/index.ts:65-90 | the script gives back both arguments: its `removed`/`common` values are A in order and its `added`/`common` values are B in order; against an empty argument it is the other argument, all `added` or all `removed` |
| Engine.DiffSwapped | lib/index.ts:68-69 | for arguments of different lengths, `diff(B, A)` is `diff(A, B)` with `removed` and `added` exchanged |
| Engine.DiffIdentity | lib/index.ts:65-90 | a diff of a sequence against itself is every element `common`, in order |
| Engine.FlipTagged | lib/index.ts:73 | the all-`removed` script of a sequence, flipped, is its all-`added` script, as the two orders of the empty-operand case return |
| Engine.DiffLonger | lib/index.ts:68-69 | when the first argument is the longer, `diff(B, A)` is `diff(A, B)` with `removed` and `added` exchanged |
| Imperative.Snake | lib/index.ts:53-63 | the `while` loop that mutates `fp` computes exactly the functional `snake` |
| Imperative.BackTrace | lib/index.ts:24-44 | `backTrace` computes the functional backtrace, which gives back both operands |
| Imperative.Walk | lib/index.ts:27-43 | the loop that walks `prev` pointers with cursors a and b and prepends entries computes the functional backtrace |
| Imperative.StepBack | lib/index.ts:31-41 | one iteration of that loop: the last node of a trace reaching (x, y) yields exactly the entry the loop prepends (ADDED takes `B[y - 1]`, REMOVED and COMMON take `A[x - 1]`, tags flipped when swapped), and the rest of the trace reaches the cursors' next position |
| Imperative.Neighbour | lib/index.ts:82 | the array read is the corrected neighbour read `At` |
| Imperative.Step | lib/index.ts:82 | the in-place assignment to slot k + offset computes the functional update of diagonal k |
| Imperative.AscendSweep | lib/index.ts:81-83 | the `for` loop from k up to delta - 1, written as one statement followed by the rest of the sweep, computes the functional upward sweep |
| Imperative.DescendSweep | lib/index.ts:84-86 | the `for` loop from k down to delta + 1, written as one statement followed by the rest of the sweep, computes the functional downward sweep |
| Imperative.RunRound | lib/index.ts:80-87 | one pass of the loop body computes one functional round |
| Imperative.Farthest | lib/index.ts:74-88 | the `while` loop over the frontier array ends with the search's final point of delta: row N, reached by a path to (M, N) |
| Imperative.Diff | lib/index.ts:65-90 | the array-based `diff` returns exactly the functional `diff`, so every property of `Engine.Diff` holds for it |
| Examples.DiffEmpty | lib/index.test.ts:5 | two empty sequences give the empty script |
| Examples.DiffAB | lib/index.test.ts:9 | "a" vs "b" gives `removed a, added b` |
| Examples.DiffAA | lib/index.test.ts:13 | "a" vs "a" gives `common a` |
| Examples.DiffAEmpty | lib/index.test.ts:17 | "a" vs "" gives `removed a` |
| Examples.DiffEmptyA | lib/index.test.ts:21 | "" vs "a" gives `added a` |
| Examples.DiffAvsAB | lib/index.test.ts:25 | "a" vs "a, b" gives `common a, added b` |
| Examples.DiffStrength | lib/index.test.ts:29-39 | "strength" vs "string" gives `s t r` common, `e` removed, `i` added, `n g` common, `t h` removed |
| Examples.DiffStrengthEmpty | lib/index.test.ts:43-52 | "strength" vs "" gives every letter `removed`, in order |
| Examples.DiffEmptyStrength | lib/index.test.ts:56-65 | "" vs "strength" gives every letter `added`, in order |
| Examples.DiffAbc | lib/index.test.ts:69-73 | ["abc", "c"] vs ["abc", "bcd", "c"] gives `common abc, added bcd, common c` |
| AsWritten.Read | lib/index.ts:82 | a JavaScript array read is defined exactly inside the array, and there it is the slot |
| AsWritten.CreateFPRaw | lib/index.ts:46-51 | `createFP` throws exactly when one of its arguments is `undefined`, and otherwise returns the model's branch point |
| AsWritten.SnakeRaw | lib/index.ts:53-57 | `snake` throws exactly when k is in [-N, M] and one of its arguments is `undefined`, and otherwise agrees with the model's `snake` |
| AsWritten.StepRaw | lib/index.ts:82-87 | the loop's update as written throws exactly on diagonals -N and M, and on every other diagonal equals the corrected update |
| AsWritten.RoundNThrows | lib/index.ts:81-82 | if the search reaches round N, its first update (diagonal -N) throws |
| AsWritten.DiffABThrows | lib/index.ts:79-82 | for "a" vs "b" round 0 leaves delta below row N, and the first update of round 1 throws |

## Left out

- `benchmark.js`: it only times `diff` on generated inputs.
- The `range` helper (lib/index.ts:1): nothing in the core uses it.
- The unused parameters: `N` of `createFP` and `offset` of `snake` are dropped.
- Object identity. `new Array(size).fill({ y: -1 })` (lib/index.ts:77) shares one sentinel object between all slots. `snake` mutates only the fresh object that `createFP` returns, so the sharing is invisible and the model uses values.
- Running time: the O(NP) bound and the cost of `unshift` are not modelled; only results are.
- Engine.Diff: does not state that the script is a shortest edit script, i.e. that it has M + N - 2·LCS(A, B) non-common entries. Proved are reconstruction of both arguments, the empty cases, `diff(A, A)` being all `common`, and, for arguments of different lengths only, that exchanging them exchanges `removed` and `added` (`Engine.DiffSwapped`).
- Arguments of equal length in both orders: neither order is swapped, so the two searches run on different operands and no relation between `diff(A, B)` and `diff(B, A)` is stated. That both have the same number of non-`common` entries would follow from the shortest-script property above, which is not modelled.
- `NaN` elements: `===` is not reflexive on `NaN`, so the source never pairs `NaN` with `NaN`. `diff([NaN], [NaN])` finds no COMMON step in round 0 and then reaches the out-of-range read described under "## Findings", as the "a" vs "b" case does. Dafny equality is reflexive, so the model gives `common NaN` (`Engine.DiffIdentity`). The model covers element types whose `===` is an equivalence, such as strings.
- Inputs that are not arrays, arrays with holes, and element comparison by reference identity: the model takes sequences of values with value equality.

## Findings

| source | as written | input that shows it | evidently intended | confidence | as-written member | corrected member |
|---|---|---|---|---|---|---|
| lib/index.ts:82-87 | the neighbour reads `fp[k - 1 + offset]` and `fp[k + 1 + offset]` are not range-checked. On diagonal -N this reads `fp[-1]` and on diagonal M it reads `fp[M + N + 1]`. Both are `undefined`, and `createFP` then evaluates `undefined.y`, which throws a TypeError. The search reaches round N whenever the operands have no element in common | `diff(['a'], ['b'])`: round 0 leaves delta at row 0, and round 1 starts on diagonal -1 by reading `fp[-1]` | an out-of-range neighbour reads as the sentinel `{ y: -1 }`. The test at lib/index.test.ts:9 then gets the script it expects, `removed a, added b` | not executed | AsWritten.DiffABThrows | Frontier.At |
