# prd well planner — a verified Dafny model

The program searches for layouts of "wells" (a primitive-root diffuser: the
depths are successive powers of a root r modulo n; the sweep takes primes for n). For a modulus `n`, a root `r`, a fold factor `f` and a well width
`w`, well `i` of the `n - 1` wells has depth `r^i mod n`. Its raw height is
the maximum depth minus its own depth. A greedy left-to-right pass then lowers
every well by `f`. A well that would drop below zero must record its deficit
as a fold on one neighbour, or the layout fails. A sweep in `main` runs the
planner over a table of `(n, r, f)`:

- it scores every success by its maximum build height and its share of
  zero-height wells;
- it keeps the successes whose zero share is in `[25, 50]`;
- it ranks them.

A combination search then puts together several copies of one solution, or
copies of two solutions, to reach a total width between 120 and 140. It ranks
the results by combined height and by distance from 130.

The model has seven modules:

- **Wells** (`wells.dfy`): the value-level data (`Well`, `FoldDirection`,
  structured `FoldError`s), plus functions for the depth generator and for one
  iteration of the fold loop (`Step`). `FoldPrefix` and `Plan` chain those
  iterations.
- **FoldLemmas** (`fold_lemmas.dfy`): what holds after every prefix of the
  fold loop, fail-fast, the fold checks that can never fire and the outcome of
  a successful plan.
- **Planner** (`planner.dfy`): `calculate` as the source writes it. It works
  on an `array<Well>`, with binary modular exponentiation and three index
  loops. It is proved equal to `Plan`, with every intermediate product shown
  to fit in an `i32`.
- **Ranking** (`ranking.dfy`): Rust's stable `sort_by` on a lexicographic
  `(int, real)` key. It is a stable insertion sort. Any sorted list that keeps
  each key's elements in their original order is proved to equal it.
- **Sweep** (`sweep.dfy`): scoring, the acceptance band, and the three nested
  sweep loops. The loops are methods proved against a reference enumeration of
  the tuples.
- **Combiner** (`combiner.dfy`): `find_combined_solutions`. It keeps the
  source's `continue` and `break` and is proved equal to an enumeration that
  has no early exit.
- **Scenarios** (`scenarios.dfy`): worked examples evaluated step by step.

## Model

| member | source | states |
|---|---|---|
| Wells.MaxDepth | src/main.rs:48-69 | the running maximum (from 0) is non-negative and bounds every depth |
| Wells.MaxDepthAttained | src/main.rs:66-68 | the running maximum is one of the depths unless it stayed 0 |
| Wells.RequiredFoldDepth | src/main.rs:76 | `abs(clamp(raw - f, -n, 0))` lies in [0, n]; it is 0 iff raw >= f, else it is min(f - raw, n) |
| Wells.BuildHeight | src/main.rs:77 | build height is raw - f when raw >= f; 0 when the deficit is at most n; negative (unclamped) when the deficit exceeds n |
| Wells.InteriorReasons | src/main.rs:140-164 | each of the four interior diagnostics is present iff its condition holds, and they appear in the source's order: left before right, on each side "already folded" before "too short" |
| Wells.Step | src/main.rs:75-182 | one iteration fails only with the index of its own well, and otherwise keeps the length |
| Wells.StepFrame | src/main.rs:76-180 | setting well i's build height; only wells i-1, i, i+1 change; a changed left neighbour becomes Right and a changed right neighbour Left, each carrying the required depth < w; every deficit is recorded on a neighbour |
| Wells.StepInteriorChoice | src/main.rs:121-179 | for an interior well with 0 < required depth < w: if the left neighbour is available (not folded Right, raw height above the new build height by more than w) the step records (Right, depth) on it; only if it is not and the right one is, (Left, depth) on the right; if neither is, the error lists the four reasons of lines 140-164 |
| Wells.StepErrorKinds | src/main.rs:76-180 | no deficit: only the build height changes; FoldTooDeep exactly when 0 < depth >= w; BoundaryNeighborFolded exactly at the first or last well with its one neighbour folded; BoundaryNeighborTooShort exactly there with the neighbour unfolded and raw height < w; NoAvailableNeighbor exactly at an interior well with neither side available |
| Wells.FoldPrefix | src/main.rs:75-183 | a successful prefix of the fold loop keeps the number of wells |
| FoldLemmas.RawHeightsBounded | src/main.rs:48-73 | depth[i] = r^i mod n, raw height = max depth - depth in [0, n-1], the layout starts unfolded, and some well has raw height 0 |
| FoldLemmas.StepKeepsFoldsRecorded | src/main.rs:103-179 | every recorded fold faces a neighbour whose required depth it holds (0 < depth < w); one step keeps this |
| FoldLemmas.StepKeepsSettled | src/main.rs:75-183 | one more successful step extends the per-prefix invariant: processed wells settled, later wells untouched, no Right fold ahead of the scan |
| FoldLemmas.PrefixSettled | src/main.rs:75-183 | the per-prefix invariant holds after every successful prefix |
| FoldLemmas.ErrorPropagates | src/main.rs:78-169 | once a prefix fails, every longer prefix returns the same error (fail-fast) |
| FoldLemmas.FirstFailure | src/main.rs:75-183 | a failed run fails at well e: the prefix before e succeeded, its step at e produced the error, and wells after e are untouched |
| FoldLemmas.PlanFailsAtFirstFailure | src/main.rs:34-186 | the same for `calculate` on its initial layout |
| FoldLemmas.PlanSucceeds | src/main.rs:34-186 | on Ok: n-1 wells with depth r^i mod n, raw height max - depth, build height per BuildHeight, every positive required depth < w, every fold recorded |
| FoldLemmas.DeadFoldedChecks | src/main.rs:90-132 | when well i is processed, well 1 is still unfolded for i = 0; for an interior i the left neighbour is never Right and the right one is unfolded |
| FoldLemmas.InteriorStepFailure | src/main.rs:125-169 | under that shape an interior failure lists one or two reasons, all "too short" |
| FoldLemmas.InteriorFailureIsSpace | src/main.rs:125-169 | so an interior failure of `calculate` is never for a folded neighbour |
| FoldLemmas.Neighbourhood | src/main.rs:75-183 | when well i is processed its neighbours have their initial raw heights and do not face it |
| FoldLemmas.PrefixInteriorChoice | src/main.rs:121-179 | within the fold loop an interior well with 0 < depth < w folds behind the left neighbour when that one's initial raw height exceeds the build height by more than w, else behind the right one when it does, else fails with both "too short" reasons |
| FoldLemmas.PlanInteriorChoice | src/main.rs:34-186 | in the last case `calculate` returns exactly that error |
| FoldLemmas.StepFailureKinds | src/main.rs:76-169 | the error classification of StepErrorKinds, restated for a layout the loop has reached |
| FoldLemmas.PrefixErrorKinds | src/main.rs:75-183 | a failed fold loop fails at a well with a deficit; FoldTooDeep exactly when it is >= w; a folded boundary neighbour only at the last well; a short boundary neighbour only at the first or last well with raw height < w; no available neighbour exactly at an interior well whose two neighbours are both too short |
| FoldLemmas.PlanErrorKinds | src/main.rs:34-186 | the same classification for the error `calculate` returns, over the initial layout of (n, r) |
| FoldLemmas.BoundaryFoldedOnlyRightmost | src/main.rs:90-112 | a "neighbour already folded" boundary failure can only come from the rightmost well |
| Planner.ModPowStep | src/main.rs:56-62 | one round of square-and-multiply keeps (result * base^exp) mod n |
| Planner.ResidueProductFitsI32 | src/main.rs:58-60 | products of residues of n <= 46340 fit in an i32 |
| Planner.FoldArithmeticFitsI32 | src/main.rs:76-77 | for n - 2147483647 <= f <= 2147483647, `raw_height - f` and the build height fit in an i32 |
| Planner.ModPow | src/main.rs:50-62 | the exponentiation loop returns r^i mod n |
| Planner.FillDepths | src/main.rs:35-69 | the first loop fills depth[i] = Depths(n, r)[i] and returns their running maximum |
| Planner.DepthsAndRawHeights | src/main.rs:35-73 | after the second loop the array is the initial layout |
| Planner.FoldWell | src/main.rs:76-181 | one fold iteration in place on the array: the new array is Step's result, or the error is Step's error |
| Planner.FoldAll | src/main.rs:75-185 | the fold loop returns FoldPrefix over all wells of the array's initial contents |
| Planner.Calculate | src/main.rs:34-186 | `calculate(n, r, f, w)` returns exactly Plan(n, r, f, w) |
| Ranking.KeyLeTotalOrder | src/main.rs:433-436 | the lexicographic key order is reflexive, total, antisymmetric and transitive |
| Ranking.SortByKey | src/main.rs:433-436 | the sort keeps the length and the multiset of elements |
| Ranking.SortByKeySorted | src/main.rs:433-436 | its result is sorted by key |
| Ranking.SortByKeyStable | src/main.rs:433-436 | the elements of each key keep their original order (stability) |
| Ranking.SortedStableUnique | src/main.rs:433-436 | two sorted lists with the same per-key subsequences are equal |
| Ranking.StableSortIsSortByKey | src/main.rs:360-363 | any stable sort by the key yields exactly SortByKey |
| Sweep.Width | src/main.rs:393 | w = max(130 / n, 2.5), equal to 130 / n for n <= 52 |
| Sweep.MaxBuildHeight | src/main.rs:400 | the maximum bounds every build height, and is 0 on an empty layout |
| Sweep.MaxBuildHeightAttained | src/main.rs:400 | on a non-empty layout the maximum is some well's build height |
| Sweep.ZeroCount | src/main.rs:401 | the count is at most the length, 0 iff no well has height 0, the length iff all do |
| Sweep.ZeroPercentage | src/main.rs:402 | the share lies in [0, 100], 0 iff no zero-height well, 100 iff all wells have height 0 |
| Sweep.FTuplesExact | src/main.rs:397 | the innermost loop visits exactly the tuples (n, r, f) with f in the list |
| Sweep.RTuplesExact | src/main.rs:396-397 | the middle loop visits exactly the roots listed for n, with every f |
| Sweep.TuplesExact | src/main.rs:392-397 | the sweep visits exactly the (n, r, f) with n listed and present in the root table, r a root of n, f listed, and w = Width(n) |
| Sweep.SuccessesPlusErrors | src/main.rs:398-425 | every tuple is either a success or an error |
| Sweep.SuccessesExact | src/main.rs:413-414 | the successes are exactly the Some outcomes |
| Sweep.SweepTallies | src/main.rs:392-430 | successes + errors = tuples, and a solution is kept iff some tuple evaluates to it |
| Sweep.ScoreOfSuccess | src/main.rs:398-411 | a success carries its tuple, its layout's attained maximum build height and its zero share over n-1 wells |
| Sweep.AcceptedExact | src/main.rs:416-419 | the accepted list holds exactly the in-band successes |
| Sweep.RankedAccepted | src/main.rs:416-436 | the ranked list is a permutation of the accepted ones, holds exactly the in-band successes, is sorted by (max height, zero share) and is stable |
| Sweep.CollectStep | src/main.rs:413-425 | one outcome appends a success (accepted if in band) or counts one error |
| Sweep.ScoreTuple | src/main.rs:398-426 | one tuple's outcome is Evaluate of it |
| Sweep.SweepF | src/main.rs:397-427 | the innermost loop appends the successes, accepted ones and errors of its tuples |
| Sweep.SweepR | src/main.rs:396-428 | the same for the loop over roots |
| Sweep.SweepN | src/main.rs:393-429 | the same for one n, and nothing when n has no root entry |
| Sweep.RunSweep | src/main.rs:392-436 | the sweep returns all successes, the error count and the ranked accepted list of the reference enumeration |
| Combiner.Floor | src/main.rs:297 | `floor` as an integer k with k <= x < k + 1 |
| Combiner.Ceil | src/main.rs:296 | `ceil` as an integer k with x <= k < x + 1 |
| Combiner.RoundToUsize | src/main.rs:340-341 | `round() as usize`: nearest integer, halves up, negatives give 0 |
| Combiner.TimesIsProduct | src/main.rs:300 | repeated addition of the width is the product `w * count` |
| Combiner.TotalWells | src/main.rs:338 | a mix has at least as many wells as members |
| Combiner.TotalWellsExact | src/main.rs:338 | TotalWells is `(n1 - 1) * c1 + (n2 - 1) * c2` |
| Combiner.CombinableOfExact | src/main.rs:281-284 | exactly the solutions with w >= 6 take part |
| Combiner.MinCopiesPositive | src/main.rs:296 | for w >= 6 the smallest repeat count is between 1 and 20 |
| Combiner.HomCountsInBand | src/main.rs:296-301 | a repeat count lies in [ceil(120/w), floor(140/w)] iff its width is in the band |
| Combiner.HomForExact | src/main.rs:294-313 | the repetitions pushed for s are exactly the in-band repetitions of s |
| Combiner.HomAllSound | src/main.rs:294-313 | every pushed repetition is an in-band repetition of some combinable solution |
| Combiner.HomAllComplete | src/main.rs:294-313 | every in-band repetition of a combinable solution is pushed |
| Combiner.PairRowSound | src/main.rs:323-354 | a mix pushed for count1 has count2 in range, passes both tests and is that mix |
| Combiner.PairRowComplete | src/main.rs:323-354 | each such mix is pushed |
| Combiner.PairGridSound | src/main.rs:322-355 | the same over count1 and count2 |
| Combiner.PairGridComplete | src/main.rs:322-355 | each mix of counts 0..20 passing both tests is pushed |
| Combiner.InGridExact | src/main.rs:322-355 | a mix is in a pair's grid iff it is a candidate of that pair |
| Combiner.PairsBelowSound | src/main.rs:316-357 | a mix pushed before loop point (i, j) comes from a pair (a, b), a < b, visited before it |
| Combiner.PairsBelowComplete | src/main.rs:316-357 | every mix of such a pair is pushed |
| Combiner.AllPairsSound | src/main.rs:316-357 | a mix pushed by the pair loops comes from two positions i < j |
| Combiner.AllPairsComplete | src/main.rs:316-357 | every candidate of two positions i < j is pushed |
| Combiner.AllPairsCandidates | src/main.rs:316-357 | the pair loops push a mix iff it is a candidate of two positions i < j |
| Combiner.CandidatesExact | src/main.rs:294-357 | a combination is generated iff it is an in-band repetition or an in-band mix |
| Combiner.CandidatesInBand | src/main.rs:301-335 | every generated combination has total width in [120, 140] |
| Combiner.HomCandidateShape | src/main.rs:299-310 | a repetition holds count >= 1 copies of s, its height is their maximum, width s.w * count, s's zero share |
| Combiner.PairCandidateShape | src/main.rs:324-352 | a mix holds c1 copies of s1 then c2 of s2, 2 <= c1 + c2 <= 40, height max(h1, h2) (the members' maximum when both counts are positive), width w1*c1 + w2*c2 |
| Combiner.PairHeightCountsAbsentMember | src/main.rs:336 | with count1 = 0 the combined height is still sol1's height, above every member's |
| Combiner.PairWidthGrows | src/main.rs:328 | the width rises with count2 |
| Combiner.PairRowPruned | src/main.rs:330-333 | once the width exceeds 140 no later count2 is in band: the `break` loses nothing |
| Combiner.RoundedZerosExact | src/main.rs:340-341 | for a whole zero share z/(n-1), the rounded zero count of `count` copies is z * count |
| Combiner.PairZeroShareExact | src/main.rs:338-342 | then the combined zero share is the share of z1*c1 + z2*c2 zero wells among the total wells |
| Combiner.SuccessIsWhole | src/main.rs:400-402 | a scored solution has n >= 3 and a zero share z/(n-1) for some whole z |
| Combiner.SweepFeedsCombiner | src/main.rs:483 | the sweep's successes meet the combiner's precondition and have whole zero shares |
| Combiner.CombineRanked | src/main.rs:359-363 | the result is a permutation of the candidates, sorted by (height, \|width - 130\|), stable, and every result is in band |
| Combiner.NoCombinableNoResult | src/main.rs:286-288 | with no combinable solution the result is empty |
| Combiner.PushHomogeneous | src/main.rs:295-312 | the count loop for one solution appends exactly its in-band repetitions |
| Combiner.PushPairRow | src/main.rs:323-354 | the count2 loop, with `continue` and `break`, appends exactly the row of the reference grid |
| Combiner.PushPair | src/main.rs:322-355 | the count1 loop appends the pair's whole grid |
| Combiner.CombinableSolutions | src/main.rs:281-284 | the filter yields CombinableOf |
| Combiner.PushAllHomogeneous | src/main.rs:294-313 | the homogeneous loop yields HomAll |
| Combiner.PushPairsFrom | src/main.rs:317-356 | the j loop for one i appends the mixes of every (i, j), j > i |
| Combiner.PushAllPairs | src/main.rs:316-357 | the pair loops append AllPairs |
| Combiner.FindCombinedSolutions | src/main.rs:277-366 | `find_combined_solutions` returns Combine of its input |
| Scenarios.LayoutA | src/main.rs:48-73 | n = 5, r = 2: depths [1, 2, 4, 3], raw heights [3, 2, 0, 1] |
| Scenarios.PlanA | src/main.rs:34-186 | with f = 0 and w = 26 no well has a deficit, and the layout is A4 |
| Scenarios.WidthA | src/main.rs:393 | the sweep's width for n = 5 is 26 |
| Scenarios.MeasureA | src/main.rs:400-402 | that layout has max build height 3 and one zero well of four, 25% |
| Scenarios.ScoreA | src/main.rs:398-419 | the tuple scores (3, 25%) and is accepted |
| Scenarios.LayoutB | src/main.rs:48-73 | n = 7, r = 3: raw heights [5, 3, 4, 0, 2, 1] |
| Scenarios.PlanB | src/main.rs:34-186 | with f = 1 and w = 3 the layout succeeds as B6 |
| Scenarios.FoldsB | src/main.rs:125-180 | well 3's deficit of 1 is recorded on well 2 as Right (the left neighbour is preferred); no other fold is set |
| Scenarios.PlanC | src/main.rs:78-85 | n = 5, r = 2, f = 4, w = 1 fails at well 0 with required depth 1 >= w |
| Scenarios.LayoutO | src/main.rs:48-73 | n = 11, r = 9: the initial layout O0 |
| Scenarios.PrefixO5 | src/main.rs:75-183 | the first five iterations with f = 5, w = 6 give O5 |
| Scenarios.PlanO | src/main.rs:34-186 | the whole pass succeeds as O10 |
| Scenarios.FoldRecorded | src/main.rs:125-179 | after five iterations on the 11-well layout, well 4's one-unit deficit is recorded on well 5 as (Left, 1) |
| Scenarios.FoldReplaced | src/main.rs:125-179 | well 5's (Left, 1) record is replaced by well 6's (Right, 5) in the final layout; neither of well 4's neighbours records well 4's deficit in the end |
| Scenarios.MixedRounding | src/main.rs:336-352 | 2 copies of (6 wells, 2 zero) and 1 of (10 wells, 4 zero) give width 130, height 4 and zero share 8/22 = 400/11 % |
| Scenarios.MixedInSearch | src/main.rs:316-357 | that mix is among the ranked results of a search over the two solutions |
| Scenarios.SearchE | src/main.rs:277-366 | a search over one solution of width 65 and one of width 2.5 returns exactly two copies of the first |

### Behaviour of the code worth knowing

- **Folds can be overwritten.** One might expect each well to receive at most
  one fold. The interior test only treats a neighbour as taken when its
  fold faces the current well (lines 125-132). So an interior well can replace
  a Left fold that well i-2 left on well i-1. `Scenarios.FoldRecorded` and `Scenarios.FoldReplaced` show it
  for n = 11, r = 9, f = 5, w = 6 (lines 170-179 write the fold over the
  earlier one). The model keeps the code's behaviour.
  `FoldLemmas.FoldRecordedAt` states only what does hold: every fold that
  remains names a real deficit of the neighbour it faces.
- **Absent members still count toward height.** A pair mix with count1 = 0
  still takes max(h1, h2) as its height (line 336).
  `Combiner.PairHeightCountsAbsentMember` states this.
- **Two different neighbour tests.** The boundary test rejects a neighbour
  with raw height < w (lines 97 and 113). The interior test demands
  (neighbour raw height - build height) > w, strictly (lines 133-134). Both
  are modelled as written.

## Left out

- Printing: `print_wells_table` (lines 188-275) and all output in `main`,
  including the per-combination counting and formatting (lines 438-588).
  These are presentation only.
- The constant tables `n_values`, `primitive_roots` and `f_values`
  (lines 372-384). They are parameters of `Sweep.RunSweep`. Whether each r is a
  primitive root is not modelled, so neither is the fact that the depths then
  form a permutation.
- The second call of `calculate` for the best solution (line 473). It
  re-evaluates a deterministic function whose result is only printed.
- `f64` arithmetic. Widths, shares and `w` are exact reals. No rounding occurs
  at the band edges, and there is no NaN, so `partial_cmp(...).unwrap_or(Equal)`
  is a total order here.
- Combiner.FindCombinedSolutions: any two combinations with the same height
  whose exact distances from 130 are equal, repetitions as well as mixes, are
  kept in push order by the model's stable sort. The source compares their f64
  distances (lines 328 and 360-363), and rounding can make those differ. Two
  cases:
  - An n = 7 success (w = 130/7) paired with an n = 11 success (w = 130/11):
    counts (1, 10) and (6, 1) are both exactly 520/77 from 130. The model ranks
    (1, 10) first, as it was pushed first. In f64 the distance of (6, 1) comes
    out slightly smaller, so the source ranks it first.
  - On the program's own tables, (17, 14, 3) with height 12 and (17, 14, 4)
    with height 11 are both successes, both of width 130/17. Eighteen copies of
    (17, 14, 3) (lines 299-310) and a mix of the two with counts (5, 11) are
    both exactly 130/17 from 130, with height 12. The model ranks the
    repetition first, since repetitions are pushed before mixes. In f64,
    18 * fl(130/17) - 130 comes out slightly larger than 130 - (5 + 11) * fl(130/17),
    so the source ranks the mix first.
  Such ties are common among the combinations of the sweep's own successes, so
  the order of a large part of the ranked output can differ from the source's.
  The set of combinations and the order by height agree.
- i32 overflow in the depth generator. The model requires 3 <= n <= 46340 and
  0 <= r < n, and proves that no modular product overflows within that range.
- Planner.Calculate: n < 3 is outside the model, where the source behaves
  differently. At n = 0 the subtraction `n - 1` (line 35) underflows. At n = 1
  there are no wells and `calculate` returns an empty layout. At n = 2 the one
  well is both first and last. The source then indexes the missing `wells[1]`
  (line 91), a panic, exactly when that well's deficit is positive and narrower
  than w. Otherwise it returns Ok or FoldTooDeep.
- Planner.Calculate: f is an unbounded integer, while the source's f is an
  i32. `raw_height - f` (lines 76-77) overflows once f < raw_height - 2147483647,
  and the model does not exclude such f. `Planner.FoldArithmeticFitsI32` shows
  that every value of the fold pass fits in an i32 when
  n - 2147483647 <= f <= 2147483647.
- Combiner.FindCombinedSolutions: requires every combinable input to have
  n >= 2, which rules out the 0/0 (NaN) zero share that a solution with n = 1 would give.
  `Combiner.SweepFeedsCombiner` proves that the sweep only ever passes such
  inputs.
- Error messages. They are structured `FoldError` values that carry the same
  indices and heights, not formatted strings.
- The in-place `sort_by`. It is modelled as a function on sequences
  (`Ranking.SortByKey`), a stable insertion sort. Rust's merge sort is not
  modelled, but `Ranking.StableSortIsSortByKey` shows that every stable sort
  gives the same list.
- Products in the combiner. `sol.w * count` and `(n - 1) * count` are computed
  by repeated addition (`Times`, `Copies`), with lemmas proving them equal to
  the products.
- The combiner's loops. The nested `for` loops of `find_combined_solutions`
  are split into one method per loop level, each proved against the reference
  enumeration.
