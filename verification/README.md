# sqbyl: a verified model of its core

sqbyl builds a text-to-SQL agent from a small set of editable files, scores it on a benchmark, and
improves it with model calls that cost money. This project models the code that decides things in
that loop: when two result sets are equal, what may be spent, which edits are kept, what the
statistics mean, which drafted metadata is trusted, and how often a model is called. Language
models, databases and the file system appear as arbitrary responses, so every theorem holds
whatever they return.

One module per component:

- `Comparator`: comparing result sets exactly, or as a superset of columns by a capped backtracking
  search over column assignments.
- `Orchestrator`: a bounded pool of paid work units with cache priming, a budget gate at dispatch,
  completions in any order, and retries on rate limits.
- `Cost`, `SharedMeter`: list prices and the spend meter, for one caller and for many threads whose
  check, tally and store are separate steps.
- `Text`, `CoachEdits`, `ProjectFiles`: find/replace edits anchored by text, their simulation at
  validation time, and their application to the project's files.
- `Trials`, `SignTest`, `Optimizer`: the keep-or-revert decision over noisy trials, the exact sign
  test behind it, and the optimizer's whole run over a map of files.
- `Wilson`, `Percentile`, `Attention`: the interval, the two percentiles, and the greedy count of
  decisions to a target.
- `Collisions`, `Annotation`: contested synonyms, and the path of a drafted description to a file or
  to the review queue.
- `AgentLoop`, `Selection`, `EvalRun`: answering one question with bounded self-repair, narrowing the
  schema for it, and scoring a benchmark within the quoted number of calls.
- `FreshIds`: fresh ids for synthesized questions and the links between phrasing variants.
- `Wrappers`, `Questions`, `Permutations`, `Sums`, `Sorting`, `Arith`: shared definitions and lemmas.

Floats are reals; a square root is any non-negative root; a dictionary built from a list keeps the
last entry for a key.

## Where the code and its documentation differ

The model follows the code. Each difference is stated with the exact condition under which the two
agree.

- Numbers within the tolerance are documented as equal (comparator.py:10-12). They are quantized, so
  two numbers are equal exactly when no rounding midpoint separates them
  (`Comparator.NumbersCompareEqual`), and numbers much closer than the tolerance can differ
  (`Comparator.CloseNumbersMayDiffer`).
- An anchor must occur once (coach.py:391-416), but occurrences are counted without overlap. The check
  guarantees a unique occurrence for every text exactly when the anchor does not overlap itself
  (`Text.CountOneIsSafeIff`).
- Validation keeps an edit that blanks a semantics file; application refuses it
  (`ProjectFiles.ValidatedAppliesIff`, `ProjectFiles.BlankingEditIsKeptButRefused`,
  `ProjectFiles.WholeFileIsBlanked`).
- Applying is documented to refuse a target that drifted since validation (coach.py:516-519). It does
  exactly when validation saw some text there; a file that was absent, empty or not searched has no
  fingerprint (`ProjectFiles.DriftEscapesIff`, `ProjectFiles.AppendEscapesDrift`).
- A reverted edit is documented to be rolled back byte for byte (optimize.py:357-378). The text is restored
  always, the bytes exactly when the file had no carriage return (`ProjectFiles.RollbackIsExactIff`, `Optimizer.RejectedFiles`).
- With an even number of trials an exact tie clears the median but not the majority; this is the only
  gap between the two (`Trials.MedianClearsIff`).
- A decision's credit is documented to be capped by what it newly covers (attention.py:71-74), but listed
  questions are counted with repeats. The cap holds exactly when no uncovered question is repeated or the
  decision claims no more than it covers (`Attention.CreditIsWithinCoverageIff`,
  `Attention.RepeatIsCreditedTwice`).
- The quote for a single question (estimates.py:55-86) has no line for shortlisting. A run exceeds it
  exactly when it shortlists and also uses every quoted call (`AgentLoop.QuoteIsExceededIff`,
  `AgentLoop.StubbornExceedsTheQuote`).
- Only offered assets are cited by a success; an exhausted call repeats whatever the last readable
  reply claimed (`AgentLoop.CitationsAreOfferedIff`, `AgentLoop.StubbornExceedsTheQuote`).
- An unreadable judge is dropped from the panel. While another readable judge is left that can only make
  the panel bolder, and the condition is exact (`EvalRun.UnreadableJudgeMakesThePanelBolder`, `EvalRun.DissentUnheard`).
- Selection is documented never to return an empty schema (selection.py:106-114). A negative cap can
  empty it (`Selection.SelectionIsEmptyIff`, `Selection.NegativeCapEmpties`).
- `variant_of` is documented to name the canonical question (candidates.py:99-102). It names the first
  surviving question of the group, canonical or not (`FreshIds.VariantsNameCanonicalIff`,
  `FreshIds.LateCanonicalMisleads`).
- The two annotation writers agree except where a blank description meets a blank draft
  (`Annotation.ApplyAgreesWithMergeIff`).

The greedy walk over the queue is documented as greedy. What it reports as reachable does not depend on the
order of the decisions when no question is listed by two of them (`Attention.OrderIsIrrelevant`); with a
shared question it can (`Attention.OrderMatters`).

## Model

| member | source | states |
|---|---|---|
| Comparator.NumbersCompareEqual | packages/sqbyl/src/sqbyl/eval/comparator.py:238-259 | two numeric cells fall in one class exactly when no half-even rounding midpoint lies between their scaled values |
| Comparator.EqualNumbersAreClose | packages/sqbyl/src/sqbyl/eval/comparator.py:238-259 | numbers of one class differ by at most one unit of the last kept digit |
| Comparator.CloseNumbersMayDiffer | packages/sqbyl/src/sqbyl/eval/comparator.py:10-12 | the converse fails: two numbers 2e-8 apart differ at a tolerance of 1e-6 |
| Comparator.SameCellIff | packages/sqbyl/src/sqbyl/eval/comparator.py:238-259 | two cells fall in one class exactly when both are null; or both are numbers, booleans being 0 and 1, that no rounding midpoint separates; or neither is and their texts agree, of which only plain text is trimmed |
| Comparator.WitnessIsAdmissible | packages/sqbyl/src/sqbyl/eval/comparator.py:168-186 | pruning by column marginals loses nothing: every assignment that reproduces gold uses only candidate columns |
| Comparator.CandidateIff | packages/sqbyl/src/sqbyl/eval/comparator.py:174-179 | a generated column is a candidate for a gold column exactly when both hold the same values equally often |
| Comparator.LeavesAreAdmissible | packages/sqbyl/src/sqbyl/eval/comparator.py:188-214 | every full assignment the search tries extends its prefix and picks distinct candidate columns |
| Comparator.AdmissibleIsALeaf | packages/sqbyl/src/sqbyl/eval/comparator.py:188-214 | and every such assignment is tried |
| Comparator.SupersetSearch.Search | packages/sqbyl/src/sqbyl/eval/comparator.py:188-214 | the backtracking search finds the first reproducing assignment in its order unless the cap comes first, counts its attempts exactly, and restores its assignment and used columns on failure |
| Comparator.SupersetSearch.TryComplete | packages/sqbyl/src/sqbyl/eval/comparator.py:188-194 | a full assignment costs one attempt and is accepted exactly when it reproduces gold |
| Comparator.SupersetIffHit | packages/sqbyl/src/sqbyl/eval/comparator.py:144-223 | some injective column map projects the generated rows onto gold's multiset exactly when some tried assignment does |
| Comparator.CompareSuperset | packages/sqbyl/src/sqbyl/eval/comparator.py:144-223 | equal exactly when such a map exists and the search reaches it below the cap; not equal for any other reason than the cap means there is none; the reason given is true of the two results |
| Comparator.ExactIffCellsMatch | packages/sqbyl/src/sqbyl/eval/comparator.py:103-141 | exact equality means equally many columns and a pairing of all rows in which every cell is the same as its counterpart |
| Comparator.SupersetIffCellsMatch | packages/sqbyl/src/sqbyl/eval/comparator.py:144-223 | a superset means distinct generated columns and a pairing of all rows that hold gold's cells |
| Comparator.CompareResultSets | packages/sqbyl/src/sqbyl/eval/comparator.py:103-141 | the exact mode accepts exactly the pairings of rows in which all cells are the same; the superset mode accepts only such pairings over distinct columns, and rejects one only when its cap of 20000 attempts is hit |
| Comparator.OneCellIff | packages/sqbyl/src/sqbyl/eval/comparator.py:103-141 | for one cell against one cell both verdicts are that of the cells |
| Comparator.ExactIsSuperset | packages/sqbyl/src/sqbyl/eval/comparator.py:103-223 | an exact match is a superset match found at the very first attempt |
| Comparator.SupersetIsTransitive | packages/sqbyl/src/sqbyl/eval/comparator.py:144-223 | superset matching composes |
| Comparator.RowOrderIrrelevant | packages/sqbyl/src/sqbyl/eval/comparator.py:233-235 | reordering rows never changes the exact verdict |
| Orchestrator.CompletesIff | packages/sqbyl/src/sqbyl/orchestrator.py:290-327 | a unit completes exactly when it succeeds within `max_retries + 1` attempts after rate limits only; it stops at the first attempt that is not a rate limit, or else at the last one allowed |
| Orchestrator.AttemptsAreAllPaid | packages/sqbyl/src/sqbyl/orchestrator.py:290-327 | the usage of a unit is priced at the sum over all its attempts, rate-limited ones that were billed included |
| Orchestrator.BackoffIsBounded | packages/sqbyl/src/sqbyl/orchestrator.py:329-334 | every delay lies between zero and the cap for non-negative hints (section 10.2.3 of RFC 9110) |
| Orchestrator.BackoffDoubles | packages/sqbyl/src/sqbyl/orchestrator.py:329-334 | a hint is obeyed up to the cap; without one the delay starts from the base and doubles with each attempt up to the cap, at the same jitter |
| Orchestrator.Orchestrator.Exec | packages/sqbyl/src/sqbyl/orchestrator.py:290-327 | the retry loop reports the last attempt with the usage of all of them, and sleeps once between attempts |
| Orchestrator.Orchestrator.Fill | packages/sqbyl/src/sqbyl/orchestrator.py:255-265 | dispatching keeps the run's invariant and stops only when the queue is empty or the pool is full |
| Orchestrator.Orchestrator.Collect | packages/sqbyl/src/sqbyl/orchestrator.py:266-274 | whichever unit completes first is accounted once and leaves the pool |
| Orchestrator.Orchestrator.RunWave | packages/sqbyl/src/sqbyl/orchestrator.py:239-274 | the wave ends with nothing queued and nothing in flight, its invariant kept for every order of completions |
| Orchestrator.Orchestrator.Account | packages/sqbyl/src/sqbyl/orchestrator.py:282-288 | each outcome adds exactly its price to the spend |
| Orchestrator.Orchestrator.Run | packages/sqbyl/src/sqbyl/orchestrator.py:201-237 | one outcome per unit in input order; totals are the sums over outcomes; the run passes through a history that starts when priming ends, makes one dispatch, skip or completion at a time, in any order of completions, skipping exactly when the spend has reached the budget, and ends with the result; in every state of it at most `concurrency` units are in flight and no unit is both running and done; a skipped unit means the total reached the budget, and all later ones are skipped too; the spend stays below budget plus concurrency times the dearest unit, or at the priming spend when nothing else ran; rejected exactly for duplicate ids |
| Orchestrator.NoneSkippedBelowBudget | packages/sqbyl/src/sqbyl/orchestrator.py:276-280 | when all units together would cost less than the budget, every unit runs |
| Orchestrator.CostIsPriceOfUsage | packages/sqbyl/src/sqbyl/orchestrator.py:225-237 | the total cost is the price of the total usage |
| Cost.UnknownModelIsAnUpperBound | packages/sqbyl-runtime/src/sqbyl_runtime/cost.py:47-77 | an unlisted model is billed at least as much as any listed one for the same usage |
| Cost.PriceAtIsAdditive | packages/sqbyl-runtime/src/sqbyl_runtime/cost.py:69-77 | usage may be priced call by call or in total |
| Cost.MillionTokensCostTheRate | packages/sqbyl-runtime/src/sqbyl_runtime/cost.py:69-77 | a million tokens of one kind cost the rate of that kind |
| Cost.ListedRates | packages/sqbyl-runtime/src/sqbyl_runtime/cost.py:47-59 | every listed model reads its cache at a tenth of its input rate and writes at five times it or more; only Claude models pay extra, a quarter, to write the cache |
| Cost.ListPrices | packages/sqbyl-runtime/src/sqbyl_runtime/cost.py:47-77 | what a million tokens in and a million out cost with each listed model, and with any other: the price of the dearest |
| Cost.SpendMeter.Guard | packages/sqbyl-runtime/src/sqbyl_runtime/cost.py:218-231 | a call is refused exactly when it would pass the budget by more than the epsilon |
| Cost.SpendMeter.Record | packages/sqbyl-runtime/src/sqbyl_runtime/cost.py:233-265 | a recorded call adds its price once to the spend and once to the ledger |
| SharedMeter.OvershootIsBounded | packages/sqbyl-runtime/src/sqbyl_runtime/cost.py:169-265 | in every reachable state of N threads the spend plus pending guarded costs is at most budget plus epsilon plus N-1 of the largest guarded costs that fit the budget; one thread never overshoots; at rest the spend is the ledger's sum |
| SharedMeter.GivingUpFrees | packages/sqbyl-runtime/src/sqbyl_runtime/cost.py:218-231 | a call that raises frees what it was guarded for and spends nothing |
| SharedMeter.OvershootIsAttained | packages/sqbyl-runtime/src/sqbyl_runtime/cost.py:176-183 | the bound is exact for every N, budget and largest call: serial calls and then a burst reach it |
| Text.CountIsOne | packages/sqbyl/src/sqbyl/coach.py:402-416 | the count is one exactly when a leftmost occurrence exists and none starts at or after its end |
| Text.CountOneIsSafeIff | packages/sqbyl/src/sqbyl/coach.py:402-416 | a count of one means one occurrence, in every text, exactly for anchors that do not overlap themselves |
| Text.StripIs | packages/sqbyl/src/sqbyl/coach.py:499 | stripping keeps the middle between the outer whitespace, and leaves nothing exactly when there is nothing else |
| Text.UniversalAtLineEnd | packages/sqbyl/src/sqbyl/optimize.py:357-378 | reading text turns each line end, whichever it was, into one newline, and changes nothing else |
| CoachEdits.AnchoredEditIsLocal | packages/sqbyl/src/sqbyl/coach.py:391-416 | an anchored edit succeeds exactly when its anchor counts once, and then replaces only that occurrence; it is not found exactly when it occurs nowhere |
| CoachEdits.AppendKeepsOldText | packages/sqbyl/src/sqbyl/coach.py:398-401 | an edit without an anchor keeps the old text, ends its last line, leaves one line blank and ends the file with a newline, adding nothing else |
| CoachEdits.SwappedEditUndoes | packages/sqbyl/src/sqbyl/coach.py:391-416 | swapping find and replace undoes the edit when the replacement occurs only there |
| CoachEdits.ApplyEdits | packages/sqbyl/src/sqbyl/coach.py:391-416 | the loop applies the edits in order and reports the first that fails with its number |
| CoachEdits.AppliesInStages | packages/sqbyl/src/sqbyl/coach.py:391-416 | applying succeeds exactly when the texts between the edits exist, each edit making the next from the one before |
| CoachEdits.FailureIsFirst | packages/sqbyl/src/sqbyl/coach.py:391-416 | a failure carries the number, from one, of the edit that fails on what the ones before it made |
| CoachEdits.SimulateEdits | packages/sqbyl/src/sqbyl/coach.py:494-506 | the validation loop keeps exactly the edits that apply, and parse when guarded, each after those kept before it |
| CoachEdits.SimulationAgrees | packages/sqbyl/src/sqbyl/coach.py:468-506 | applying the kept edits never fails, gives the simulated text, and every non-blank intermediate text of a semantics file parses |
| CoachEdits.KeepsWhatApplies | packages/sqbyl/src/sqbyl/coach.py:494-506 | the next edit is kept exactly when it applies after those kept so far and leaves a guarded file blank or loadable |
| ProjectFiles.Project.ApplyProposal | packages/sqbyl/src/sqbyl/coach.py:509-555 | writes the whole new text of the target, or nothing at all; no other file changes |
| ProjectFiles.RefusedIff | packages/sqbyl/src/sqbyl/coach.py:509-555 | when each refusal is given: no edits, an unwritable target, drift, a failing edit, a semantics file that would not load; forcing is the same as having no fingerprint |
| ProjectFiles.OnlyContextIsWritten | packages/sqbyl/src/sqbyl/coach.py:366-388 | only the prose file and files below the three context directories are ever written, and none of those is refused as unwritable |
| ProjectFiles.ValidateProposal | packages/sqbyl/src/sqbyl/coach.py:468-506 | the target moves exactly when it does not hold every anchor once and a single other searched file does, and then to that file; the edits are those simulation keeps there, and the fingerprint is of the text seen there |
| ProjectFiles.RelocatedIff | packages/sqbyl/src/sqbyl/coach.py:483-489 | the same condition on the relocation alone: all anchors then count once at the new target, and at no other searched file |
| ProjectFiles.SearchedIff | packages/sqbyl/src/sqbyl/coach.py:450-465 | anchors are searched for in the prose file and in the yaml and sql files one level below the context directories |
| ProjectFiles.ValidatedAppliesIff | packages/sqbyl/src/sqbyl/coach.py:468-555 | on an unchanged target a validated proposal applies exactly when it kept an edit, its target is writable and it does not blank a semantics file; the text written is the simulated one |
| ProjectFiles.BlankingEditIsKeptButRefused | packages/sqbyl/src/sqbyl/coach.py:468-555 | every last edit that leaves a semantics file blank, after any edits before it, is kept by validation and refused by application unless the schema accepts that text |
| ProjectFiles.WholeFileIsBlanked | packages/sqbyl/src/sqbyl/coach.py:468-555 | a concrete such input: an edit that replaces the whole file by nothing |
| ProjectFiles.DriftEscapesIff | packages/sqbyl/src/sqbyl/coach.py:509-537 | with a collision-free digest, a validated edit of a target that changed since escapes the drift refusal exactly when validation saw no text there |
| ProjectFiles.AppendEscapesDrift | packages/sqbyl/src/sqbyl/coach.py:509-537 | concrete such inputs: a line appended to a prose file that did not exist then and holds other lines now |
| ProjectFiles.Project.Snapshot | packages/sqbyl/src/sqbyl/optimize.py:357-367 | remembers the text, or the absence, of a writable target |
| ProjectFiles.Project.Restore | packages/sqbyl/src/sqbyl/optimize.py:370-378 | puts that text back or removes the file; no other file changes |
| ProjectFiles.RollbackIsExactIff | packages/sqbyl/src/sqbyl/optimize.py:357-378 | after a rollback the text is the old one and no other file moved; the bytes are the old ones exactly when they held no carriage return |
| Trials.CorrectIdsCount | packages/sqbyl/src/sqbyl/models/runs.py:167-204 | with unique ids the set of correct ids has as many members as there are correct results |
| Trials.MeetsTargetIff | packages/sqbyl/src/sqbyl/models/runs.py:171-203 | the accuracy meets a target exactly when the rows answered right are that share of all rows |
| Trials.CorrectRowsCount | packages/sqbyl/src/sqbyl/models/runs.py:171-172 | the correct count is the number of rows whose verdict is correct |
| Trials.NetIsDifference | packages/sqbyl/src/sqbyl/optimize.py:293-298 | over one question set, fixed minus broken is the difference in correct counts |
| Trials.DeltaCountsFlips | packages/sqbyl/src/sqbyl/optimize.py:293-298 | over one question set, fixed counts the rows that went from wrong to right, and broken those that went from right to wrong |
| Trials.JudgeIff | packages/sqbyl/src/sqbyl/optimize.py:310-343 | an edit is to be kept exactly when a strict majority of its trials gains enough and, where asked for, the median trial fixes more than it breaks with less than one chance in twenty; that median is the one recorded |
| Trials.VotesOfPermutation | packages/sqbyl/src/sqbyl/optimize.py:310-343 | sorting the trials does not change the votes |
| Trials.VotesAreTrials | packages/sqbyl/src/sqbyl/optimize.py:331 | the votes are the trials at or above the bar, each counted once |
| Trials.MedianClearsIff | packages/sqbyl/src/sqbyl/optimize.py:310-343 | the median trial clears the gain exactly when at least half of the trials do, so a majority implies it |
| Optimizer.KeptGainIsReal | packages/sqbyl/src/sqbyl/optimize.py:293-343 | a kept edit's representative run answers at least `min_gain` more questions than the version before, and is called significant exactly by the rows it flips |
| Optimizer.GainsTelescope | packages/sqbyl/src/sqbyl/optimize.py:129-215 | the final correct count is the baseline's plus every net gain |
| Optimizer.GainsAreBounded | packages/sqbyl/src/sqbyl/optimize.py:129-215 | kept edits times `min_gain` never exceed the questions wrong at the baseline |
| Optimizer.FrontierIsBounded | packages/sqbyl/src/sqbyl/optimize.py:129-215 | so, for `min_gain` at least one, there are no more versions than questions wrong at the baseline and one, whatever the round limit |
| Optimizer.KeptIff | packages/sqbyl/src/sqbyl/optimize.py:156-207 | what becomes of an edit whose trials all return: not applied, kept, reverted or crashed, decided by whether it applies, by the majority of gains, by the sign test on the sets of questions answered right where required, and by the save; the version recorded is the median trial |
| Optimizer.KeptOverRows | packages/sqbyl/src/sqbyl/optimize.py:156-207 | over one question set the same by rows: gains are differences of right rows, and the median is significant when it flips more rows to right than to wrong and the sign test of those flips is below 0.05 |
| Optimizer.SpendIsEverythingBilled | packages/sqbyl/src/sqbyl/optimize.py:129-215 | the spend is the sum of every evaluation that returned and every coach report |
| Optimizer.RaisedIsCrashed | packages/sqbyl/src/sqbyl/optimize.py:172-207 | a trial that raises crashes the proposal and rolls its text back |
| Optimizer.RejectedFiles | packages/sqbyl/src/sqbyl/optimize.py:201-203 | a proposal that is not kept leaves the text, and the bytes exactly when nothing was applied, or the target was new or held no carriage return |
| Optimizer.TraceReplays | packages/sqbyl/src/sqbyl/optimize.py:129-215 | at any point of a run the text is the initial one with exactly the kept edits applied in order |
| Optimizer.TraceTouchesTargets | packages/sqbyl/src/sqbyl/optimize.py:156-207 | a file that no proposal was applied to keeps its bytes; all targets are writable |
| Optimizer.TraceClimbs | packages/sqbyl/src/sqbyl/optimize.py:129-215 | over fixed questions every version gains what it records, and at least `min_gain`, and is marked significant exactly when the sign test of the rows it flips says so |
| Optimizer.KeepExtendsReplay | packages/sqbyl/src/sqbyl/optimize.py:156-207 | keeping an edit extends the replay of kept edits by exactly that edit |
| Optimizer.RollbackKeepsView | packages/sqbyl/src/sqbyl/optimize.py:357-378 | a rollback gives back the whole project's text |
| Optimizer.ViewIsFilesIff | packages/sqbyl/src/sqbyl/optimize.py:357-378 | text and bytes coincide exactly for projects without carriage returns |
| Optimizer.Optimizer.RunTrials | packages/sqbyl/src/sqbyl/optimize.py:178-191 | returns the evaluations that follow, one per trial, or nothing when one raises; pays for each, and at most the estimated batch |
| Optimizer.Optimizer.TryProposal | packages/sqbyl/src/sqbyl/optimize.py:156-207 | a candidate is kept, reverted, not applied or crashes exactly as its target, its trials and the save decide; only a kept one changes the text; a rejected one leaves the very bytes exactly when nothing was applied, or the target was new or held no carriage return; its trials are paid for |
| Optimizer.Optimizer.RunRound | packages/sqbyl/src/sqbyl/optimize.py:150-207 | a round takes its proposals in turn, none left out, up to the first kept one, the first that crashes, or the first whose trials would not fit the budget; only files that some proposal was applied to change a byte |
| Optimizer.Optimizer.Run | packages/sqbyl/src/sqbyl/optimize.py:95-231 | every run is a trace of all proposals met, each decided by its own trials; a round opens only below the target, within the round limit and with its coach call affordable, and a proposal is met only with its trials affordable; in every outcome, crashes included, the text is the initial one with exactly the kept edits replayed in order, no other file than a target changes a byte, and within estimates the spend is at most the budget or the baseline's cost; on return the frontier is the baseline and the kept medians, tried = kept + reverted, picked = kept, the spend is the sum of the calls made, gains telescope, each stop reason holds of the trace, and rounds are bounded by the questions wrong at the baseline; it fails only when a proposal crashes, a coach call that was due raises, or the held-out evaluation does after the loop stopped for one of its reasons |
| Optimizer.Optimizer.Finish | packages/sqbyl/src/sqbyl/optimize.py:234-290 | the picked version is the last kept one, judged significant against the baseline by the sign test on the questions it fixed and broke, which over fixed questions are the rows it flips; the held-out accuracy and its cost are reported exactly when that score is asked for and the set is not empty; fails exactly when that evaluation does |
| SignTest.PValueIsShareOfFalls | packages/sqbyl/src/sqbyl/stats.py:36-52 | the p-value is the share of all fix/break sequences with at least as many fixes |
| SignTest.PValuesComplement | packages/sqbyl/src/sqbyl/stats.py:36-52 | p(f, b) + p(b + 1, f - 1) = 1 |
| SignTest.NoGainIsNoise | packages/sqbyl/src/sqbyl/stats.py:36-60 | without a net gain p is at least one half, so the explicit comparison is implied for alpha up to one half |
| SignTest.PValueIsMonotone | packages/sqbyl/src/sqbyl/stats.py:36-52 | more fixes lower the p-value, more breaks raise it |
| SignTest.SignificanceIsMonotone | packages/sqbyl/src/sqbyl/stats.py:55-60 | significance survives more fixes and fewer breaks |
| SignTest.FiveFixesNeeded | packages/sqbyl/src/sqbyl/stats.py:55-60 | with nothing broken, significance at 0.05 needs exactly five fixes |
| Wilson.ClampsNeverBind | packages/sqbyl/src/sqbyl/stats.py:63-75 | the unclamped ends already lie in [0, 1] |
| Wilson.IntervalIsAcceptedSet | packages/sqbyl/src/sqbyl/stats.py:63-75 | the interval is exactly the set of rates the score test accepts |
| Wilson.IntervalShape | packages/sqbyl/src/sqbyl/stats.py:63-75 | 0 <= low <= observed rate <= high <= 1 |
| Wilson.MirrorImage | packages/sqbyl/src/sqbyl/stats.py:63-75 | failures have the mirrored interval of successes |
| Wilson.BothEndsAreMonotone | packages/sqbyl/src/sqbyl/stats.py:63-75 | both ends rise with the number of successes |
| Percentile.PercentilesAgree | packages/sqbyl/src/sqbyl/profile.py:355-367 | the profiler's PERCENTILE_CONT over the sorted values equals the statistics module's percentile (section 10.9 of ISO/IEC 9075-2:2003) |
| Percentile.BetweenRanks | packages/sqbyl/src/sqbyl/stats.py:18-33 | between two neighbouring ranks the percentile moves evenly from the one sorted value to the next |
| Percentile.PercentileRises | packages/sqbyl/src/sqbyl/stats.py:18-33 | percentiles rise with p and stay between the least and greatest value |
| Percentile.PercentileOfPermutation | packages/sqbyl/src/sqbyl/stats.py:18-33 | the order of the values does not matter |
| Attention.RoutingLosesNothing | packages/sqbyl/src/sqbyl/attention.py:43-65 | every decision is applied or queued, never both: applied exactly when it needs no human and is at least as sure as the threshold; the queue has the highest leverage first, then the lower confidence, then the id |
| Attention.AppliedInOrder | packages/sqbyl/src/sqbyl/attention.py:59-62 | what is applied keeps the order in which it came |
| Attention.PrefixIsBest | packages/sqbyl/src/sqbyl/attention.py:68-111 | no choice of k queued decisions gains more than the first k |
| Attention.FrontIsOptimal | packages/sqbyl/src/sqbyl/attention.py:68-111 | where the greedy walk stops decides reachability, and no smaller selection reaches the target |
| Attention.ReadinessOf | packages/sqbyl/src/sqbyl/attention.py:68-111 | without question lists, the target is reachable exactly when all queued leverage reaches it and the count is the least possible; in general it reports the walk's projection and picks, the projection is at most the accuracy plus the credits of the picks, and with repeat-free lists the picks that name questions are credited no more than the share of the questions they cover |
| Attention.CreditIsCovered | packages/sqbyl/src/sqbyl/attention.py:87-105 | at any point of the walk, with repeat-free lists, the credit of the question-bearing picks is at most the covered questions over n |
| Attention.ProjectionIsCredit | packages/sqbyl/src/sqbyl/attention.py:87-105 | the projection is exactly the accuracy plus what was credited, capped at one |
| Attention.CoveredIsPicked | packages/sqbyl/src/sqbyl/attention.py:90-104 | the covered questions are exactly those a picked decision names |
| Attention.UnclaimedCountIff | packages/sqbyl/src/sqbyl/attention.py:99-104 | as many unclaimed entries are counted as questions are newly covered exactly when no uncovered question is listed twice |
| Attention.CreditIsWithinCoverageIff | packages/sqbyl/src/sqbyl/attention.py:71-74 | the credit, the smaller of the leverage and the share of unclaimed entries, stays within the share newly covered exactly when no uncovered question is repeated or the leverage itself stays within it |
| Attention.RepeatIsCreditedTwice | packages/sqbyl/src/sqbyl/attention.py:99-104 | a concrete decision whose one question in four, listed twice, is credited as two |
| Attention.DisjointReachesIff | packages/sqbyl/src/sqbyl/attention.py:87-110 | when no question is listed by two decisions, the target is reached exactly when the accuracy and every decision's own worth reach it |
| Attention.OrderIsIrrelevant | packages/sqbyl/src/sqbyl/attention.py:87-110 | so the order of such decisions does not decide reachability |
| Attention.OrderMatters | packages/sqbyl/src/sqbyl/attention.py:87-110 | with a shared question it can: a queue in order misses a target that the other order reaches |
| Collisions.DetectCollisions | packages/sqbyl/src/sqbyl/annotate.py:204-241 | what is reported is exactly what is contested, each pair once |
| Collisions.ReportedIffContested | packages/sqbyl/src/sqbyl/annotate.py:204-241 | a pair is reported for a token exactly when the token is not topical, is a synonym word of one column, is known to the other and to no third |
| Collisions.Vocabulary.OnePairPerToken | packages/sqbyl/src/sqbyl/annotate.py:268-274 | a token contests at most one pair |
| Collisions.Vocabulary.DegreeRulesOutThird | packages/sqbyl/src/sqbyl/annotate.py:217-236 | the degree test is the absence of a third holder |
| Collisions.Degrees | packages/sqbyl/src/sqbyl/annotate.py:219-224 | the counted degree of a token is the number of columns whose vocabulary holds it |
| Collisions.Vocabulary.TokensAre | packages/sqbyl/src/sqbyl/annotate.py:216-217 | a token belongs to a column when it is a word of its name or of a synonym, and is contestable there when it is a word of a synonym |
| Annotation.FlagCollisions | packages/sqbyl/src/sqbyl/annotate.py:283-302 | exactly the contested columns have a confidence above one half lowered to it, and nothing else changes |
| Annotation.Union | packages/sqbyl/src/sqbyl/annotate.py:341-351 | the loop keeps the first spelling of each synonym, in order |
| Annotation.DedupKeepsFirst | packages/sqbyl/src/sqbyl/annotate.py:341-351 | a synonym is kept exactly when none before it has the same key |
| Annotation.UnionSettles | packages/sqbyl/src/sqbyl/semantics_io.py:180-190 | synonym union keeps the old list in front, loses no word, and is idempotent |
| Annotation.ReconcileAnnotation | packages/sqbyl/src/sqbyl/annotate.py:355-429 | the loop computes the safe draft and the queued decisions column by column, then the table's |
| Annotation.MergeAnnotation | packages/sqbyl/src/sqbyl/semantics_io.py:134-169 | the loop fills blank descriptions and unions synonyms of matching columns only |
| Annotation.ApplyAgreesWithMergeIff | packages/sqbyl/src/sqbyl/annotate.py:305-338 | the in-memory writer equals the file writer exactly when no blank description meets a blank draft |
| Annotation.ColumnFate | packages/sqbyl/src/sqbyl/annotate.py:355-429 | every drafted column keeps its note, or is filled by a confident usable draft, or is queued exactly once with that draft; never two of these; undrafted columns are untouched |
| Annotation.TableFate | packages/sqbyl/src/sqbyl/annotate.py:413-429 | the table's own description keeps its note, or is filled by a confident draft, or is queued once after the columns; its synonyms are always taken in |
| Annotation.HasNoteIff | packages/sqbyl/src/sqbyl/annotate.py:413 | a description counts as a note exactly when something in it is not whitespace |
| Annotation.ContestedIsQueued | packages/sqbyl/src/sqbyl/annotate.py:277-302 | above one half, a contested un-described column is never written and is queued exactly once |
| Annotation.AuthorsAreTrusted | packages/sqbyl/src/sqbyl/semantics_io.py:134-190 | over any sequence of annotation runs no non-empty description changes and no synonym is lost |
| Annotation.RoundsCompose | packages/sqbyl/src/sqbyl/annotate.py:355-429 | a sequence of runs is one run after the other |
| Annotation.AnnotatingAgainChangesNothing | packages/sqbyl/src/sqbyl/annotate.py:355-429 | the same draft a second time writes nothing more and asks the same questions |
| AgentLoop.Ask | packages/sqbyl-runtime/src/sqbyl_runtime/pipeline.py:143-322 | a call ends at the first attempt that runs, at the first that crashes, or after all have failed, with the events, messages, usage and answer of exactly those attempts |
| AgentLoop.AnswerOverWorld | packages/sqbyl-runtime/src/sqbyl_runtime/pipeline.py:143-322 | an answer has no error exactly when some allowed attempt is read, passes `EXPLAIN` and runs after ones that only drew complaints; it then shows that attempt's plan, query, rows, offered assets and narration |
| AgentLoop.ExhaustedOverWorld | packages/sqbyl-runtime/src/sqbyl_runtime/pipeline.py:306-322 | otherwise every allowed attempt drew a complaint, and the answer carries the last one with the last readable plan and query |
| AgentLoop.ValidateAndExecute | packages/sqbyl-runtime/src/sqbyl_runtime/pipeline.py:325-339 | SQL runs only after `EXPLAIN` passed; both kinds of failure feed the repair |
| AgentLoop.AttemptIs | packages/sqbyl-runtime/src/sqbyl_runtime/pipeline.py:238-302 | when an attempt succeeds, fails or crashes, over what the model and the database returned; a failed one is answered by its own text or query and a prompt that ends in the complaint |
| AgentLoop.Succeed | packages/sqbyl-runtime/src/sqbyl_runtime/pipeline.py:256-291 | a success narrates once on request, keeps narration usage apart, and cites only offered assets |
| AgentLoop.ConversationGrows | packages/sqbyl-runtime/src/sqbyl_runtime/pipeline.py:238-302 | every attempt extends the conversation of the ones before, turns alternate, and it ends with the error to repair |
| AgentLoop.TurnsAlternate | packages/sqbyl-runtime/src/sqbyl_runtime/pipeline.py:238-302 | in every conversation sent, user and model speak in turn and the user speaks last |
| AgentLoop.EventsAreGuarded | packages/sqbyl-runtime/src/sqbyl_runtime/pipeline.py:325-339 | every execution follows a passing `EXPLAIN` of the same SQL, which follows its generation |
| AgentLoop.EveryRunIsBounded | packages/sqbyl-runtime/src/sqbyl_runtime/pipeline.py:221-322 | at most one plus the repairs, plus narration and shortlist; every execution guarded; every conversation alternating; usage is the selection's plus every attempt's |
| AgentLoop.CitationsAreOfferedIff | packages/sqbyl-runtime/src/sqbyl_runtime/pipeline.py:306-358 | all cited assets were offered exactly when some allowed attempt runs or the last readable reply names only offered ones |
| AgentLoop.CallsOfRun | packages/sqbyl-runtime/src/sqbyl_runtime/pipeline.py:143-322 | a run pays for exactly its attempts, the shortlist if there is one, and the narration of a success on request |
| AgentLoop.AttemptsArePaid | packages/sqbyl-runtime/src/sqbyl_runtime/pipeline.py:221-302 | the usage of a run is priced at the context's plus that of every attempt |
| AgentLoop.QuoteIsExceededIff | packages/sqbyl/src/sqbyl/estimates.py:55-86 | for every repair limit from -1 up, the quote for one question is exceeded exactly when the run shortlists and uses every quoted call; below that the quote itself is not a count of calls, and when it is exceeded is stated too |
| AgentLoop.StubbornExceedsTheQuote | packages/sqbyl/src/sqbyl/estimates.py:55-86 | a concrete run, for every number of repairs, that takes one call more than quoted and cites an asset nobody offered |
| AgentLoop.AskNarrowed | packages/sqbyl-runtime/src/sqbyl_runtime/pipeline.py:195-212 | with the schema narrowed first, only a shortlisting strategy adds a call to the quote, its tokens are part of the usage, and an unreadable shortlist ends the call |
| AgentLoop.AnswerIsTheQuerysResult | packages/sqbyl-runtime/src/sqbyl_runtime/pipeline.py:306-358 | an answer without an error carries the rows of the query it shows, the first attempt to run; an answer with one means every attempt failed |
| Selection.SelectContext | packages/sqbyl-runtime/src/sqbyl_runtime/selection.py:97-168 | which tables each strategy returns, when it falls back, what it notes and spends; an unreadable shortlist is the only failure |
| Selection.KeepKnown | packages/sqbyl-runtime/src/sqbyl_runtime/selection.py:262-275 | every known name is kept and every unknown one noted |
| Selection.StandingIsRivals | packages/sqbyl-runtime/src/sqbyl_runtime/selection.py:192-206 | a table's rank is the number of tables that score higher, or equal and are declared earlier |
| Selection.LexicalKeepsIff | packages/sqbyl-runtime/src/sqbyl_runtime/selection.py:130-134 | lexical selection keeps exactly the matching tables outranked by fewer than the cap |
| Selection.LexicalKeepsBest | packages/sqbyl-runtime/src/sqbyl_runtime/selection.py:114-134 | over the caller's limit, where none or zero means ten: a table is kept exactly when it shares a word with the question and fewer tables than that share more, or as many and come earlier |
| Selection.NamedAreCut | packages/sqbyl-runtime/src/sqbyl_runtime/selection.py:136-168 | a model's shortlist keeps the known tables it names, cut off at that limit |
| Selection.KeptDominatesDropped | packages/sqbyl-runtime/src/sqbyl_runtime/selection.py:130-134 | no dropped table scores higher than a kept one |
| Selection.SelectionIsASubsequence | packages/sqbyl-runtime/src/sqbyl_runtime/selection.py:97-168 | the result is a subsequence of the declared tables, within the cap when narrowed |
| Selection.InOrderPlaces | packages/sqbyl-runtime/src/sqbyl_runtime/selection.py:97-168 | listing names in the declared order means at increasing places |
| Selection.SelectionIsEmptyIff | packages/sqbyl-runtime/src/sqbyl_runtime/selection.py:106-168 | the schema is emptied exactly when a negative cap cuts off all the tables a model named |
| Selection.NegativeCapEmpties | packages/sqbyl-runtime/src/sqbyl_runtime/selection.py:130-158 | a concrete such input: a cap of minus one and one table, named by the model |
| EvalRun.FoldPanelIsUnanimity | packages/sqbyl/src/sqbyl/eval/judges.py:238-261 | in any order, correct or incorrect is suggested exactly when a non-empty panel is unanimous and every judge confident |
| EvalRun.AnotherJudgeOnlyAddsDoubt | packages/sqbyl/src/sqbyl/eval/judges.py:238-261 | with a judge anywhere in the panel, it suggests something exactly when it does without and that judge is confident and agrees |
| EvalRun.UnreadableJudgeMakesThePanelBolder | packages/sqbyl/src/sqbyl/eval/judges.py:300-324 | a judge whose answer is unreadable is paid for; dropping it changes the suggestion exactly when it would have dissented or doubted and the others suggest something; the last readable judge dropped leaves none |
| EvalRun.DissentUnheard | packages/sqbyl/src/sqbyl/eval/judges.py:300-324 | a concrete such panel: a pass and a fail leave the row open, and the fail made unreadable suggests it is correct |
| EvalRun.Adjudicate | packages/sqbyl/src/sqbyl/eval/judges.py:264-324 | only rows left to review cost judge calls, one per panel member; unreadable votes are paid for and dropped |
| EvalRun.SuggestionIsFair | packages/sqbyl/src/sqbyl/eval/judges.py:264-324 | a reviewed row has three judges with gold and two without; correct or incorrect is suggested exactly when one answers readably and all that do agree with confidence; every judge is paid for, readable or not |
| EvalRun.ScoreOne | packages/sqbyl/src/sqbyl/eval/runner.py:87-169 | a row states what its answer and panel were, and takes its attempts, its shortlist and its panel in calls; it is an error exactly when every allowed attempt fails, correct exactly when one runs and matches gold, and left to review otherwise |
| EvalRun.VerdictIsFair | packages/sqbyl/src/sqbyl/eval/scorers.py:172-189 | the verdict of a row over the world: error when all allowed attempts fail, correct when one runs and matches gold, review otherwise |
| EvalRun.ScoreRun | packages/sqbyl/src/sqbyl/eval/runner.py:43-184 | however the models behave, a run makes at most the calls quoted with the selection model, or without it those plus one per shortlisting question; the rows of a finished run account for every call; each row is an error, correct or left to review exactly as its attempts and the comparison with gold were |
| EvalRun.EvalEstimate | packages/sqbyl/src/sqbyl/estimates.py:131-180 | the quoted calls are the questions times the worst case of one question, with a line only for priced models |
| EvalRun.QuoteIsAttained | packages/sqbyl/src/sqbyl/estimates.py:131-180 | the quote is reached by a run, and without the selection model it is missed by one call per question |
| EvalRun.QuoteWithoutSelectionHoldsIff | packages/sqbyl/src/sqbyl/estimates.py:131-180 | every finished run of a selection strategy stays within the quote made without the selection model exactly when that strategy does not shortlist; within the quote made with it, always |
| FreshIds.DecimalIsInjective | packages/sqbyl/src/sqbyl/synth.py:209-218 | different counters give different suffixes |
| FreshIds.DecimalReadsBack | packages/sqbyl/src/sqbyl/synth.py:209-218 | the suffix is the counter in decimal digits without a leading zero |
| FreshIds.Pigeonhole | packages/sqbyl/src/sqbyl/synth.py:209-218 | as many ids are taken as candidates have been refused, so the search ends |
| FreshIds.FreshId | packages/sqbyl/src/sqbyl/coach.py:200-208 | returns the first candidate that is free, and only that one becomes taken |
| FreshIds.FirstFreeIsUnique | packages/sqbyl/src/sqbyl/synth.py:209-218 | there is only one such candidate |
| FreshIds.FirstFreeIs | packages/sqbyl/src/sqbyl/synth.py:209-218 | it is the base itself when free, and otherwise the base with the least number from two that is |
| FreshIds.GroundCandidates | packages/sqbyl/src/sqbyl/synth.py:226-282 | survivors are exactly the grounded drafts in order and the rest is dropped with its reason; ids are distinct and unreserved, each the first free one when it was given; a non-canonical survivor is linked to the first survivor of its group |
| FreshIds.GroundingSplits | packages/sqbyl/src/sqbyl/synth.py:246-263 | every draft survives or is dropped, by whether its gold query gave evidence, with the reason given |
| FreshIds.LinkedIff | packages/sqbyl/src/sqbyl/synth.py:272-279 | a survivor is linked exactly when it is not canonical and its group has an earlier survivor |
| FreshIds.LinksAreADepthOneForest | packages/sqbyl/src/sqbyl/synth.py:245-282 | every link goes to one earlier survivor of the same group that has no link itself |
| FreshIds.VariantsNameCanonicalIff | packages/sqbyl/src/sqbyl/models/candidates.py:99-102 | all links name canonical questions exactly when no group of the grounded drafts opens with a non-canonical one followed by another |
| FreshIds.LateCanonicalMisleads | packages/sqbyl/src/sqbyl/synth.py:272-279 | a concrete such group: two variants drafted before their canonical question |

## Left out

- IEEE rounding: floats are reals, so results that differ only by rounding error are not distinguished; booleans count as 1 and 0, as in the code.
- The number of kept digits is a parameter of the comparator; its computation from the tolerance by a logarithm is not modelled.
- Square roots: any non-negative number whose square is the radicand stands for the root.
- Freezing the clock in gold SQL, SQL parsing, the read-only guard and `EXPLAIN` itself belong to libraries that are not part of this model.
- YAML loading and SHA-256 are an arbitrary predicate and an arbitrary function of the text.
- Path spellings, `..` and symbolic links: a target is an already resolved path, so aliases of one file are not modelled.
- File system errors in the middle of applying or restoring an edit are not modelled.
- Unicode: lower-casing and word splitting are arbitrary functions; the slug's text normalisation is left out, since freshness does not depend on it.
- Threads inside one work unit: a unit's attempts take effect when its completion is collected; the orchestrator's and the meter's locks are single steps.
- Random jitter is an arbitrary sequence in [0, 1); sleeping, tracing, progress events and prompt texts have no effect on what is proved.
- The order of the collisions within one pair of columns (alphabetical in the code) is not fixed; their set and uniqueness are.
- Ids in the attention queue are compared by their place in string order.
- Collisions.DetectCollisions: column names of a table are assumed distinct, since the code keys dictionaries by them; the same holds of question ids in `Trials` and of table names where `Selection` and `Annotation` say so.
- Attention.FrontIsOptimal: optimality is stated for decisions that name no question; with question lists the greedy count need not be the least, and what is stated is the credit bound and when order matters.
- AgentLoop.Ask: a token count already spent is lost when a call crashes, as in the code; the model states the events of such a run but not a usage for it.
- The catalog shown to the shortlisting model and the value hints do not change which tables may be returned, and are left out.
- The coach's ranking of proposals, prompt rendering, reports, the console, the command line, HTTP serving and exports: none of them decides what is kept, spent or trusted.
