# ACEE per-file evolution pipeline, modelled in Dafny

This project models the core of the ACEE engine ("autonomous code evolution engine"). For each
JavaScript file of a cloned repository, the engine does the following:
- it extracts the functions through a parser and de-duplicates them by body;
- it scores each function against a fixed table of twelve weighted anti-patterns;
- it asks an external language-model service to rewrite every function that is not too simple and
  scores above zero;
- it guards each rewrite with a bracket-balance check, then splices accepted rewrites into the
  file's content from the last function to the first;
- it saves the file (taking a `.bak` backup once) and checks its syntax;
- when the check fails, it makes one self-correction attempt, then keeps or reverts the file and
  updates the run's audit counters.

Files are processed in consecutive batches whose size is the `ACEE_FILE_CONCURRENCY` setting.

Modules, one file each:

- `Wrappers.dfy`: `Option`.
- `JsText.dfy`: JavaScript's `\s` and `\w` character classes, occurrence counting, and blank
  strings (`trim() == ""`).
- `Regex.dfy`: the fragment of JavaScript regular expressions the anti-pattern table uses.
  Literals, alternatives, `\s`/`\w` with `*`/`+`, `\b` and `[\s\S]{n,}` are matched with
  `RegExp.prototype.test` semantics (a match starting at any offset).
- `Analyzer.dfy` (`acee-engine/modules/analyzer.js`):
  - the `ANTI_PATTERNS` table as a datatype of twelve rules with their patterns, weights and
    reasons;
  - `scoreOptimizationNeed` as a loop method proved against a specification function;
  - from `analyzeFile`, the name-resolution policy and the `Set`-based de-duplication over the
    parser's captured nodes.
- `Limiter.dfy` (`ConcurrencyLimiter` in `acee-engine/modules/evolver.js`): a slot counter plus a
  FIFO queue of waiters, as a class proved against step functions that keep the limiter's
  invariant.
- `Evolver.dfy` (`CodeEvolver` in `acee-engine/modules/evolver.js`):
  - the body-keyed cache and its hit/miss counters;
  - the retry/backoff policy (429 retries after 10, 20 and 40 seconds; 401 throws; anything else
    keeps the original);
  - `sanitizeCode` and `isCosmeticChange`.

  `evolveFunction` is a state transformer `Evolve` over an `EvolverState` record. The class
  method `EvolveFunction` (its path after a cache miss split out as `EvolveMiss`), mutually
  recursive with `HandleError` like the source, is proved equal to it. The external service is an oracle `service: nat -> Response`: the answer to the n-th call
  of the run.
- `Validator.dfy` (`acee-engine/modules/validator.js`): the workspace as a map from paths to
  contents, where the backup of `f` is the entry `f + ".bak"`. It covers `saveEvolution` (backup
  once, then write), `revert`, and the syntax check as an oracle `check: string -> CheckResult`.
- `Splicing.dfy`: `substring(0, start) + code + substring(end)`. Applying non-overlapping
  replacements from the rightmost to the leftmost gives the same text as building the result in
  one pass over the original content.
- `Pipeline.dfy` (`acee-engine/main.js`):
  - `processFile` as the pure specification `FileStep`, with the rewrite loop `RewriteFrom`,
    `CheckAndCorrect` and `SelfCorrect`;
  - the audit counters (`Tally`) and the run `RunFrom` with its batch partition `Batches`;
  - the imperative pipeline: `ProjectAudit`, `RewriteCandidates`, `ProcessFile`, `ProcessBatch`
    and `RunEvolution`, whose methods are proved equal to those functions.

An evolver call can end in one of three ways:
- with a text;
- with an exception (the 401 rethrow, or the name guard);
- `Parked`: waiting in the limiter's queue for a slot. In a sequential run nobody ever frees that
  slot, so the file's outcome is `Stalled` and the run stops there.

Design and code disagree on one point, and the model follows the code. The project's design says
an invalid API key (401) aborts the run. The code differs:
- `processFile` catches the exception of each candidate's rewrite call and moves on to the next
  candidate (acee-engine/main.js:131-133);
- only the self-correction call (acee-engine/main.js:157) lets it escape `processFile`, and then
  `Promise.allSettled` swallows it.

So a 401 skips one candidate, or rejects one file (`Rejected`), and the run goes on.

Quirks of the code that the model keeps:
- The skip test requires BOTH fewer than 4 lines AND fewer than 60 characters.
- The self-correction targets the first visited candidate whether or not it was rewritten, and it
  fires on every failed check: `sortedFunctions.length > 0` always holds there, so the verdict
  "Syntax Error blocked" cannot occur.
- The fix is spliced without a bracket guard.
- The fix prompt is sent as the function body, so it is the cache key. After a service error the
  prompt itself comes back and is spliced into the file.
- A rate-limit retry re-enters `evolveFunction` while still holding its limiter slot. With the
  default two slots and no other call in flight, a second retry waits for a slot forever.

## Model

| member | source | states |
|---|---|---|
| Regex.LitThenLit | acee-engine/modules/analyzer.js:28 | A pattern `literal \s* literal` (the shape of `\.hasOwnProperty\s*\(`) matches any string in which the two literals occur adjacently. |
| Analyzer.WeightOf | acee-engine/modules/analyzer.js:7-31 | Every row of the table weighs at least 1. |
| Analyzer.ScoreOptimizationNeed | acee-engine/modules/analyzer.js:92-104 | The loop's score is the sum of the weights of exactly the rules whose pattern `test`s true on the body. Its reasons are those rules' reason strings in table order, one per matching rule. |
| Analyzer.MatchedSnoc | acee-engine/modules/analyzer.js:96-101 | Taking one more row of the table adds that row's weight and its reason exactly when the row matches, and nothing otherwise. |
| Analyzer.MatchedBounds | acee-engine/modules/analyzer.js:92-104 | The accumulated weight never exceeds the table's total weight. The list of reasons has one entry per matching row, so it is never longer than the table. |
| Analyzer.MatchedWeightZeroIff | acee-engine/modules/analyzer.js:92-104 | Because every weight is positive, the score is 0 if and only if no row matches. |
| Analyzer.MatchedRuleContributes | acee-engine/modules/analyzer.js:97-100 | A matching row raises the score by at least its weight, and its reason is among the reasons. |
| Analyzer.TableFacts | acee-engine/modules/analyzer.js:7-31 | The table has 12 rows, and their weights add up to 26. |
| Analyzer.ScoreProperties | acee-engine/modules/analyzer.js:7-31 | For every body: 0 <= score <= 26 and at most 12 reasons, one per matching rule. The score is 0 exactly when no pattern of the table matches. |
| Analyzer.HasOwnPropertyScores | acee-engine/modules/analyzer.js:28 | A body containing `.hasOwnProperty(` scores at least 1 and lists the reason "uses .hasOwnProperty (prefer Object.hasOwn)". |
| Analyzer.FieldOr | acee-engine/modules/analyzer.js:59-65 | `field?.text \|\| fallback`: a present, non-empty text is the result; a missing field or an empty text gives the fallback. |
| Analyzer.ResolveName | acee-engine/modules/analyzer.js:57-67 | Naming depends on the node type. A declaration takes its name or "anonymous"; a method takes its name or "method". An arrow bound by a `variable_declarator` takes the declarator's name or "arrow_func". Every other node is "anonymous". The name is never empty. |
| Analyzer.CandidatesOf | acee-engine/modules/analyzer.js:70-75 | One candidate per captured node, in capture order. Each candidate carries the node's resolved name, its text and its start/end offsets. |
| Analyzer.AnalyzeFile | acee-engine/modules/analyzer.js:49-85 | The push loop followed by the filter yields the de-duplication of the candidates of all captures. |
| Analyzer.FilterSeen | acee-engine/modules/analyzer.js:80-85 | The `seen`-set filter loop yields `Dedup` of its input: it keeps a candidate the first time its body appears. |
| Analyzer.DedupFromProps | acee-engine/modules/analyzer.js:80-85 | Filtering with an initial `seen` set keeps an order-preserving subsequence with pairwise distinct bodies, none of them already seen. Every input body is either seen or kept. |
| Analyzer.DedupProperties | acee-engine/modules/analyzer.js:80-85 | The de-duplicated list is a subsequence of the input with pairwise distinct bodies, and it covers exactly the input's set of bodies. |
| Analyzer.DedupKeepsFirst | acee-engine/modules/analyzer.js:80-85 | The first candidate carrying a given body is the one kept. |
| Analyzer.ExtractedSpans | acee-engine/modules/analyzer.js:70-75 | Every extracted candidate is the candidate of one captured node (its text and its span), and its name is non-empty. |
| Limiter.AcquireSpec | acee-engine/modules/evolver.js:21-28 | Acquire keeps `running <= maxConcurrent` and "waiters only when full". It grants if and only if a slot is free: a grant increments `running`, and otherwise the caller is appended to the queue. |
| Limiter.ReleaseSpec | acee-engine/modules/evolver.js:30-37 | Release keeps the invariant. With waiters, the oldest waiter is woken and takes the slot: the queue loses its head and `running` is unchanged. Without waiters, `running` drops by one. |
| Limiter.AcquireReleaseRoundTrip | acee-engine/modules/evolver.js:21-37 | A granted acquire followed by a release gives back the original limiter state and wakes nobody. |
| Limiter.ConcurrencyLimiter.constructor | acee-engine/modules/evolver.js:15-19 | A new limiter has `maxConcurrent` slots, none in use, an empty queue, and the invariant holds. |
| Limiter.ConcurrencyLimiter.Acquire | acee-engine/modules/evolver.js:21-28 | The object's new state and the grant are those of `AcquireStep`, and the invariant is kept. |
| Limiter.ConcurrencyLimiter.Release | acee-engine/modules/evolver.js:30-37 | The object's new state and the woken waiter are those of `ReleaseStep`, and the invariant is kept. |
| Evolver.CosmeticInsertion | acee-engine/modules/evolver.js:203-206 | Inserting a whitespace character or a semicolon anywhere is a cosmetic change. |
| Evolver.StripCosmeticIdempotent | acee-engine/modules/evolver.js:204 | The stripped text has no whitespace or semicolon left, so stripping again changes nothing. |
| Evolver.CosmeticIsEquivalence | acee-engine/modules/evolver.js:203-206 | `isCosmeticChange` is reflexive, symmetric and transitive. |
| Evolver.TrimStartSpec | acee-engine/modules/evolver.js:196 | Removing leading whitespace removes a prefix made only of whitespace and keeps the rest of the input as it is. What is left is empty or starts with a non-whitespace character. |
| Evolver.TrimEndSpec | acee-engine/modules/evolver.js:196 | Removing trailing whitespace removes a suffix made only of whitespace and keeps the rest of the input as it is. What is left is empty or ends with a non-whitespace character. |
| Evolver.DropTrailingSemicolonsSpec | acee-engine/modules/evolver.js:197 | Removing `;+$` removes a suffix made only of `;` and keeps the rest of the input as it is. What is left is empty or does not end with `;`. |
| Evolver.StripFencesNoFence | acee-engine/modules/evolver.js:195 | After the fence removal, the text contains no ```` ``` ```` at all. |
| Evolver.StripFencesKeepsFenceFree | acee-engine/modules/evolver.js:195 | A text without ```` ``` ```` passes through the fence removal unchanged: the removal touches nothing but fences. |
| Evolver.SanitizeCodeSpec | acee-engine/modules/evolver.js:191-200 | On an empty input, or an input that cleans to nothing, the result is the fallback. Otherwise the result is non-empty, has no code fence, does not start with whitespace and does not end with `;`. It is a contiguous piece of the fence-free text: only leading whitespace and trailing whitespace and `;` were cut away. |
| Evolver.ErrorPolicySpec | acee-engine/modules/evolver.js:133-161 | A retry happens if and only if the status is 429 and fewer than 3 retries were made, with waits of 10000, 20000 and 40000 ms. A throw happens if and only if the status is 401. Anything else keeps the original. |
| Evolver.Answered | acee-engine/modules/evolver.js:100-121 | Once the service has answered, only the cache changes. The result is a text, and the cache either stays as it was or gains the entry body ↦ that text. |
| Evolver.Evolve | acee-engine/modules/evolver.js:68-130 | Every call keeps the limiter invariant and the slot count. A call that does not wait for a slot leaves the limiter exactly as it found it: the slot is released on every way out. A waiting call has filled every slot and queued itself last. |
| Evolver.AfterError | acee-engine/modules/evolver.js:133-152 | `handleError` gives the same limiter guarantees as `Evolve`, for the retry it may start. |
| Evolver.EvolveGuards | acee-engine/modules/evolver.js:69-72 | An empty name throws the name error, and an empty body comes back unchanged. Neither touches the cache, the counters or the limiter. |
| Evolver.CacheHitShortCircuit | acee-engine/modules/evolver.js:75-80 | A cached body returns the cached text. Only `cacheHits` moves, and no service call is made. |
| Evolver.EvolveCallBudget | acee-engine/modules/evolver.js:68-161 | A missed body never counts a cache hit. It counts at least one miss, and one miss per attempt, that is, per service call, plus one for an attempt left waiting. It makes at most `4 - retryCount` service calls. |
| Evolver.EvolveCacheGrowth | acee-engine/modules/evolver.js:110-121 | A miss adds at most the entry for its own body and keeps every other entry. |
| Evolver.EvolveCacheBound | acee-engine/modules/evolver.js:68-161 | Every cached entry was paid for by a miss: if the cache holds no more bodies than the misses counted, it still does after any call, and neither counter goes down. |
| Evolver.EvolveReturnsWhatItCaches | acee-engine/modules/evolver.js:110-121 | Whenever the body ends up cached, the call returned exactly the cached text. |
| Evolver.SecondCallHitsCache | acee-engine/modules/evolver.js:74-80 | After a call that cached a body, a second call for that body (under any name) returns the same result. It makes no service call and leaves the cache as it is. |
| Evolver.SingleAttempt | acee-engine/modules/evolver.js:100-151 | One attempt with a free slot, by answer. An empty answer returns the body uncached. A cosmetic rewrite caches and returns the body. Any other answer caches and returns the sanitized text. A 401 throws, and any other non-429 error returns the body uncached. |
| Evolver.RetryChainParks | acee-engine/modules/evolver.js:86-161 | With two slots and nothing else running, two rate-limit answers in a row leave the call holding both slots after 2 service calls. Its second retry then waits in the queue. |
| Evolver.CodeEvolver.constructor | acee-engine/modules/evolver.js:41-59 | A new evolver has an empty cache, zero hits, misses and calls, and a fresh two-slot limiter. |
| Evolver.CodeEvolver.GetCacheStats | acee-engine/modules/evolver.js:219-228 | Reports the hit and miss counters and the number of cached bodies. On a valid evolver the entries never exceed the misses: `Valid` carries that bound, and `EvolveFunction` keeps it. |
| Evolver.CodeEvolver.EvolveFunction | acee-engine/modules/evolver.js:68-130 | The object's new state and the outcome are exactly those of `Evolve` on the old state, so every `Evolve` lemma above holds of the method. |
| Evolver.CodeEvolver.EvolveMiss | acee-engine/modules/evolver.js:81-129 | After a cache miss: count it, take a slot or wait for one, call the service and handle the answer or the error. The new state and outcome are exactly those of `Evolve`, and the entries stay within the misses. |
| Evolver.CodeEvolver.StoreAnswer | acee-engine/modules/evolver.js:100-121 | The cache update and result after an answer are those of `Answered`. |
| Evolver.CodeEvolver.HandleError | acee-engine/modules/evolver.js:133-161 | The new state and outcome after an error are those of `AfterError`, including the recursive retry after the backoff. |
| Validator.SaveSpec | acee-engine/modules/validator.js:29-39 | A save fails (the backup copy throws) if and only if neither the file nor its backup exists. Otherwise the file holds the new content, and the backup holds the content from before the first save: an existing backup is never overwritten. |
| Validator.SaveRevertFrame | acee-engine/modules/validator.js:29-39 | Saving `f`, like reverting it, leaves every path other than `f` and `f.bak` unchanged. |
| Validator.RevertSpec | acee-engine/modules/validator.js:121-127 | With a backup, revert copies it over the file and leaves the backup as it was. Without one, it changes nothing. Reverting twice is reverting once. |
| Validator.SavesThenRevert | acee-engine/modules/validator.js:29-39 | Any number of saves followed by a revert bring back the content from before the first save, and all other paths are untouched. |
| Validator.Validator.constructor | acee-engine/modules/validator.js:9-12 | The workspace and the syntax checker are the given ones. |
| Validator.Validator.SaveEvolution | acee-engine/modules/validator.js:29-39 | The new workspace is `SaveStep` of the old one, and a failed save changes nothing. |
| Validator.Validator.ValidateAsync | acee-engine/modules/validator.js:49-53 | The verdict is the checker's verdict on the file's current content, and "Cannot find module" for a missing file. |
| Validator.Validator.Revert | acee-engine/modules/validator.js:121-127 | The new workspace is `RevertStep` of the old one. |
| Splicing.SpliceSpec | acee-engine/main.js:127-129 | On a span inside the content, the splice keeps the prefix before `start`, puts the code in the span's place and keeps the text after `end`. The length changes by \|code\| - (end - start). |
| Splicing.SplicePastEnd | acee-engine/main.js:127-129 | A span starting past the end of the content (where `substring` clamps) appends the code. |
| Splicing.SequentialEqualsReference | acee-engine/main.js:86-129 | Non-overlapping edits applied one after another in descending order give the same text as one left-to-right assembly over the original content. |
| Pipeline.TooSimpleNeedsBoth | acee-engine/main.js:91-98 | A body is skipped as too simple only if it has both fewer than 4 lines and fewer than 60 characters. Either condition alone keeps it. |
| Pipeline.InsertByStartSpec | acee-engine/main.js:87 | Inserting into a list sorted by non-increasing start keeps it sorted. |
| Pipeline.InsertByStartPermutes | acee-engine/main.js:87 | An insertion adds exactly the inserted candidate to the multiset. |
| Pipeline.SortByStartDescSpec | acee-engine/main.js:87-89 | The sort puts candidates in non-increasing `startIndex` order and is a permutation of its input. |
| Pipeline.VisitFilters | acee-engine/main.js:89-129 | A too-simple or zero-score candidate leaves the loop state untouched and never reaches the evolver. Any other candidate makes exactly the evolver call for its name and body. Code that passes the guard is spliced into the content at the candidate's span and recorded as an edit. Rejected code, an exception or a wait leaves the content and edits as they were, and only a wait stalls the loop. |
| Pipeline.RewriteContent | acee-engine/main.js:115-129 | The working content is always the original content with the loop's accepted edits applied in visiting order, and the edit list only grows. |
| Pipeline.RewriteEditsFromCandidates | acee-engine/main.js:115-129 | Earlier edits are kept. Every edit the loop adds replaces exactly the span of a candidate that passed the gate. Its code passed that candidate's guard: not blank, not equal to the original body, balanced `{}` and `()`. |
| Pipeline.RewriteEdits | acee-engine/main.js:115-129 | Every spliced rewrite comes from a gated candidate's span with code that passed its guard. On non-overlapping candidates the edits are non-overlapping, descending and within bounds. |
| Pipeline.RewritesAreOffsetStable | acee-engine/main.js:86-134 | For candidates with non-overlapping spans in descending order, the loop's content equals replacing all accepted spans of the ORIGINAL content at once. |
| Pipeline.SelfCorrectSpec | acee-engine/main.js:143-174 | Self-correction touches only the file and its backup, and keeps the backup. A wait for a slot stalls, an exception rejects, and a blank fix reverts. A non-blank fix is kept if and only if the fix spliced into the backup's content passes the check. A kept file holds that content; any other outcome leaves the backup's content in the file. |
| Pipeline.CheckAndCorrectSpec | acee-engine/main.js:136-197 | The working content is kept with no correction, and `charsSaved` is the length difference, if and only if it passes the first check. Otherwise self-correction runs. A kept file passed the check and holds the working content or the fix spliced into the pre-save original. Every other outcome restores the original, and the backup holds that original. |
| Pipeline.FileStepFrame | acee-engine/main.js:72-198 | `processFile` changes no path other than the file and its backup. |
| Pipeline.FileStepSafety | acee-engine/main.js:72-198 | A kept file passes the syntax check, and a reverted or rejected file is back at its original content. A stalled file was never saved or was restored. A file without functions is untouched. A backup always holds the original. |
| Pipeline.FileStepKept | acee-engine/main.js:167-195 | A kept file's content is the loop's working content, or the fix spliced into the original when self-correction succeeded. `charsSaved` is the original length minus the final length. |
| Pipeline.RevertedOnlyAfterCorrection | acee-engine/main.js:140-179 | A file is never reverted without a self-correction attempt: "Syntax Error blocked" cannot occur. |
| Pipeline.TallySpec | acee-engine/main.js:75-197 | Every file increments `totalScanned`. A kept or reverted file increments exactly one of `successfulFixes` and `syntaxErrorsPrevented`. Only a kept file adds to `totalCharsSaved`, by its `charsSaved`. |
| Pipeline.ProcessorProcessesAs | acee-engine/main.js:72-198 | `Processor` (processFile as a value) agrees with `FileStep` on every state, so it is a witness for the `process` parameter of the run methods. |
| Pipeline.RunFromAppend | acee-engine/main.js:242-256 | Processing two lists of files one after the other is processing their concatenation. |
| Pipeline.RunCounts | acee-engine/main.js:242-256 | A run never counts more verdicts than scans. `totalScanned` grows by at most the number of files, and by exactly that number when the run does not stall. |
| Pipeline.BatchesPartition | acee-engine/main.js:242-243 | The batches partition the file list in order: concatenated they give it back, and each holds between 1 and n files. |
| Pipeline.BatchLoopStep | acee-engine/main.js:242-248 | The slice at offset i is the next batch of the partition. Running it and then the files after it is running every file from i on. |
| Pipeline.NegativeConcurrencyNeverEnds | acee-engine/main.js:17 | As written, a negative setting is taken as the batch size, and after any number of batches the loop index is still below the file count: the loop never ends. |
| Pipeline.FileConcurrency | acee-engine/main.js:17 | The corrected batch size is always at least 1. |
| Pipeline.FileConcurrencyAgrees | acee-engine/main.js:17 | The corrected setting agrees with the written one on every setting except a negative number, where it is 3. |
| Pipeline.CorrectionAfterServiceErrorUsesPrompt | acee-engine/main.js:155-165 | When the fix request meets a service error other than 429 or 401, the prompt itself comes back. The file is then either kept with the prompt spliced in as its "fix", or reverted. |
| Pipeline.ProjectAudit.constructor | acee-engine/main.js:61-66 | All four counters start at 0. |
| Pipeline.ProjectAudit.CountScanned | acee-engine/main.js:75 | `totalScanned` goes up by one, and nothing else changes. |
| Pipeline.ProjectAudit.CountVerdict | acee-engine/main.js:177-197 | The counters move as `Verdict` says: a kept file adds a fix and its saved characters, a reverted one adds a prevented error. |
| Pipeline.RewriteCandidates | acee-engine/main.js:89-134 | The candidate loop ends in exactly the evolver state, content and edits of `RewriteFrom` with processFile's gate, and stalls exactly when it does. |
| Pipeline.ProcessFile | acee-engine/main.js:72-198 | The evolver state, workspace and outcome are those of `FileStep`, and the counters are those of `Tally`. So every `FileStep` lemma above holds of the method. |
| Pipeline.EvolveFile | acee-engine/main.js:76-197 | Reading, analysing, sorting, the candidate loop, the check and the verdict end in exactly `FileStep`'s evolver state, workspace and outcome. |
| Pipeline.CheckAndCorrectFile | acee-engine/main.js:136-197 | Saving, checking and self-correcting end in exactly `CheckAndCorrect`'s result. |
| Pipeline.SelfCorrectFile | acee-engine/main.js:150-191 | The self-correction branch and its final revert end in exactly `SelfCorrect`'s result. |
| Pipeline.ProcessBatch | acee-engine/main.js:246-248 | Processing a batch is `RunFrom` over its files with any per-file step that agrees with `FileStep` over the evolver model. |
| Pipeline.RunEvolution | acee-engine/main.js:242-256 | The batch loop ends in the state of processing the whole file list in order, again with any per-file step agreeing with `FileStep`. A run that does not stall has gone through exactly the batches of the partition. |

## Left out

- Parsing (tree-sitter and its query) is not part of this model. The parser is an oracle
  `parse: string -> seq<CapturedNode>`, and a capture carries its type, name field, parent, text
  and span.
- SHA-256 hashing of bodies is not modelled: the cache is keyed by the body itself, which assumes
  no collisions.
- The prompt text of `buildPrompt` is not modelled: the service oracle answers the n-th call
  whatever it is asked. The service call itself, the `setTimeout` waits and promise resolution
  are not modelled either. A waiter in the limiter is a number, and the backoff is the computed
  wait only.
- Files run one after another: `Promise.allSettled` concurrency, and interleaving between the
  files of a batch, are not modelled. A call that has to wait for a limiter slot stalls the run
  (`Parked`/`Stalled`), because in a sequential run no other call would free the slot.
- The Docker and child-process syntax checks and Docker detection are not modelled: the check is
  an oracle on the file's content. A missing file is assumed to give a "Cannot find module" error.
- The status and dashboard files, MongoDB reporting, the validation audit log, console output,
  timings and the formatted hit rate are not modelled. The ingestor (git clone, directory walk),
  the backend and the frontend are not part of this model.
- Offsets and lengths are counted in characters. The source counts UTF-16 code units, for the
  span offsets, the `charCount < 60` test and `charsSaved`. The two agree only for text without
  surrogate pairs.
- The concurrency environment variable is taken already parsed: `None` when `parseInt` gives
  `NaN`.
- Pipeline.SortByStartDescSpec: proves sorted order and permutation, not the stability of
  `Array.prototype.sort`.
- Pipeline.RewritesAreOffsetStable: nested functions give overlapping spans. Offset stability is
  proved under the precondition that the candidates' spans do not overlap; what the loop does on
  overlapping spans is computed but not characterised.
- Pipeline.ProcessBatch: states the run over any per-file step agreeing with `FileStep`
  (`Processor` is one); the per-file guarantees come from the `FileStep` lemmas.
- Pipeline.RunEvolution: states the run over any per-file step agreeing with `FileStep`
  (`Processor` is one); the per-file guarantees come from the `FileStep` lemmas.
- Evolver.CodeEvolver.GetCacheStats: reports hits, misses and the number of entries, but not the
  `toFixed` percentage string.
- Analyzer.ScoreOptimizationNeed: the regular expressions are modelled by the `Regex` matcher,
  which covers exactly the constructs the table uses. No other regular-expression semantics are
  modelled.

## Findings

| source | as written | input that shows it | evidently intended | confidence | as-written member | corrected member |
|---|---|---|---|---|---|---|
| acee-engine/main.js:17 | `parseInt(process.env.ACEE_FILE_CONCURRENCY, 10) \|\| 3` lets any non-zero number through, including negative ones, and the batch loop `i += FILE_CONCURRENCY` then moves `i` down forever | `ACEE_FILE_CONCURRENCY=-1` with at least one file: `i` takes the values 0, -1, -2, … and `i < files.length` stays true | a positive batch size, falling back to 3 | not executed | Pipeline.NegativeConcurrencyNeverEnds | Pipeline.FileConcurrencyAgrees |
