# Verified model of Slither's core

Slither is an endpoint detection and response system: an agent that watches a
host, evaluates Sigma rules, keeps a tamper-evident log of what it did and can
act on processes, and a server that compiles rules and collects results. This
project models the parts of it whose correctness does not show in any single
function, and proves what they promise for every input, every run or every
reachable state. `dafny verify dfyconfig.toml` checks the whole project.

| files | what they model |
|---|---|
| `JsonText`, `Chain`, `ChainVerifier`, `ChainWriter`, `ChainRuns`, `ChainContents` | the hash chain log: record hashing, verification, the writer with its summary window, whole runs with restarts and shipping, and what they leave in the file and in the summaries |
| `RuleState`, `RuleRuns`, `LiveTable`, `SweepInvisible`, `ContestedTicks` | the sliding-window counter of aggregating rules: ticks, sweeps, eviction at the key cap |
| `RuleAst`, `CondLexer`, `CondParser`, `CondGrammar`, `CondTail`, `CondRoundTrip`, `Quantifiers` | Sigma conditions: tokenizer, recursive-descent parser, a grammar of phrases with their meaning, printer, evaluation |
| `EditDistance` | the two-row Levenshtein distance and the configuration typo hints |
| `HashPool` | the single-flight file hashing pool as an interleaving step protocol |
| `Base64Offsets` | the `base64offset` modifier, against section 4 of RFC 4648 |
| `Framing` | the length-prefixed extension protocol, with the base 128 varints of the Protocol Buffers encoding |
| `KillTree` | the process-tree kill with its ancestor guard |
| `HuntDispatch` | chunking of live-query rows |
| `Timeframe` | Sigma timeframe arithmetic with 64-bit wrap-around |
| `Classify` | edge/server classification of rules and the agent's acceptance of pushed rules |
| `StringOrder`, `Decimal`, `Collections`, `Words`, `Wrappers` | shared helpers |

Code that changes state is a class or a method with loops, proved against a
specification function; the theorems are about those functions and about runs
built from them, and say what they compute without naming them: the parser by a
grammar of phrases, the log by what was asked to be written, the pool by what its
workers found, the compiler by conditions on the rule.

How the model reads the code:

- SHA-256 is a parameter. Nothing assumes it is injective: the theorem about
  tail hashes ends in "equal, or here are two records that collide".
- The chain file is a sequence of lines, each a decoded record or malformed
  JSON. Of the summary, the raw text of a JSON value, the model keeps that `|` and
  the backslash occur inside string literals only and every literal is closed.
  Appends succeed; write and fsync failures and lines above the scanner's buffer
  are not modelled. Sequence numbers and counts are unbounded.
- Map iteration order is arbitrary: where it decides (which of two equally old
  keys is evicted) the choice is recorded in the event, where it must not matter
  (quantifier targets, feed lists) the loops pick elements in any order.
- `sort.Slice` is an insertion by the same comparison, with ties in any order.
- Condition text is a sequence of bytes, as the tokenizer treats it; lower-casing
  is for ASCII letters. `editDistance` works on characters standing for runes.
- The keys of a selection map are the names of its selections.
- The `/proc` tree and the status files are one fixed snapshot. The parsed target
  pid, who survives the grace period and cancellation are parameters.
- The hash pool's steps are its critical sections and channel operations, taken
  by any number of submitting threads and a fixed set of workers.
- A rule enters the classifier with its YAML, condition and timeframe already
  parsed; a registry maps feed identifiers to entry counts.
- `readUvarint` combines disjoint bits with `|`; the model adds them.

Where the code does less than a comment or a plain reading says, the model
follows the code and states the exact condition:

- Editing a record is said to break its hash (agent/internal/selfprotect/chain.go,
  header comment). The hash input joins fields with `|` and does not escape it, so
  for a `ts` or `kind` that contains `|` the boundary between the two can be moved
  without any trace. `Chain.PipeFreeIsExact` shows that another file has the same
  hash inputs if and only if some `ts` or `kind` contains `|`. The summary may
  contain it and may be edited too: being JSON, it shows where it begins.
- The first summary after a restart is said to overlap the last one shipped
  (agent/internal/selfprotect/chain.go, comment in `recover`). The seeded window
  holds 512 links and is not flagged, so `ChainRuns.RestartConnects` shows that
  this holds if and only if fewer than 512 records came after the last one shipped,
  and that nothing is skipped if and only if at most 512 did;
  `ChainRuns.RestartCanSkip` is a run that skips one.
- Callers take a read error that is or wraps `io.EOF` for a clean end of the
  stream (agent/internal/extensions/process.go, the receive loop). The errors for a
  cut length prefix and for a prefix without any payload wrap it as well.
  `Framing.EofTestExact` shows that the test fails if and only if some but not all
  payload bytes of a frame arrived, and `Framing.EofExamples` names two cut frames
  that pass it.
- `base64Offsets` is said to trim what surrounding data would change. It trims the
  characters that belong to the padding only, so one character at either end may
  still mix in neighbouring bits. `Base64Offsets.FormOccursExactly` gives the
  condition under which the form is found.
- `parseTimeframe` multiplies in 64 bits before its range test.
  `Timeframe.TimeframeExact` shows it is right if and only if the product does not
  wrap to a small value, and `Timeframe.WrapExample` names such an input.
- A printed `near` condition carries parentheses the parser does not accept around
  `near`, so `CondRoundTrip.RoundTrip` holds if and only if there is no `near`.
- Eviction picks among equally old keys in map order. The ticks determine all
  counts if and only if no tick has to displace one of two equally old live keys
  (`ContestedTicks.DeterminedExactly`); `ContestedTicks.TiesMatter` is a case where
  one does. Sweeps are invisible either way.

## Model

| member | source | states |
|---|---|---|
| `JsonText.NoTailIsRaw` | agent/internal/selfprotect/chain.go:412-417 | what follows a separator inside the raw text of a JSON value is never itself the raw text of one |
| `JsonText.SameEnding` | agent/internal/selfprotect/chain.go:412-417 | two raw JSON values that end the same text behind a separator are equal |
| `Chain.CanonicalSummary` | agent/internal/selfprotect/chain.go:412-417 | equal hash inputs have equal summaries and previous hashes, with separators in any field |
| `Chain.CanonicalInjective` | agent/internal/selfprotect/chain.go:412-417 | a record whose `ts` and `kind` hold no separator shares its hash input with no other record, whatever that one's fields hold |
| `Chain.PrevHashPipeFree` | agent/internal/selfprotect/chain.go:460-520 | in an accepted file every `prev_hash` is a digest or the zero hash, so it never holds a separator |
| `Chain.TailHashDeterminesChain` | agent/internal/selfprotect/chain.go:460-520 | an accepted file whose `ts` and `kind` hold no separator and any accepted file with the same last hash are identical line by line, or two of their records collide under the digest; nothing is asked of the second file |
| `Chain.SameTailSameLength` | agent/internal/selfprotect/chain.go:460-520 | without a collision, the same tail hash means the same number of records, even with separators in the fields |
| `Chain.PipeFreeIsExact` | agent/internal/selfprotect/chain.go:412-417 | an accepted file has a different accepted twin with the same hash inputs and tail hash, summaries free to differ, if and only if some `ts` or `kind` contains the separator |
| `Chain.CanonicalExample` | agent/internal/selfprotect/chain.go:412-417 | the order and the separators of the fields in the hash input, on one record |
| `ChainVerifier.VerifyReader` | agent/internal/selfprotect/chain.go:460-520 | no error if and only if every line is a record with its own number, the right previous hash and the right own hash, whatever `since` is; otherwise the first bad line with its number and the first of malformed, number, previous hash and own hash that applies; the count is the number of records before it that `since` does not hide |
| `ChainWriter.ChainWriter.constructor` | agent/internal/selfprotect/chain.go:128-166 | opening recovers the file and adds the anchor record exactly when nothing was recovered |
| `ChainWriter.ChainWriter.Recover` | agent/internal/selfprotect/chain.go:363-407 | the scan stops at the first malformed line, continues the numbering and hash from the last good record and seeds the window with its last 512 links |
| `ChainWriter.ChainWriter.Append` | agent/internal/selfprotect/chain.go:172-190 | a closed writer or a summary that cannot be marshalled changes nothing; otherwise the file gains one line, which holds the given time and kind, the summary or `{}` for a missing one, the writer's number and hash, and its own hash |
| `ChainWriter.ChainWriter.AppendRecord` | agent/internal/selfprotect/chain.go:193-234 | the new last line holds the number, time, kind, summary, previous hash and own hash; the writer moves right behind it, counts it unless it is the anchor, and keeps its link |
| `ChainWriter.ChainWriter.PushLink` | agent/internal/selfprotect/chain.go:239-242 | the window keeps the last 512 links and is flagged when it drops one |
| `ChainWriter.ChainWriter.CapWindowLinks` | agent/internal/selfprotect/chain.go:247-255 | the in-place shift keeps exactly the last 512 links, flagging the window if it cut any |
| `ChainWriter.ChainWriter.SnapshotAndReset` | agent/internal/selfprotect/chain.go:280-312 | the snapshot is the old window with the last number and hash; the new window is empty |
| `ChainWriter.ChainWriter.ReturnWindow` | agent/internal/selfprotect/chain.go:325-345 | counts add up, returned links come first, the flag is kept, the start goes back if earlier, an empty snapshot changes nothing |
| `ChainWriter.ChainWriter.Close` | agent/internal/selfprotect/chain.go:349-358 | the writer is closed and nothing else changes |
| `ChainRuns.SummaryTick` | agent/internal/app/app.go:573-604 | one turn of the ticker: the snapshot is sent when there is room and returned to the writer otherwise |
| `ChainRuns.ReturnUndoesSnapshot` | agent/internal/selfprotect/chain.go:280-345 | returning a snapshot at once restores a window within its cap exactly, only the start of an empty window moves |
| `ChainRuns.StepPreserves` | agent/internal/selfprotect/chain.go:128-345 | every event (append, snapshot, ship, return, restart) keeps the invariant about known links, window, in-flight and shipped summaries, over any file |
| `ChainRuns.RunInvariant` | agent/internal/selfprotect/chain.go:128-345 | that invariant in every state of every run from any file |
| `ChainRuns.WriterAgreesWithVerifier` | agent/internal/selfprotect/chain.go:128-234 | at every moment of every run with appends, snapshots, returns and restarts the verifier accepts the file if and only if it accepted the one first found; then records are numbered 0..n-1 and the writer stands right behind the last |
| `ChainRuns.KnownIsFile` | agent/internal/selfprotect/chain.go:363-407 | what a writer knows are the links of the found lines that decoded and of every line written since |
| `ChainRuns.LiveWindowIsSuffix` | agent/internal/selfprotect/chain.go:239-255 | over any file, the live window is always a suffix of at most 512 of the links the writer knows and every record it appended follows on in number and hash; over an accepted file the window is gap-free |
| `ChainRuns.WitnessTiling` | agent/internal/selfprotect/chain.go:280-345 | over any file, a shipped summary carries the last 512 of the links from the end of the previous one (at first, from the start of the seeded window) to its own last record, is flagged if and only if that is not all, and ends in its last hash |
| `ChainRuns.RestartConnects` | agent/internal/selfprotect/chain.go:379-405 | an unflagged first summary after a restart carries every record since the last one shipped if and only if at most 512 came after it, overlaps it if and only if fewer did, and carries the whole chain if at most 512 records were found |
| `ChainRuns.RestartCanSkip` | agent/internal/selfprotect/chain.go:379-405 | reopening 513 records that were never shipped gives an unflagged summary without the first |
| `ChainRuns.CountConservation` | agent/internal/selfprotect/chain.go:218-225 | shipped counts, in-flight count and live count add up to the non-anchor records this writer appended, in every run over any file, truncation or not |
| `ChainContents.WrittenAsAsked` | agent/internal/selfprotect/chain.go:128-234 | at every moment of every run the file is the one found followed by exactly the appends asked for, with their time, kind and summary, in order, and an anchor for each opening of a file nothing could be recovered from |
| `ChainContents.LinksAreRecords` | agent/internal/selfprotect/chain.go:239-345 | every link of every shipped summary has the number, kind and hashes of one record of the file |
| `ChainContents.WindowsMeet` | agent/internal/selfprotect/chain.go:280-345 | shipped windows follow each other in time: the first begins when the writer was opened and each other one where the one before ended, or later where an empty window was handed back in between |
| `RuleState.RuleState.constructor` | agent/internal/ruleengine/state.go:49-59 | an empty table with the window in nanoseconds |
| `RuleState.RuleState.Tick` | agent/internal/ruleengine/state.go:94-124 | a new key at the cap first evicts one of the least recently touched keys; the key's ring is trimmed and stamped, and the rule fires if and only if the number of timestamps left is above, at least, below, at most, equal or unequal to the threshold, as its operator says |
| `RuleState.RuleState.Sweep` | agent/internal/ruleengine/state.go:131-149 | every ring is trimmed and empty rings are deleted, in any iteration order |
| `RuleState.RuleState.EvictLRULocked` | agent/internal/ruleengine/state.go:155-175 | removes one key with the minimal last touch, if there is any |
| `RuleRuns.RunFaithful` | agent/internal/ruleengine/state.go:94-175 | in every run with a clock that never goes back, what a key's ring holds is the end of that key's tick history; what is missing is expired or no later than the last live timestamp an eviction took |
| `RuleRuns.ExactOrUnder` | agent/internal/ruleengine/state.go:94-124 | under a clock that never goes back, the compared count never exceeds the number of ticks on the key in the window, and equals it if and only if no eviction took a timestamp that is still in the window |
| `RuleRuns.FiresExactly` | agent/internal/ruleengine/state.go:180-196 | without an eviction that took a timestamp still in the window, a rule fires if and only if the number of ticks on the key in the window is above, at least, below, at most, equal or unequal to the threshold, for each of the six operators |
| `RuleRuns.FiresOnlyWithReference` | agent/internal/ruleengine/state.go:180-196 | even with such a loss, a `>` or `>=` rule fires only if that number of ticks is above or at least the threshold, and a `<` or `<=` rule fires whenever it is below or at most the threshold |
| `SweepInvisible.EvictionRefines` | agent/internal/ruleengine/state.go:155-175 | the evicted key is either fully expired, or one of the oldest live keys of a full table |
| `SweepInvisible.RunRefines` | agent/internal/ruleengine/state.go:94-175 | every run is a sequence of allowed moves of an abstract map of live timestamps, which never hears about sweeps, with the same ticks and counts |
| `SweepInvisible.MovesAreReal` | agent/internal/ruleengine/state.go:94-175 | every sequence of allowed moves is played by some run of any plan of ticks and sweeps with those ticks |
| `SweepInvisible.SweepsAreInvisible` | agent/internal/ruleengine/state.go:131-149 | whatever counts a run compares, some run of any other plan of sweeps with the same ticks compares too, under any cap and with ties |
| `SweepInvisible.SweepFreeTwin` | agent/internal/ruleengine/state.go:131-149 | in particular a run that never sweeps |
| `ContestedTicks.SameTicksSameCounts` | agent/internal/ruleengine/state.go:94-175 | if no tick but perhaps the last is contested, runs with the same ticks compare the same counts, wherever they sweep |
| `ContestedTicks.DeterminedExactly` | agent/internal/ruleengine/state.go:155-175 | all runs whose ticks are a beginning of a given sequence and one more tick compare the same counts if and only if no tick of the sequence has to displace one of two equally old live keys |
| `ContestedTicks.NoTiesUncontested` | agent/internal/ruleengine/state.go:155-175 | no tick is contested when no two keys tick at the same instant, as under a strictly increasing clock |
| `ContestedTicks.TiesMatter` | agent/internal/ruleengine/state.go:155-175 | two legal runs over the same four ticks, with a contested one, compare different counts |
| `LiveTable.TableRespectsCap` | agent/internal/ruleengine/state.go:94-124 | no run ever holds more keys than the cap, or one for a cap of zero |
| `SweepInvisible.CapRespected` | agent/internal/ruleengine/state.go:94-124 | nor does the abstract map |
| `RuleAst.EvalSelection` | pkg/ruleast/rule.go:348-362 | some branch has all its predicates satisfied |
| `RuleAst.SelectionMeaning` | pkg/ruleast/rule.go:348-362 | no branch never matches, an empty branch always does, a further branch is an alternative and a further predicate a further condition |
| `RuleAst.EvalQuantifier` | pkg/ruleast/rule.go:615-629 | the early-exit loop answers yes if and only if the threshold is positive and at least that many targets match |
| `RuleAst.HitsIsCardinality` | pkg/ruleast/rule.go:615-629 | the counter is the number of positions that match |
| `RuleAst.HitsBounds` | pkg/ruleast/rule.go:615-629 | it reaches the number of targets if and only if all match, and one if and only if some does |
| `CondLexer.TokenizeCondition` | pkg/ruleast/condition.go:109-193 | the index loop yields the longest-match token sequence, or the first unexpected character |
| `CondLexer.LexWellFormed` | pkg/ruleast/condition.go:109-193 | identifier tokens are non-keyword words and number tokens are digit strings |
| `CondLexer.KeywordsInAnyCase` | pkg/ruleast/condition.go:109-193 | the six keywords, in any mix of cases, and no other words are keywords |
| `CondParser.MatchSelections` | pkg/ruleast/condition.go:467-489 | `them`, a name or a trailing-star pattern yields each matching selection once, whatever the map order; unknown names and misplaced stars are errors |
| `CondParser.SortedTargets` | pkg/ruleast/condition.go:326-368 | sorting any listing of the matching selections by name gives the one list in strict name order |
| `CondParser.CondParser.ParseOr` | pkg/ruleast/condition.go:224-241 | result, error and position are those of the `or` level of the grammar function, which `CondGrammar.OrSound` and `CondGrammar.OrReads` tie to phrases |
| `CondParser.CondParser.ParseAnd` | pkg/ruleast/condition.go:243-260 | the same for the `and` level |
| `CondParser.CondParser.ParseNot` | pkg/ruleast/condition.go:262-273 | the same for prefix `not` |
| `CondParser.CondParser.ParsePrimary` | pkg/ruleast/condition.go:275-320 | the same for parentheses, numeric, `all` and `any` quantifiers and selection names; terminates in mutual recursion with the others |
| `CondParser.CondParser.ParseQuantifier` | pkg/ruleast/condition.go:326-368 | sorted targets, clamped threshold, label with the original count |
| `CondParser.CondParser.ParseAggregation` | pkg/ruleast/condition.go:385-444 | the piped `count() by … OP N` tail, field list, position and each error |
| `CondParser.ParseCondition` | pkg/ruleast/condition.go:43-84 | the imperative parser computes the grammar function's result for every text, including binary `near`, the aggregation tail and each error; `CondGrammar.ParseExactly` says which texts that accepts and with which tree |
| `CondGrammar.OrSound` | pkg/ruleast/condition.go:224-320 | whatever the expression levels of the parser accept is the yield of a phrase, an or-list of and-lists of negations and atoms folded to the left, with the tree that phrase denotes |
| `CondGrammar.OrReads` | pkg/ruleast/condition.go:224-320 | every phrase that stands in the tokens and is not continued behind is read whole, with the tree it denotes |
| `CondGrammar.TailExactly` | pkg/ruleast/condition.go:385-444 | the aggregation tail is accepted, to the end of the tokens, if and only if it is `count`, parentheses, an optional list of fields behind `by`, a comparison with its operator and a number |
| `CondGrammar.ConditionExactly` | pkg/ruleast/condition.go:43-84 | a token sequence is accepted with a tree and a tail if and only if it is the yield of a phrase with that tree, optionally followed by that tail, or two single selections joined by `near` |
| `CondGrammar.ParseExactly` | pkg/ruleast/condition.go:43-84 | the same for every text |
| `CondGrammar.Precedence` | pkg/ruleast/condition.go:224-260 | `a or b and c` is `a or (b and c)`, `a and b or c` is `(a and b) or c`, and `and` associates to the left, for all selections |
| `CondGrammar.MeaningHolds` | pkg/ruleast/rule.go:553-629 | the tree of a phrase evaluates to the truth value of the phrase: conjunction, disjunction, negation, a selection, or that many of the named selections |
| `CondTail.TailParses` | pkg/ruleast/condition.go:385-462 | an expression printed with any aggregation tail parses back to both |
| `CondTail.TailRoundTrip` | pkg/ruleast/condition.go:43-84 | for every text that parses with a tail, printing expression and tail and parsing again gives the same two |
| `CondRoundTrip.ParserProduces` | pkg/ruleast/condition.go:224-368 | every near-free expression the parser returns is built from identifier words of the map and quantifiers its targets determine |
| `CondRoundTrip.LexPrint` | pkg/ruleast/rule.go:553-581 | the printed form of a producible expression tokenizes to its own tokens, whatever delimiter follows |
| `CondRoundTrip.PrintParses` | pkg/ruleast/rule.go:641-646 | parsing the printed form of a producible expression gives the same tree, clamped quantifiers included |
| `CondRoundTrip.NearIsRejected` | pkg/ruleast/rule.go:590-600 | the printed form of a temporal join is a syntax error |
| `CondRoundTrip.RoundTrip` | pkg/ruleast/condition.go:43-84 | for every text that parses, printing and parsing again gives the same tree if and only if it is no temporal join |
| `Quantifiers.TargetsInNameOrder` | pkg/ruleast/condition.go:326-368 | the resolved targets are exactly the matching selections, in strict name order |
| `Quantifiers.TargetNames` | pkg/ruleast/condition.go:467-489 | `them` is every selection, a plain name that one or an error, a name with one trailing star the selections that begin so, and any other star is an error |
| `Quantifiers.LabelKeepsCount` | pkg/ruleast/rule.go:641-646 | the printed quantifier shows the count the author wrote, clamped or not, and the target |
| `Quantifiers.QuantifierMeaning` | pkg/ruleast/rule.go:615-629 | the threshold lies in 1..number of targets; evaluation holds if and only if that many matching names match, so `all of` is the conjunction and `any of` the disjunction |
| `EditDistance.Distance` | agent/internal/config/config.go:503-525 | the two rolling rows compute the recursive Levenshtein distance |
| `EditDistance.FillRow` | agent/internal/config/config.go:513-522 | one pass over the row turns distances to a prefix into distances to the next prefix |
| `EditDistance.LevIsShortestScript` | agent/internal/config/config.go:503-525 | that distance is the length of a shortest insert/delete/substitute script |
| `EditDistance.Symmetric` | agent/internal/config/config.go:503-525 | it is symmetric |
| `EditDistance.SelfDistance` | agent/internal/config/config.go:503-525 | it is zero on equal strings |
| `EditDistance.ZeroOnlyIfEqual` | agent/internal/config/config.go:503-525 | and only on them |
| `EditDistance.Triangle` | agent/internal/config/config.go:503-525 | it satisfies the triangle inequality |
| `EditDistance.Suggest` | agent/internal/config/config.go:487-501 | a nearest candidate if some candidate is within 2 edits, otherwise nothing |
| `HashPool.StepPreserves` | agent/internal/enricher/hasher.go:85-159 | every step of every thread keeps the protocol invariant |
| `HashPool.OneFlightPerKey` | agent/internal/enricher/hasher.go:85-120 | a key is pending if and only if someone answers for it (registering submitter, queued job or worker), and it is exactly one party |
| `HashPool.NoChannelOrphaned` | agent/internal/enricher/hasher.go:133-159 | no send or close ever blocks or panics; every channel is waiting with a party responsible for it, in a delivering thread's list, or served with "" or a hash computed for its key |
| `HashPool.FlightDelivers` | agent/internal/enricher/hasher.go:122-159 | every subscriber of a flight that completed receives, if anything, the hash the worker found, and of one that could not be queued the empty string |
| `HashPool.ComputedIsFound` | agent/internal/enricher/hasher.go:122-146 | what counts as computed for a key is exactly what some worker found for it earlier in the run |
| `HashPool.HitAnswersFlight` | agent/internal/enricher/hasher.go:85-146 | a submission answered from the cache gets the hash that the completed flight for its key found |
| `HashPool.QueueBounded` | agent/internal/enricher/hasher.go:48-120 | the queue never holds more than four jobs per worker, and a submission is turned away only when it holds that many |
| `HashPool.ExactlyOnce` | agent/internal/enricher/hasher.go:133-159 | between any two moments of a run a channel only goes from empty to sent to closed, with one value |
| `HashPool.CacheIsComputed` | agent/internal/enricher/hasher.go:133-146 | every cached value is non-empty and was computed by a worker for that key |
| `HashPool.CachedForGood` | agent/internal/enricher/hasher.go:85-146 | a cached value never changes, and once a key is cached nobody registers, queues or hashes it again |
| `HashPool.QuietMeansServed` | agent/internal/enricher/hasher.go:85-159 | with all threads idle and the queue empty, nothing is pending and every channel is closed |
| `HashPool.WorkDecreases` | agent/internal/enricher/hasher.go:85-159 | every step but a new submission brings the pool strictly closer to rest |
| `HashPool.DrainsInBoundedSteps` | agent/internal/enricher/hasher.go:122-159 | once submissions stop, a number known from the state bounds the steps that are left, under any scheduling |
| `HashPool.StuckMeansServed` | agent/internal/enricher/hasher.go:122-159 | where no step but a submission is possible, every subscriber has been served: the pool cannot deadlock |
| `Base64Offsets.EncodeAt` | pkg/ruleast/sigma.go:781-783 | each character of an encoding from the three bytes it covers, or padding |
| `Base64Offsets.GroupValue` | pkg/ruleast/sigma.go:781-783 | the four sextets of a group are the base 64 digits of its three bytes |
| `Base64Offsets.Vectors` | pkg/ruleast/sigma.go:781-783 | four encodings with and without padding, with letters, digits and both symbols |
| `Base64Offsets.TrimmedEncoding` | pkg/ruleast/sigma.go:806-808 | the encoding without padding, by length and by character |
| `Base64Offsets.FormOccursExactly` | pkg/ruleast/sigma.go:790-814 | the offset form occurs at its place in the encoding of prefix, value and suffix if and only if the neighbouring bits that share a character with the value are zero |
| `Base64Offsets.Base64Offsets` | pkg/ruleast/sigma.go:790-814 | the three forms in order; for an empty value the two forms the code leaves |
| `Framing.Connection.WriteFrame` | pkg/extsdk/codec.go:63-80 | one frame is appended if and only if the payload is within 16 MiB |
| `Framing.Connection.ReadUvarint` | pkg/extsdk/codec.go:104-129 | value, remaining stream and error of the length prefix, on success and on failure |
| `Framing.Connection.ReadFrame` | pkg/extsdk/codec.go:82-98 | payload, remaining stream and error of one frame, on success and on failure, with what the error wraps |
| `Framing.UvarintExact` | pkg/extsdk/codec.go:104-129 | whatever is accepted has at most ten bytes, decodes to its exact base 128 value and stays below 2^64 |
| `Framing.UvarintRefuses` | pkg/extsdk/codec.go:104-129 | a prefix is too long if and only if its first ten bytes all continue, and overflows if and only if the tenth ends it with a value above one |
| `Framing.UvarintOfVarint` | pkg/extsdk/codec.go:104-129 | every 64-bit length is read back as written, whatever follows |
| `Framing.UvarintOfCut` | pkg/extsdk/codec.go:104-129 | a cut length prefix is an error: bare end-of-file if nothing was sent, otherwise one that wraps it |
| `Framing.FrameOfFramed` | pkg/extsdk/codec.go:63-98 | one frame is read back exactly, with the rest of the stream untouched |
| `Framing.OversizeRefused` | pkg/extsdk/codec.go:82-98 | a length above 16 MiB is refused behind its prefix, with no payload byte read |
| `Framing.FrameOfCut` | pkg/extsdk/codec.go:82-98 | a frame cut anywhere gives an error, never a payload, and which one |
| `Framing.CutStream` | pkg/extsdk/codec.go:63-129 | a stream cut anywhere yields exactly the whole frames before the cut, then the error of the piece behind them |
| `Framing.EofTestExact` | pkg/extsdk/codec.go:82-129 | the end-of-file test on the error fails if and only if some but not all payload bytes of a frame arrived; it tells a cut between frames from one inside if and only if the cut is not within or right behind a length prefix |
| `Framing.EofExamples` | pkg/extsdk/codec.go:104-129 | two frames cut inside whose error passes that test |
| `Framing.StreamRoundTrip` | pkg/extsdk/codec.go:63-129 | reading a stream of frames gives the payloads in order with nothing left |
| `KillTree.CollectDescendants` | agent/internal/respond/kill.go:260-308 | succeeds if and only if the tree fits the cap and every process in it can be read, with each reachable pid once and the root first; each error only for its own reason |
| `KillTree.TreeGrows` | agent/internal/respond/kill.go:260-308 | the tree is the root, every positive pid some task of a member lists, and nothing else |
| `KillTree.ReadableMeans` | agent/internal/respond/kill.go:260-308 | the tree is readable if and only if no member has a task directory or a children file that cannot be read; one that is gone is no error |
| `KillTree.PidIsAgentAncestor` | agent/internal/respond/kill.go:189-205 | "no" if and only if the complete parent chain can be read within 256 hops and does not hold the target; "yes" if and only if the walk up meets the target within them; otherwise an error |
| `KillTree.OneStepUp` | agent/internal/respond/kill.go:189-205 | a named parent other than 0 and 1 is above the agent, a process that is gone or a child of init has nobody above it, an unreadable status leaves the question open |
| `KillTree.RefuseDangerousPID` | agent/internal/respond/kill.go:166-184 | refuses if and only if the pid is 1, the agent, on its ancestry, or the ancestry cannot be established within the bound |
| `KillTree.HarmlessAvoidsAncestry` | agent/internal/respond/kill.go:166-205 | a pid that was let through is on no complete ancestry of the agent |
| `KillTree.KillTreeHandler` | agent/internal/respond/kill.go:59-108 | either nobody is signalled and the stated reason holds, or TERM goes to exactly the tree and, unless cancelled, KILL to exactly those of it still alive; each signal once, every TERM before every KILL, and none to pid 1, the agent or an ancestor it can see |
| `KillTree.SignalsExact` | agent/internal/respond/kill.go:85-108 | the signals for a tree: who gets TERM, who gets KILL, each once and in that order |
| `HuntDispatch.Dispatcher.FlushChunk` | agent/internal/huntdispatch/dispatcher.go:136-141 | a non-empty buffer becomes one chunk, an empty one nothing |
| `HuntDispatch.Dispatcher.Run` | agent/internal/huntdispatch/dispatcher.go:64-134 | for every event sequence that ends: full chunks of 256 but for a shorter last, together the first rows up to the cap (10000 unless given), then exactly one terminal message, last, with that total and the text for a timeout, a teardown, a truncation or the extension's own error |
| `HuntDispatch.RowsOfJoin` | agent/internal/huntdispatch/dispatcher.go:64-134 | the rows of a longer stream are those of its parts in order |
| `Timeframe.ParseUintStrict` | pkg/ruleast/sigma.go:317-336 | accepts exactly the non-empty digit strings up to 2^64-1, with their value |
| `Timeframe.ParseTimeframe` | pkg/ruleast/sigma.go:281-315 | the code's result with its 64-bit product, never above 2^32-1 |
| `Timeframe.TimeframeExact` | pkg/ruleast/sigma.go:281-315 | agrees with exact arithmetic if and only if the product does not wrap to a value below 2^32, and always for products below 2^64; the units are 1, 60, 3600 and 86400 seconds and no others |
| `Timeframe.WrapExample` | pkg/ruleast/sigma.go:303-314 | a timeframe of some 3 x 10^17 minutes is accepted as 44 seconds |
| `Classify.SortStrings` | pkg/ruleast/compile.go:157-166 | the in-place insertion sort leaves an ascending permutation |
| `StringOrder.LessMeans` | pkg/ruleast/compile.go:157-166 | the order is by the first character that differs, a proper beginning coming first |
| `Classify.CollectIOCFeeds` | pkg/ruleast/compile.go:126-155 | every feed an IOC predicate mentions, once, in name order, whatever the map order |
| `Classify.FeedsMean` | pkg/ruleast/compile.go:126-155 | a feed is collected if and only if an IOC predicate of some branch of some selection names it |
| `Classify.WalkFeeds` | pkg/ruleast/compile.go:94-122 | the verdict on feed sizes; of an unknown and a forced oversize feed the first in name order is reported |
| `Classify.CompileExactly` | pkg/ruleast/compile.go:182-284 | a rule compiles if and only if it has a timeframe exactly when it aggregates or joins, a lookback only then, every feed in the registry, and is not forced to the edge against its needs; it then yields exactly one of artefact and plan, matching its class, edge whenever forced |
| `Classify.NeedsServerMeans` | pkg/ruleast/compile.go:182-284 | the needs: a join, other hosts, an aggregation over more than 300 seconds, or a feed above 100,000 entries |
| `Classify.CompileErrors` | pkg/ruleast/compile.go:182-284 | each error only for its own reason, the timeframe errors if and only if |
| `Classify.PlanSays` | pkg/ruleast/compile.go:182-284 | a server plan carries the rule's identifier, timeframe, lookback, host scope, kind and feeds |
| `Classify.EdgeBounds` | pkg/ruleast/compile.go:222-284 | every edge artefact counts over the rule's own timeframe and lookback, has the rule's feeds, each of at most 100,000 entries, and is either version 2 with window 1..300 and cap 1024 or version 1 without state |
| `Classify.AgentNeverRefuses` | agent/internal/app/ruleset.go:74-99 | an agent with the same registry accepts every edge artefact unchanged, and the pushed rule names the window the rule asked for |
| `Classify.VerdictExactly` | agent/internal/app/ruleset.go:74-99 | each refusal if and only if it is the first that applies of unknown version, window above 300, cap above 1024 and a failed compile; a server-only rule is skipped; an accepted one is what the compiler gives |
| `Classify.CompileRuleSet` | agent/internal/app/ruleset.go:74-99 | the accepted artefacts and the warnings, each in rule order, server-only rules silently skipped |
| `Classify.RuleByRule` | agent/internal/app/ruleset.go:74-99 | the accepted list and the warnings of a set are those of its rules one by one, in order |
| `Classify.PushedRulesAllLoad` | agent/internal/app/ruleset.go:74-99 | a pushed set of compiled edge rules loads completely, in order, without a warning |

## Left out

- HuntDispatch.Dispatcher.Run: messages handed to `send`; dropping them when the result channel is full or the context is cancelled is not modelled.
- KillTree.KillTreeHandler: parsing of the target string, failures of the kill call and changes of the process table during the walk are not modelled.
- Framing.Connection.ReadFrame: read errors other than the end of the stream and protobuf decoding of the payload are not modelled.
- Chain durability: no rollback exists for a partly written line, so write and fsync failures are excluded.
- `Close` of the hash pool, and a submission after it.
- `keyFromEvent`, telemetry counters and locking of the sliding-window state; each operation is one step.
- Field predicates (regex, CIDR, case folding, IOC lookup), rule cost and response or snapshot stamping: a predicate is an arbitrary boolean, the rest would add one-line members.
- The branch of `classify` for a state cap above the ceiling, which the code cannot reach.
- YAML, JSON and protobuf libraries.
- eBPF collectors, event normalisation and OCSF records.
- Server, console, stores, identity and enrolment.
- Keystore, TPM and signature verification.
- Extension supervision, isolation, quarantine and artefact collection.
- Backpressure sampling, the dedupe map, the container index and the process cache: smaller state machines of the same kinds.
