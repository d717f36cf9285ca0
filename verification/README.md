# Maia: verified models of its identity, bridge, scheduling and ledger code

A Dafny 4.11 project. `dafny verify dfyconfig.toml` checks all of it. Each module models one part of the
repository and proves what that part is for.

- **Canonical JSON** (`Utf16`, `KeyOrder`, `Numbers`, `Strings`, `CanonicalText`, `CanonicalIdentity`,
  `CanonicalForm`, `CanonicalEncoder`, `CanonicalGraph`, `CanonicalFaults`): the encoder whose digest is an
  identity. Python objects are a heap of lists and dicts (id to node); texts are proved about a tree of values.
  A text is a sequence of code points, lone surrogates included. A finite double is given by its sign, normalised digits and exponent.
- **IPC bridge** (`BridgeTools`, `IpcBridge`, `IpcRuns`, `IpcSafety`, `IpcResults`, `IpcReplies`,
  `IpcRelease`): tool calls, one slot per `call_seq`, a pump that resolves and closers that close. Blocks
  under the lock are the methods of a class; a step system interleaves them with the steps outside the lock, each its own step. The safety results
  hold for every interleaving; release by `close` is stated for the runs of the program, in which one thread,
  the pump, runs every `resolve` and every `close` (`services/hermes_worker/main.py:406-428`).
- **Turn benchmark** (`Makespan`, `Fusion`, `PoolTracker`): list scheduling on m permits over exact reals,
  the fusion of two pairs of reads, and the online sampler of pool saturation.
- **Transactional writers** (`Backfill`, `Embeddings`, `EmbeddingRuns`, `ImportReview`, `ImportOverlap`): loops over a small
  relational state, with the database's operations as functions of that state.
- **Quota** (`Quota`): the degraded collector's rejection rule over exact ratios.
- **Migration ledger** (`LedgerText`, `DigitStrings`, `Reservations`, `Ledger`, `LedgerGuard`): reserving a
  prefix, parsing the ledger, and the guard over ledger and disk.
- **Audit exceptions** (`Calendar`, `AuditGuard`): the guard over accepted advisories.

Where the code differs from what is said about it, the model follows the code:

- `scripts/otlp-overhead-benchmark.ts:283-290` says `ceil(batches * ratio)` batches are rejected in a run of
  any size. That holds exactly for the ratios 1/k (`Quota.CeilingIffUnitFraction`); with 0.4 one of the first
  three is rejected, not two.
- `close` is documented to release whoever waits. At a closer's check of a slot, some run leaves the call
  blocked after that visit exactly when the call still has an `in_progress` to consume whose retry is allowed
  (`IpcRelease.CloseExact`): one unread in the slot with its event set, or one read and not yet cleared. If the
  pump may still deliver, time and rounds for one more retry are enough, whatever the slot holds; so a slot
  that was empty when `close` ran is not safe either, when an `in_progress` arrives between the end of `close`
  and the moment the call wakes (`IpcRelease.EmptySlotCanSurvive`).
- Canonical text does not depend on insertion order exactly when no two keys of one dict have the same UTF-16
  units; a key with a high surrogate directly followed by a low one can tie
  (`CanonicalIdentity.OrderIndependentIffTieFree`).
- Fusing two reads can raise the makespan on two or more permits when the earlier-listed one is the shorter
  (`Fusion.FusionSafeIff`).
- The audit guard looks at each advisory once, as first reported. A repetition with a higher severity, or an
  advisory without an id, leaves it green (`AuditGuard.DroppedAboveCeiling`, `AuditGuard.DroppedWithoutId`);
  `AuditGuard.GreenMeansEveryVia` says when green covers every `via`.
- `applyRun` works in one transaction so that a failed call cannot make the next one insert a duplicate
  (`scripts/import-review.ts:320-326`). That covers calls one after another. The status check and the reading
  of the entries take no lock, so two calls that both read before either commits insert two transactions for
  every new entry (`ImportOverlap.OverlapDoubles`), and only such calls do (`ImportOverlap.AtMostOnceIff`).

## Model

| member | source | states |
|---|---|---|
| Utf16.UnitsDecodeIff | services/hermes_worker/canonical_json.py:103-114 | The UTF-16 units of a text decode to it exactly when it has no high surrogate character directly followed by a low one |
| Utf16.UnitsInjective | services/hermes_worker/canonical_json.py:103-114 | Texts without such a pair have equal units only if they are equal |
| Utf16.SplitPairTies | services/hermes_worker/canonical_json.py:103-114 | Two different texts with equal units: a split pair and the astral character it spells |
| Utf16.Utf16Units | services/hermes_worker/canonical_json.py:103-114 | The appending loop computes the units of the text |
| KeyOrder.LessAtFirstDifference | services/hermes_worker/canonical_json.py:234-235 | One key stands before another exactly when it is smaller at the first differing UTF-16 unit or is a proper prefix in units |
| KeyOrder.SortSorted | services/hermes_worker/canonical_json.py:234-235 | Sorting keys gives the same multiset in non-decreasing unit order |
| KeyOrder.SortStable | services/hermes_worker/canonical_json.py:234-235 | Keys that tie keep their insertion order |
| KeyOrder.SortForgetsOrder | services/hermes_worker/canonical_json.py:234-235 | Without ties, sorting any two arrangements of the same distinct keys gives one result |
| KeyOrder.SortStrict | services/hermes_worker/canonical_json.py:234-235 | Without ties the sorted keys are strictly increasing |
| Numbers.JsNumberIsFloatText | services/hermes_worker/canonical_json.py:127-168 | A number has a text exactly when it has a finite double, and the text is that double's, on the int and the float path |
| Numbers.IntPathIsFloatPath | services/hermes_worker/canonical_json.py:131-139 | Integers up to 2^53 - 1 in magnitude print the same on both paths |
| Numbers.ReadFloatText | services/hermes_worker/canonical_json.py:151-168 | Reading back the text of a double, before any suffix that cannot extend a numeral, gives its digits, exponent and sign |
| Numbers.SameTextIffSameDouble | services/hermes_worker/canonical_json.py:127-168 | Two numbers share a text exactly when they are the same double |
| Numbers.TextDenotesValue | services/hermes_worker/canonical_json.py:151-168 | Each of the four forms, read as a decimal numeral, denotes exactly digits times the power of ten |
| Numbers.ValueDeterminesDouble | services/hermes_worker/canonical_json.py:151-168 | Distinct normalised doubles denote distinct values |
| Numbers.FloatForm | services/hermes_worker/canonical_json.py:151-168 | The text of a double, code point by code point: `0`, or a `-` exactly for negatives and one of the four forms, with their thresholds 21 and -6, zeros, point, `e`, exponent sign and exponent digits |
| Numbers.NumberForm | services/hermes_worker/canonical_json.py:127-149 | Integers up to 2^53 - 1 in magnitude print as decimal digits without leading zeros, negatives after a `-`; a number has no text exactly when it is not finite or an integer beyond every double |
| Strings.ReadPutChars | services/hermes_worker/canonical_json.py:171-186 | Unescaping an escaped string gives back every character, before any suffix |
| Strings.JsStringParts | services/hermes_worker/canonical_json.py:171-186 | The loop appends a quote, the spelling of each character in order (its short escape, its hex escape, or itself), and a quote; joined, they are the literal |
| Strings.StringForm | services/hermes_worker/canonical_json.py:78-86 | The literal of every text is `"`, those spellings and `"`: `\b \t \n \f \r \" \\`, `\u` with four lower-case hex digits for other controls and surrogates, and every other character itself |
| Strings.PutCharsEncodable | services/hermes_worker/canonical_json.py:171-186 | An escaped string holds no surrogate |
| CanonicalText.ParsePut | services/hermes_worker/canonical_json.py:189-251 | A parser recovers the value from its insertion-order text, at every depth and before any suffix that cannot extend a numeral |
| CanonicalForm.ScalarForm | services/hermes_worker/canonical_json.py:192-204 | `null`, `true` and `false`, and numbers and strings as their own texts |
| CanonicalForm.ListForm | services/hermes_worker/canonical_json.py:213-222 | A list's text is `[`, its items' texts with `,` between, and `]` |
| CanonicalForm.ObjectForm | services/hermes_worker/canonical_json.py:224-249 | An object's text is `{`, its fields with `,` between, each the quoted key, `:` and the value's text, and `}`, in sorted or insertion order |
| CanonicalIdentity.ParsePrinted | services/hermes_worker/canonical_json.py:189-271 | The parser recovers the value, keys sorted or not, and leaves the suffix, which must not extend a numeral |
| CanonicalIdentity.UniquelyDecodable | services/hermes_worker/canonical_json.py:254-258 | Equal canonical texts, each followed by anything that cannot extend a numeral, come from values with the same meaning (objects as maps, numbers as doubles) and equal suffixes |
| CanonicalIdentity.SameTextIffSameMeaning | services/hermes_worker/canonical_json.py:254-258 | For a value without tying keys, canonical texts are equal exactly when the meanings are |
| CanonicalIdentity.OrderIndependentIffTieFree | services/hermes_worker/canonical_json.py:226-249 | Every value of the same meaning has the same canonical text exactly when no two keys of one dict tie |
| CanonicalIdentity.TieBreaksOrder | services/hermes_worker/canonical_json.py:103-114 | Any value with tying keys has a reordering with another text |
| CanonicalIdentity.NoSplitKeysTieFree | services/hermes_worker/canonical_json.py:103-114 | A value whose keys hold no split pair has no ties |
| CanonicalIdentity.EmittedKeysIncrease | services/hermes_worker/canonical_json.py:234-235 | Without ties the emitted keys strictly increase in UTF-16 code units |
| CanonicalIdentity.PutEncodable | services/hermes_worker/canonical_json.py:274-290 | Canonical text holds no surrogate, so encoding it as UTF-8 never fails |
| CanonicalEncoder.Encoder.Encode | services/hermes_worker/canonical_json.py:189-251 | The recursive encoder ends on every finite heap, cyclic or not, appends exactly the specified text or returns its fault, and restores `seen` on every exit |
| CanonicalEncoder.Encoder.EncodeList | services/hermes_worker/canonical_json.py:213-222 | The list loop appends the items with commas between and restores `seen` |
| CanonicalEncoder.Encoder.EncodeDict | services/hermes_worker/canonical_json.py:226-249 | The dict branch checks all keys first, then emits them in the chosen order |
| CanonicalEncoder.Stringify | services/hermes_worker/canonical_json.py:254-271 | A top-level call returns the whole text or the fault |
| CanonicalGraph.EncCleanIff | services/hermes_worker/canonical_json.py:189-251 | Encoding succeeds from a path exactly when nothing reachable is refused or already on the path |
| CanonicalGraph.EncPrints | services/hermes_worker/canonical_json.py:189-251 | A successful encoding is the text of the tree the graph unfolds to |
| CanonicalGraph.EncodesExactlyAcyclic | services/hermes_worker/canonical_json.py:207-211 | Encoding succeeds exactly when the reachable part is acyclic and has no other fault, and prints its unfolding |
| CanonicalGraph.CycleDetected | services/hermes_worker/canonical_json.py:207-211 | With no other fault, a cycle is reported exactly when there is one |
| CanonicalGraph.FaultFreeOnlyCycles | services/hermes_worker/canonical_json.py:189-251 | On a graph with no other fault the only error is the cycle, from any path |
| CanonicalGraph.SharedNodeSameText | services/hermes_worker/canonical_json.py:207-211 | A node shared by siblings is encoded again with the same text |
| CanonicalGraph.EqualTextEqualValue | services/hermes_worker/canonical_json.py:254-285 | On heaps, equal canonical texts are equal meanings, and conversely |
| CanonicalFaults.FaultLocated | services/hermes_worker/canonical_json.py:189-251 | The path of every error leads from the value to what its code names (a number without a text, an unsupported value or non-string key, an object already open, or one of the three forbidden keys), and nothing written before it is refused |
| BridgeTools.ValidateArgs | services/hermes_worker/bridge_tools.py:242-280 | Accepts exactly the dicts whose keys are declared, whose required arguments are present, whose values have their types and whose canonical text is within the limit |
| BridgeTools.AcceptedArgsDeclared | services/hermes_worker/bridge_tools.py:242-280 | Accepted arguments are all declared |
| BridgeTools.AcceptedArgsTyped | services/hermes_worker/bridge_tools.py:259-273 | An accepted argument is of its declared type: a bool is no number or integer, a float no integer, and what is not JSON is of no type |
| BridgeTools.RefusedArgs | services/hermes_worker/bridge_tools.py:249-280 | A refused dict has an undeclared key, lacks a required argument, holds a value of another type, or has no canonical text or one of more UTF-8 bytes than the limit |
| IpcBridge.Client.constructor | services/hermes_worker/ipc.py:60-76 | A new bridge has nothing allocated, no slot and is open |
| IpcBridge.Client.Register | services/hermes_worker/ipc.py:93-104 | The locked admission: refused when closed or over either limit, else the next seq, new to the slots, with an empty slot |
| IpcBridge.Client.Pop | services/hermes_worker/ipc.py:108-110 | Only that slot goes; all others stay, in order and without duplicates |
| IpcBridge.Client.Resolve | services/hermes_worker/ipc.py:177-187 | With no call stepping in between: True exactly for a registered call, whose slot then holds the outcome, signalled; False changes nothing |
| IpcBridge.Client.CloseAll | services/hermes_worker/ipc.py:189-197 | With no call stepping in between: every registered slot ends signalled, with the refusal exactly where no outcome was waiting; later admissions are refused |
| IpcSafety.InvStep | services/hermes_worker/ipc.py:90-197 | Every step of every thread keeps the allocation, registration, routing, wire, release and time invariants |
| IpcSafety.InvRun | services/hermes_worker/ipc.py:90-197 | Every reachable state satisfies them |
| IpcResults.SeqsAllocated | services/hermes_worker/ipc.py:93-104 | Over every run the allocated seqs are 0..n-1, within both limits |
| IpcResults.ClosedForever | services/hermes_worker/ipc.py:94-95 | After close no seq is ever allocated and the bridge stays closed |
| IpcResults.WireDiscipline | services/hermes_worker/ipc.py:120-160 | All lines of one seq are identical, at most 65, and come from a handler call that passed every gate |
| IpcResults.ResultRouted | services/hermes_worker/ipc.py:127-141 | A returned result was given to `resolve` for that seq while its slot was registered |
| IpcReplies.ReplyExactly | services/hermes_worker/ipc.py:112-175 | In every run a call ends with a reply exactly when one of its steps settled it: the write failed, the wait ran out, it read a result, a refusal or no outcome, the retry could not wait, or its 65th round ended |
| IpcReplies.ReadDecides | services/hermes_worker/ipc.py:127-141 | In every run, a call that read a result returns that result, a refusal that code, no known outcome `protocol_error`, whatever the other threads do |
| IpcReplies.ResultWasRead | services/hermes_worker/ipc.py:129-130 | A returned result is one that the call read |
| IpcReplies.ProtocolErrorWasRead | services/hermes_worker/ipc.py:140 | `protocol_error` is returned only after reading nothing, an unknown outcome, or a refusal with that code |
| IpcReplies.OwnStepsAnswer | services/hermes_worker/ipc.py:122-132 | A waiting call whose slot is signalled with a result or refusal returns it by its own steps |
| IpcReplies.WaitingCallAnswered | services/hermes_worker/ipc.py:120-187 | In every run, even after close, a call that waits can still be given an outcome and return exactly that |
| IpcReplies.DeliversOnce | services/hermes_worker/ipc.py:177-187 | In every run each call of `resolve` stores at most once and signals at most once |
| IpcResults.ResolveUnknown | services/hermes_worker/ipc.py:179-184 | In every run `resolve` finds a slot exactly for a live call; otherwise it returns False and changes nothing |
| IpcResults.SlotsAreLiveCalls | services/hermes_worker/ipc.py:103-110 | Slots are exactly the live calls, one each, and allocated |
| IpcResults.InvocationFinite | services/hermes_worker/ipc.py:120-141 | No call takes more than 456 steps of its own in any run |
| IpcResults.LiveCallMoves | services/hermes_worker/ipc.py:120-175 | A live call that is not blocked or asleep can step, and past the deadline every live call can |
| IpcResults.ReleasedUnlessCleared | services/hermes_worker/ipc.py:189-197 | A call still blocked after a closer's visit has cleared its event since |
| IpcResults.CloseReleases | services/hermes_worker/ipc.py:189-197 | In any interleaving, even with several threads resolving and closing: with no later delivery, a call blocked after the visit had an unconsumed `in_progress` at the check |
| IpcRelease.OneThingRun | services/hermes_worker/ipc.py:200-262 | In the program's runs the pump is ever in the middle of at most one delivery or one close |
| IpcRelease.HopelessRun | services/hermes_worker/ipc.py:120-141 | A call without an allowed retry at the check never waits on an unset event after the visit |
| IpcRelease.Drive | services/hermes_worker/ipc.py:120-175 | A call with an allowed retry can come round to another wait on an unset event, by its own steps |
| IpcRelease.CloseExact | services/hermes_worker/ipc.py:189-262 | In every run of the program, at a closer's check: some continuation leaves the call blocked after the visit exactly when it has an unconsumed `in_progress` whose retry is allowed; if more may be delivered, exactly when time and rounds for a retry are left |
| IpcRelease.EmptySlotCanSurvive | services/hermes_worker/ipc.py:177-197 | A run of the program in which the slot is empty when close runs, and an `in_progress` delivered after close leaves the call blocked; without that delivery it is released |
| Makespan.GateMakespan | scripts/turn-context-benchmark.ts:855-864 | The array loop computes the greatest finish time of the least-loaded schedule, with at least one permit |
| Makespan.LeastLoaded | scripts/turn-context-benchmark.ts:858-861 | The inner loop finds the first index of the least finish time |
| Makespan.GateIsSemaphore | scripts/turn-context-benchmark.ts:855-864 | The makespan is when a FIFO semaphore with m permits runs out, each task starting at the earliest release |
| Makespan.GateIsTakeAll | scripts/turn-context-benchmark.ts:855-864 | It depends on the loads only as a sorted vector |
| Makespan.GateMonotone | scripts/turn-context-benchmark.ts:855-864 | Lengthening and inserting tasks, any number of them, never lowers it |
| Makespan.LengtheningNeverLowers | scripts/turn-context-benchmark.ts:855-864 | One longer task never lowers it |
| Makespan.InsertingNeverLowers | scripts/turn-context-benchmark.ts:855-864 | One task inserted anywhere never lowers it |
| Makespan.GrahamBounds | scripts/turn-context-benchmark.ts:855-864 | For non-negative durations it lies between max(longest, sum/m) and sum/m + (1 - 1/m) longest |
| Fusion.MergeTwoPairs | scripts/turn-context-benchmark.ts:873-893 | The splicing code computes the two fusions in order |
| Fusion.MergeNeverRaises | scripts/turn-context-benchmark.ts:873-893 | If in each pair the earlier-listed read is at least as long, the makespan does not rise |
| Fusion.FusionSafeIff | scripts/turn-context-benchmark.ts:873-893 | For each number of permits: merging both pairs, lasting x, y and z, w in list order, is safe in every list exactly with one permit or with x >= y and z >= w |
| Fusion.OnePairSafeIff | scripts/turn-context-benchmark.ts:873-893 | When only capabilities and gaps are both listed: safe exactly with one permit or x >= y |
| Fusion.OtherPairSafeIff | scripts/turn-context-benchmark.ts:873-893 | When only facts and rules are both listed: safe exactly with one permit or z >= w |
| PoolTracker.Tracker.Observe | scripts/turn-context-benchmark.ts:977-999 | One sample is one more call of the trace, and the closure's variables move to the account of it |
| PoolTracker.Tracker.MarkProducerStopped | scripts/turn-context-benchmark.ts:957-1017 | Only the first stop counts |
| PoolTracker.Tracker.GetSummary | scripts/turn-context-benchmark.ts:1003-1016 | Every field of the summary about the calls so far: counts, span, both phases, the longest streak, the largest gap, and the drain delay or -1 |
| PoolTracker.PhasesPartition | scripts/turn-context-benchmark.ts:957-1017 | Load and drain partition the samples, and the saturated ones, of the whole trace at the first stop |
| PoolTracker.LargestGap | scripts/turn-context-benchmark.ts:957-1017 | `max_gap_ms` is the largest interval among start, samples and end |
| PoolTracker.SummaryCounts | scripts/turn-context-benchmark.ts:1003-1009 | Samples and saturated samples are counted, and the span is the last sample time minus the first, 0 without samples |
| PoolTracker.StreakIsLongest | scripts/turn-context-benchmark.ts:988-994 | `max_streak_ms` of the summary is the longest time from the start or a drained sample to a saturated sample with none drained between, and 0 without saturated samples |
| PoolTracker.StreakCoversRuns | scripts/turn-context-benchmark.ts:950-956 | `max_streak_ms` of the summary is at least the span of every saturated run |
| PoolTracker.StreakExceedsByGap | scripts/turn-context-benchmark.ts:950-956 | It exceeds some saturated run by at most `max_gap_ms` when there is one, and is 0 when there is none |
| PoolTracker.DrainedAfter | scripts/turn-context-benchmark.ts:993-998 | `drained_after_ms` of the summary is the delay to the first drained sample after the stop, and -1 exactly when there is none |
| Quota.QuotaLaw | scripts/otlp-overhead-benchmark.ts:292-297 | Of the first n >= 1 batches floor((n-1) r) + 1 are rejected |
| Quota.QuotaTight | scripts/otlp-overhead-benchmark.ts:283-297 | The first batch is rejected and the count stays within one of n r |
| Quota.QuotaEnds | scripts/otlp-overhead-benchmark.ts:293-294 | A ratio of 0 or less rejects none of the first n batches, one of 1 or more all of them |
| Quota.CeilingIffUnitFraction | scripts/otlp-overhead-benchmark.ts:283-297 | The count is ceil(n r) for every n exactly when r is 1/k |
| Quota.DefaultAndCounterexample | scripts/otlp-overhead-benchmark.ts:283-297 | The default 0.2 rejects the ceiling; 0.4 does not after three batches |
| Backfill.OneBatch | src/db/repositories/turn-repos.ts:2085-2125 | A batch removes exactly the pair's oldest messages from what is pending, gives each the turn it implies, keeps every earlier turn, and no other pair notices |
| Backfill.Store.Run | scripts/backfill-agent-turns.ts:64-115 | Creates exactly min(maxTotal, pending) turns, all when there is no ceiling, and its final state is independent of the batch size |
| Backfill.QueueAfterPrefix | scripts/backfill-agent-turns.ts:64-115 | After any prefix of the queue has turns, what is pending is exactly the rest |
| Backfill.RunThenRun | scripts/backfill-agent-turns.ts:64-115 | A run with ceiling a and then one with b equals one with a + b |
| Backfill.Resumable | scripts/backfill-agent-turns.ts:10-14 | Killed after any number of turns and started again, a run ends in the same state |
| Backfill.RerunCreatesNone | scripts/backfill-agent-turns.ts:10-14 | After a complete run nothing is pending |
| Backfill.CompleteRun | src/db/repositories/turn-repos.ts:2085-2125 | Every inbound message ends with the turn its projection implies, and earlier turns stay |
| Embeddings.Table.RebuildBatch | scripts/embeddings-rebuild.ts:246-384 | A failing provider, a wrong number of vectors and invalid vectors each throw their own error and leave every row untouched before any rollback; otherwise updated and skipped add up to the batch, updated being the rows still present |
| Embeddings.Table.Scan | scripts/embeddings-rebuild.ts:285-304 | Collects every invalid vector of the batch, in order |
| Embeddings.InvalidsExact | scripts/embeddings-rebuild.ts:285-304 | What is reported is exactly, for each missing or wrong-sized vector, its row, whether it was missing, and its length |
| Embeddings.FaultFreeIffGood | scripts/embeddings-rebuild.ts:274-304 | `rebuildBatch` goes through exactly when the provider returned one vector of the right dimension per row and no UPDATE fails |
| Embeddings.PageWritten | scripts/embeddings-rebuild.ts:339-381 | Writing a page row by row puts the vectors, in order, on the oldest pending rows |
| Embeddings.FillExact | scripts/embeddings-rebuild.ts:349-356 | The k-th pending row holds the k-th vector; every other row, in any tuple, is unchanged |
| Embeddings.FillPending | scripts/embeddings-rebuild.ts:719-731 | What was pending first no longer is; the rest still is, in order |
| Embeddings.FillAppend | scripts/embeddings-rebuild.ts:719-731 | A run stopped between batches and started again ends where one run would have |
| Embeddings.Table.Transaction | scripts/embeddings-rebuild.ts:779-830 | A batch that throws, be it at the COMMIT, leaves nothing behind; a complete one writes its whole page and skips none |
| Embeddings.Table.Pages | scripts/embeddings-rebuild.ts:707-840 | The loop throws after a whole number of complete batches, or ends with every row of the tuple holding a vector of the wanted dimension, having processed as many rows as lacked one; only those rows change, and only in the embedding |
| Embeddings.Table.Rebuild | scripts/embeddings-rebuild.ts:583-855 | Whatever the exit (lock busy, a failing lock, count or page query, provider, UPDATE or COMMIT), the rows are the old ones filled by whole batches and the lock is as before; only rows of the tuple with a missing vector or one of another dimension change; a complete run leaves none and counts exactly them |
| EmbeddingRuns.StepKeepsInv | scripts/embeddings-rebuild.ts:615-855 | Every step of every interleaved run keeps locks exclusive and pages still pending |
| EmbeddingRuns.MutualExclusion | scripts/embeddings-rebuild.ts:637-655 | At most one run per lock key is past the lock |
| EmbeddingRuns.OnePerTuple | scripts/embeddings-rebuild.ts:561-566 | In every interleaving, even with failing unlocks, at most one run per tuple is past the lock and its page is still pending |
| EmbeddingRuns.CommitIsFill | scripts/embeddings-rebuild.ts:779-830 | Under interleaving every commit still matches its whole page |
| EmbeddingRuns.BacklogConserved | scripts/embeddings-rebuild.ts:707-840 | Vectors written for a tuple plus its pending rows stay constant over any interleaving, so no row is paid for twice |
| EmbeddingRuns.ReleasedOnEveryExit | scripts/embeddings-rebuild.ts:835-853 | While unlocking works, a key is locked exactly when some run is between its lock and its unlock |
| EmbeddingRuns.StartOrRefuse | scripts/embeddings-rebuild.ts:635-662 | A run on an idle connection gets the lock exactly when no other connection has it, counting once more; otherwise it ends with nothing changed |
| EmbeddingRuns.FailureEnds | scripts/embeddings-rebuild.ts:779-855 | A run that fails past the lock writes nothing, gives the lock back once if unlocking works, and ends |
| EmbeddingRuns.LockBalance | scripts/embeddings-rebuild.ts:624-655 | In any interleaving, failing unlocks included, a key is held as often as it was taken and not given back, so it is free exactly when the two are even |
| EmbeddingRuns.HolderCanComplete | scripts/embeddings-rebuild.ts:707-853 | In every interleaving in which unlocks work, a run that holds its lock can finish by its own steps: every row of its tuple then has the dimension, nothing else changed, and its key is free |
| ImportReview.Database.ApplyRun | scripts/import-review.ts:309-446 | The loop inside the transaction leaves the database and result that the reference gives |
| ImportReview.AllOrNothing | scripts/import-review.ts:315-332 | A call commits exactly when the run is pending in scope and no entry points out of it; otherwise nothing changes and the error says which of the three failed, in that order |
| ImportReview.ThrowsIffBlocked | scripts/import-review.ts:247-307 | The loop throws exactly when some entry's transaction is not the scope's, wherever that entry stands |
| ImportReview.CommitEntries | scripts/import-review.ts:334-446 | The run's entries are settled by the policy, all others unchanged; the totals add up to the entries; the run is `aplicado` exactly when all are resolved, and still pending otherwise |
| ImportReview.EntriesSettled | scripts/import-review.ts:340-418 | Each entry of the run is settled or left as it was, in any order of the loop |
| ImportReview.TransactionsKept | scripts/import-review.ts:357-388 | One transaction per new entry under a fresh id; others change only where an entry of the scope points |
| ImportReview.CommitTransactions | scripts/import-review.ts:247-284 | An existing transaction changes exactly as some entry that points at it confirms it, and never out of scope |
| ImportReview.CreatedLinked | scripts/import-review.ts:357-388 | The p-th entry of the loop, if new, ends matched with the id generated for it, whose row is the one inserted for it |
| ImportReview.NewEntryBooked | scripts/import-review.ts:355-389 | After a commit each new entry is resolved and matched with a transaction not there before: income for a credit and expense for a debit, `recebida` or `paga`, its value, day, fitid, run and scope, paid on its day |
| ImportReview.TargetsSettled | scripts/import-review.ts:247-284 | After a commit a transaction that an entry points at is in scope, keeps scope, kind, value and day, and is paid, `recebida` or `paga`, with fitid and run from one such entry; every other one is as it was |
| ImportReview.TotalsExact | scripts/import-review.ts:334-418 | The totals count the matched entries with a target, the new ones, the candidates that the policy settles, and all the rest as skipped |
| ImportReview.RepeatChangesNothing | scripts/import-review.ts:309-446 | Applying the same policy again changes no entry, transaction or id |
| ImportReview.SequenceConserves | scripts/import-review.ts:322-326 | Over any calls, one after another, transactions plus new entries still owed one stay constant |
| ImportReview.CreatedAtMostOnce | scripts/import-review.ts:322-326 | Over any calls, one after another, a new entry creates at most one transaction |
| ImportOverlap.ReadIsProcess | scripts/import-review.ts:340-418 | On a row unchanged since it was read, the overlapping model's loop body is the reference's |
| ImportOverlap.UndisturbedIsApply | scripts/import-review.ts:309-446 | A call of the overlapping model whose steps follow each other, anywhere in a run, is the reference call: it commits the same, or ends with nothing changed where that throws |
| ImportOverlap.FailureLeavesNothing | scripts/import-review.ts:320-332 | A call that fails after its check leaves nothing behind |
| ImportOverlap.WritesThrowIff | scripts/import-review.ts:247-307 | A call that read earlier throws exactly when something it read points out of scope |
| ImportOverlap.InvRun | scripts/import-review.ts:315-446 | In every interleaving rows keep their identity and stay resolved once resolved, a later reader sees what a creator resolved, and inserts match the committed readers |
| ImportOverlap.InsertsCounted | scripts/import-review.ts:357-388 | In every interleaving the table of transactions grows by exactly the inserts made for entries |
| ImportOverlap.AtMostOnceIff | scripts/import-review.ts:315-446 | In every interleaving an entry gets at most one transaction exactly when no two committed calls that had read it as new overlapped, each reading before the other committed |
| ImportOverlap.OverlapDoubles | scripts/import-review.ts:315-340 | On any run that a call alone would apply, two calls that both read before either commits insert two transactions for every new entry |
| Reservations.MaxNumericPrefix | scripts/migrate-reserve.ts:26-33 | The loop computes the greatest leading number |
| Reservations.MaxPrefixBounds | scripts/migrate-reserve.ts:26-33 | It bounds every file's leading number and is one of them, or 0 |
| Reservations.NextPrefixFree | scripts/migrate-reserve.ts:36-38 | The next prefix is well formed and no existing migration has it |
| Reservations.NextPrefixNumber | scripts/migrate-reserve.ts:36-38 | Its number is one more than the greatest leading number, or 1, in at least three digits and no more zeros than that takes |
| Reservations.SlugShape | scripts/migrate-reserve.ts:41-46 | A slug keeps every letter and digit in order, joined by single underscores, none at the ends |
| Reservations.DefaultNameFits | scripts/migrate-reserve.ts:41-46 | The default name carries the next prefix, is not on disk, and fits a ledger line |
| Reservations.DefaultNameForward | scripts/migrate-reserve.ts:86-87 | It counts as a forward migration exactly when the slug does not end like a down migration |
| Ledger.ParseLedger | scripts/check-migration-reservations.ts:119-191 | The line loop computes the reservations and errors of the reference parse |
| Ledger.MarkerForm | scripts/check-migration-reservations.ts:132-135 | The marker is a line that begins, trimmed, with `<!-- BEGIN RESERVATIONS` |
| Ledger.LineSkipped | scripts/check-migration-reservations.ts:140-155 | A line is passed over exactly when blank, a comment or without a separator; one with other than two separators is an error with its number of fields |
| Ledger.LineOfThree | scripts/check-migration-reservations.ts:148-187 | A line of three fields is the reservation, or the first fault: prefix shape, not forward, prefix of another name, no purpose |
| Ledger.ReadBack | scripts/check-migration-reservations.ts:141-187 | What the parser makes of an appended line: the reservation, or exactly which error |
| Ledger.ParseAppended | scripts/migrate-reserve.ts:105-109 | Appending adds what the one line reads as and nothing else, whatever line ending the ledger had |
| Ledger.RoundTrip | scripts/migrate-reserve.ts:86-109 | For a purpose without line breaks the parse gains exactly the reservation, exactly when the purpose is not blank and has no separator and the file is forward; otherwise exactly one error |
| LedgerGuard.FindProblems | scripts/check-migration-reservations.ts:199-265 | The problems are exactly: each line after the first with the same name, with both line numbers; each file without a reservation; each reservation without a file; each prefix shared and not grandfathered, with its files. None exactly when names and files match one to one and every shared prefix is grandfathered |
| LedgerGuard.FindDuplicates | scripts/check-migration-reservations.ts:204-217 | One problem for each repeated line, which names the first line with that file and its own |
| LedgerGuard.FindShared | scripts/check-migration-reservations.ts:240-262 | One problem for every prefix of two or more files that is not allowed, with exactly those files |
| LedgerGuard.ReservingKeepsClean | scripts/migrate-reserve.ts:86-109 | Reserving the next prefix and creating the file keeps a clean guard clean, in any directory order |
| Calendar.AcceptsExactly | scripts/check-audit-exceptions.ts:333-342 | Accepted are exactly the Gregorian dates from the year 0100 on |
| Calendar.FieldsBack | scripts/check-audit-exceptions.ts:340-341 | A day rebuilt in UTC reads back unchanged exactly when its month has it |
| Calendar.StringOrderIsDayOrder | scripts/check-audit-exceptions.ts:482 | On accepted dates string order is the order of days |
| AuditGuard.KeyInjective | scripts/check-audit-exceptions.ts:193-195 | Validated triples share a key only when equal, even if the package name holds the separator |
| AuditGuard.AdvisoryForm | scripts/check-audit-exceptions.ts:198-202 | An advisory id is `GHSA-` and three groups of four digits or lower-case letters, joined by `-` |
| AuditGuard.FindsAdvisory | scripts/check-audit-exceptions.ts:198-202 | An advisory id anywhere in a URL is found, and the first one is taken |
| AuditGuard.ReadableForm | scripts/check-audit-exceptions.ts:236-292 | Only an error-free report of version 2 with vulnerabilities and metadata is read |
| AuditGuard.FindingForm | scripts/check-audit-exceptions.ts:293-322 | An advisory with an id in its URL becomes a finding with its package, title and severity; without a severity it is above every ceiling |
| AuditGuard.ParseAudit | scripts/check-audit-exceptions.ts:236-322 | Exactly the readable reports are read, into each advisory once as first reported |
| AuditGuard.FilledForm | scripts/check-audit-exceptions.ts:345-430 | A required field counts as filled exactly when it is a text with some character that is not white space |
| AuditGuard.IssueForm | scripts/check-audit-exceptions.ts:149 | A row's issue is the link to an issue of the repository by a positive number without leading zeros |
| AuditGuard.FaultsTrue | scripts/check-audit-exceptions.ts:345-430 | Every fault reported of a row is true of it |
| AuditGuard.ValidateLedger | scripts/check-audit-exceptions.ts:345-430 | No error exactly when every row is well formed under distinct keys; what is kept always is |
| AuditGuard.FindProblems | scripts/check-audit-exceptions.ts:436-500 | The problems are exactly: each finding without an exception, of unknown severity or above the ceiling of its exception, each matched exception that has expired, and each exception no longer found |
| AuditGuard.ClearIffCovered | scripts/check-audit-exceptions.ts:436-500 | On validated inputs that is: same project, package and advisory, known severity under the ceiling, not expired, both ways |
| AuditGuard.GreenCoversEveryVia | scripts/check-audit-exceptions.ts:293-322 | When what deduplication keeps is accepted, every `via` is accepted exactly when each advisory has an id and no repetition exceeds the ceiling |
| AuditGuard.GreenMeansEveryVia | scripts/check-audit-exceptions.ts:584-633 | On exactly the inputs the guard is green on: every `via` of every project is accepted exactly when no project has an advisory without an id or a repetition above the ceiling |
| AuditGuard.DroppedAboveCeiling | scripts/check-audit-exceptions.ts:293-322 | With any good unexpired row below critical: a ledger and reports on which the guard is green although the advisory is reported again as critical |
| AuditGuard.DroppedWithoutId | scripts/check-audit-exceptions.ts:293-322 | With any good unexpired row: a ledger and reports on which the guard is green although a `via` has no advisory id |
| AuditGuard.SampleRow | scripts/check-audit-exceptions.ts:345-430 | There is such a row |
| AuditGuard.EvaluateGuard | scripts/check-audit-exceptions.ts:584-633 | Green exactly when the ledger is intact, every report readable and the findings, each advisory as first reported, and the exceptions cover each other |

## Left out

- `protocol.py` (frames, writer, reader, limits) is not part of this model: the limits are parameters, a line is sent whole, and a write error is not modelled.
- `ControlPump.handle` and its event checks, `ToolSpec.from_projection`, `register_bridge_tools`, `validate_model_result` and the error texts of the handler: single-branch checks.
- IpcResults.CloseReleases: one direction only, because it also covers overlapping deliveries and closes, which the program never has; the exact condition for the program's runs is IpcRelease.CloseExact.
- CanonicalGraph.EncodesExactlyAcyclic: CPython raises RecursionError on an acyclic value nested past its recursion limit; nesting is unbounded here.
- `invoke` as one sequential method: a wait cannot block in Dafny, so the retry loop is the program counter of the step system; the locked blocks are methods.
- IEEE-754 and the shortest digits of a double: normalised digits and exponent are the input, and the conversion of integers above 2^53 is a parameter.
- SHA-256 of the canonical text, and joining `\u` escapes into astral characters when parsing: the writer never emits such pairs for a character it can write as itself.
- Encoder objects of other Python types than None, bool, int, float, str, list and dict fall in one rejected case.
- Floating-point rounding in the makespan, the tracker and the quota: exact reals.
- `percentile`, `contagemO1`, `gateExitCode`, `armOrder` and the reports of the benchmarks: single expressions.
- `parseArgs` of the backfill: the batch size is a natural number; a pair is one number and the order in which the database lists pairs is fixed.
- `ON CONFLICT` branches of the backfill that a concurrent writer could reach, `next_attempt_at`, and the ids of turns.
- `fnv1a32` is any function of the tuple's name: colliding keys only refuse more runs.
- Embeddings.Table.Rebuild: a COMMIT that fails is taken to have rolled back, and unlocking to work (EmbeddingRuns lets it fail); one run without other writers; EmbeddingRuns adds the other runs but not the worker, so `skipped` is zero there; RebuildBatch alone also covers stale rows. The configuration check before the lock, audit rows and the command line are left out.
- ImportReview.CreatedAtMostOnce: calls run one after another; overlapping calls are the subject of ImportOverlap.AtMostOnceIff.
- ImportOverlap.InvRun: a call's writes reach the rows at its commit, and its count of unresolved entries is taken there too; row locks only forbid some of these interleavings. That an earlier count can leave a finished run pending is not modelled.
- EmbeddingRuns.BacklogConserved: the runs interleave with each other (failing locks, aborts and unlocks included) but not with the worker that also writes vectors; stale rows and `skipped` are the subject of Embeddings.Table.RebuildBatch.
- ImportReview.Database.ApplyRun: timestamps are one flag, `metadata` is the two keys the code writes, generated ids are a counter, and the audit row written after the commit is left out.
- `toLowerCase` before `slugify`: the lower-cased purpose is the input. Numeric prefixes are exact integers of any size.
- Ledger.RoundTrip: a purpose with a line break would be cut by the parser and is outside the statement.
- The refusals of the reserve tool before it appends (no conforming prefix, name already in the ledger) and the sorting and wording of messages in both guards.
- AuditGuard.EvaluateGuard: JSON parsing and running npm are inputs, `via` elements come as one list per report, and entries that are null inside a report, on which the program throws, are left out.
