# LogSourceHelper retraction bookkeeping, in Dafny

This project models the retraction bookkeeping of `LogSourceHelper`, the
helper a Flink source reader uses when it reads a Kafka-backed change log.
When an upstream job restarts an epic, rows it already emitted for that epic
must be cancelled. The helper keeps two pieces of state:

- **The epic start-offset ledger** (`upstreamEpicStartOffsets`). It is a
  `TreeMap<String, Long>` from the key `topic_partition_upstreamId_epicNo` to
  the offset at which that epic was first read. Insertion is first-write-wins.
  Pruning removes every key that sorts at or before the target key under
  `String.compareTo` and that contains `topic_partition_upstreamId` as a
  substring.
- **The retracting set** (`retractingInfo`). It maps each retracting topic
  partition to its `EpicRetractingInfo`: the epic, the upstream id, the offset
  where retraction stops, and the offset where forward reading resumes.

Around that state sit the transitions `startRetracting`, `suspendRetracting`
(for one partition or a collection), `clearEpicStartOffsetsBeforeOrEqual` and
`initializedState`. There are two queries, and two pure helpers:
`turnRowKind`, which inverts a row's change kind, and `checkMagicNum`, which
sniffs a three-byte format marker.

The helper's state is an immutable `Helper` value. Every Java method is a pure
function from the old state to the new one. A thrown exception is a `Failure`
of a `Result`. Keys are built exactly as the Java concatenation builds them,
with `Integer.toString`/`Long.toString` written out (`JavaLang.IntToDecimal`).
`String.compareTo` and `String.contains` are written out too
(`JavaStrings.CompareTo`, `JavaStrings.Contains`). So pruning keeps the
source's text semantics, and the model proves what follows from them:

- Non-negative epic numbers with the same number of digits prune
  numerically: earlier or equal epics are removed
  (`EpicLedger.PruneRemovesEarlierEpicsOfSameWidth`) and later ones are kept (`EpicLedger.PruneKeepsLaterEpicsOfSameWidth`).
  Negative epic numbers do not: `"-2"` sorts after `"-1"`, so pruning up to
  epic -1 keeps epic -2 (`Scenarios.PruneKeepsNegativeEarlierEpic`).
- Across widths they compare as text. Pruning up to epic 3 also removes epic
  10 (`Scenarios.PruneComparesEpicsAsText`).
- `topic_partition_upstreamId` is matched as a substring. Pruning upstream
  `u` also removes an entry of upstream `u1`
  (`Scenarios.PruneMatchesUpstreamAsSubstring`), and pruning topic `t` also
  removes an entry of topic `at` (`Scenarios.PruneReachesOtherTopic`).
- Distinct upstream ids such as `u1` and `u2` are kept apart, in both
  directions (`Scenarios.PruneLeavesOtherUpstream`,
  `Scenarios.PruneKeepsHeadKeyOfOtherUpstream`).

What the code does at the edges, and how the model treats it:

- `clearEpicStartOffsetsBeforeOrEqual` matches the whole
  `topic_partition_upstreamId` text as a substring of the key, not field by
  field. So keys of another upstream, or of another topic whose name ends in
  the same characters, can be removed too
  (`Scenarios.PruneMatchesUpstreamAsSubstring`,
  `Scenarios.PruneReachesOtherTopic`).
- `clearEpicStartOffsetsBeforeOrEqual` removes keys from the `TreeMap` while
  iterating a live `headMap` view of it. It therefore throws
  `ConcurrentModificationException` whenever a key it removes is followed by
  another head-map key. `EpicLedger.ClearAsWritten` and
  `LogSourceHelper.SuspendRetractingAsWritten` model this as written. The
  other transitions use the intended pruning, `EpicLedger.Prune` (see
  "## Findings").
- `suspendRetracting` on a partition that is not retracting throws
  `NullPointerException`, because `retractingInfo.remove` returns `null`.
- `suspendRetracting(Collection)` stops at the first partition that throws.
  The work already done on earlier partitions stays in place, and the
  remaining partitions are not visited.
- `turnRowKind` has no reachable error case, because Flink's `RowKind` has
  exactly the four kinds.

Modules, one file each: `Wrappers` (`Option`, `Result`), `JavaLang` (primitive
widths, exceptions, decimal text), `JavaStrings` (`compareTo`, `contains`),
`LedgerKeys` (the four `combine*` key builders, and a key decoder that
the helper never uses but that proves the builders injective),
`EpicLedger` (put-if-absent and pruning, plus the pruning loop as written),
`LogSourceHelper` (state, transitions, queries), `RowKinds`, `MagicNumbers`,
and `Scenarios` (concrete runs).

All source paths below are under `flink/v1.14/flink/src/main/java/com/netease/arctic/flink/read/source/log/`,
written out in full in the table.

## Model

| member | source | states |
|---|---|---|
| JavaLang.IntToDecimal | flink/v1.14/flink/src/main/java/com/netease/arctic/flink/read/source/log/LogSourceHelper.java:178 | The text appended for a number is non-empty, starts with `-` exactly for negative numbers, and never contains `_`, the key separator |
| JavaLang.NatToDecimal | flink/v1.14/flink/src/main/java/com/netease/arctic/flink/read/source/log/LogSourceHelper.java:190 | The digits of a non-negative number are all decimal digits with no leading zero |
| JavaLang.DecimalRoundTrip | flink/v1.14/flink/src/main/java/com/netease/arctic/flink/read/source/log/LogSourceHelper.java:178 | Parsing the decimal text of any number gives the number back |
| JavaLang.DecimalInjective | flink/v1.14/flink/src/main/java/com/netease/arctic/flink/read/source/log/LogSourceHelper.java:190 | Two numbers with the same decimal text are equal |
| JavaStrings.CompareTo | flink/v1.14/flink/src/main/java/com/netease/arctic/flink/read/source/log/LogSourceHelper.java:146 | The key order of the ledger's TreeMap gives 0 exactly for equal strings |
| JavaStrings.CompareToAntisymmetric | flink/v1.14/flink/src/main/java/com/netease/arctic/flink/read/source/log/LogSourceHelper.java:146 | Swapping the operands of `compareTo` negates the result |
| JavaStrings.AtMostTotal | flink/v1.14/flink/src/main/java/com/netease/arctic/flink/read/source/log/LogSourceHelper.java:146 | Any two keys are ordered one way or the other |
| JavaStrings.AtMostTransitive | flink/v1.14/flink/src/main/java/com/netease/arctic/flink/read/source/log/LogSourceHelper.java:146 | The key order is transitive, so `headMap(key, true)` is downward closed |
| JavaStrings.BeforeAtMost | flink/v1.14/flink/src/main/java/com/netease/arctic/flink/read/source/log/LogSourceHelper.java:146 | A strictly earlier key stays strictly earlier than anything at or after its successor |
| JavaStrings.PrefixAtMost | flink/v1.14/flink/src/main/java/com/netease/arctic/flink/read/source/log/LogSourceHelper.java:146 | A prefix sorts no later than the strings it begins |
| JavaStrings.Contains | flink/v1.14/flink/src/main/java/com/netease/arctic/flink/read/source/log/LogSourceHelper.java:150 | `String.contains`: a string only contains substrings no longer than itself; `ContainsAt` characterises it fully |
| JavaStrings.ContainsWitness | flink/v1.14/flink/src/main/java/com/netease/arctic/flink/read/source/log/LogSourceHelper.java:150 | When `contains` holds, the substring appears at some index |
| JavaStrings.OccursContains | flink/v1.14/flink/src/main/java/com/netease/arctic/flink/read/source/log/LogSourceHelper.java:150 | An appearance of the substring at any index makes `contains` hold |
| JavaStrings.ContainsAt | flink/v1.14/flink/src/main/java/com/netease/arctic/flink/read/source/log/LogSourceHelper.java:150 | `contains` holds exactly when the substring appears at some index |
| JavaStrings.PrefixContained | flink/v1.14/flink/src/main/java/com/netease/arctic/flink/read/source/log/LogSourceHelper.java:150 | A key contains each of its prefixes, in particular the upstream prefix it was built from |
| JavaStrings.CompareToCommonPrefix | flink/v1.14/flink/src/main/java/com/netease/arctic/flink/read/source/log/LogSourceHelper.java:146 | Keys sharing a prefix compare like their remainders |
| JavaStrings.BeforeExtend | flink/v1.14/flink/src/main/java/com/netease/arctic/flink/read/source/log/LogSourceHelper.java:146 | Of two same-length strings, the earlier stays earlier after one character is appended to each |
| JavaStrings.DecimalOrderSameWidth | flink/v1.14/flink/src/main/java/com/netease/arctic/flink/read/source/log/LogSourceHelper.java:145-146 | Epic numbers of equal digit count sort as text in numeric order |
| LedgerKeys.TopicPartitionPart | flink/v1.14/flink/src/main/java/com/netease/arctic/flink/read/source/log/LogSourceHelper.java:189-191 | `topic_partition` begins with the topic |
| LedgerKeys.UpstreamPrefix | flink/v1.14/flink/src/main/java/com/netease/arctic/flink/read/source/log/LogSourceHelper.java:185-187 | `topic_partition_upstreamId` begins with `topic_partition` |
| LedgerKeys.EpicKey | flink/v1.14/flink/src/main/java/com/netease/arctic/flink/read/source/log/LogSourceHelper.java:177-179 | An epic key begins with its upstream prefix, and it equals the key a restored split entry `upstreamId_epicNo` gets |
| LedgerKeys.SplitEntryKey | flink/v1.14/flink/src/main/java/com/netease/arctic/flink/read/source/log/LogSourceHelper.java:181-183 | A restored key begins with `topic_partition_` |
| LedgerKeys.SplitEntryKeyInjective | flink/v1.14/flink/src/main/java/com/netease/arctic/flink/read/source/log/LogSourceHelper.java:181-183 | Distinct split entries of one partition get distinct keys |
| LedgerKeys.LastIndexOf | flink/v1.14/flink/src/main/java/com/netease/arctic/flink/read/source/log/LogSourceHelper.java:177-191 | Step of the key decoder (not helper code): finds the last `_` of a key, the separator the key builders insert |
| LedgerKeys.SplitLastJoin | flink/v1.14/flink/src/main/java/com/netease/arctic/flink/read/source/log/LogSourceHelper.java:177-191 | Step of the key decoder (not helper code): cutting `a_b` at its last `_` returns `a` and `b` when `b` has no `_` |
| LedgerKeys.EpicKeyRoundTrip | flink/v1.14/flink/src/main/java/com/netease/arctic/flink/read/source/log/LogSourceHelper.java:177-191 | The key decoder, a proof device, inverts the key builder: decoding an epic key returns its topic, partition, upstream id and epic, provided the upstream id has no `_` |
| LedgerKeys.EpicKeyInjective | flink/v1.14/flink/src/main/java/com/netease/arctic/flink/read/source/log/LogSourceHelper.java:177-191 | Keys are collision-free across (partition, upstream id, epic) when upstream ids have no `_` |
| EpicLedger.PutIfAbsent | flink/v1.14/flink/src/main/java/com/netease/arctic/flink/read/source/log/LogSourceHelper.java:174 | The key is present afterwards, existing values are kept, and the given offset is used only for a new key |
| EpicLedger.Selected | flink/v1.14/flink/src/main/java/com/netease/arctic/flink/read/source/log/LogSourceHelper.java:146-150 | The keys the loop removes: those in `headMap(key, true)` that contain the upstream prefix. The epic's own key is always selected, and a selected key is at least as long as the prefix |
| EpicLedger.Prune | flink/v1.14/flink/src/main/java/com/netease/arctic/flink/read/source/log/LogSourceHelper.java:144-155 | Exactly the keys at or before the target that contain the upstream prefix are removed, and every other entry keeps its value |
| EpicLedger.PruneExactly | flink/v1.14/flink/src/main/java/com/netease/arctic/flink/read/source/log/LogSourceHelper.java:144-155 | Knowing which keys are selected determines the pruned ledger |
| EpicLedger.PruneRemovesRetractedEpic | flink/v1.14/flink/src/main/java/com/netease/arctic/flink/read/source/log/LogSourceHelper.java:144-155 | The pruned epic's own entry is always removed |
| EpicLedger.PruneRemovesEarlierEpicsOfSameWidth | flink/v1.14/flink/src/main/java/com/netease/arctic/flink/read/source/log/LogSourceHelper.java:144-155 | Earlier or equal non-negative epics of the same upstream and partition whose numbers have as many digits are removed too |
| EpicLedger.PruneKeepsLaterKeys | flink/v1.14/flink/src/main/java/com/netease/arctic/flink/read/source/log/LogSourceHelper.java:146 | Keys sorting after the target survive with their values |
| EpicLedger.PruneKeepsLaterEpicsOfSameWidth | flink/v1.14/flink/src/main/java/com/netease/arctic/flink/read/source/log/LogSourceHelper.java:145-153 | Pruning up to a non-negative epic, a later epic of the same upstream whose number has as many digits survives with its offset |
| EpicLedger.PruneIdempotent | flink/v1.14/flink/src/main/java/com/netease/arctic/flink/read/source/log/LogSourceHelper.java:144-155 | Pruning twice with the same arguments equals pruning once |
| EpicLedger.HeadKeys | flink/v1.14/flink/src/main/java/com/netease/arctic/flink/read/source/log/LogSourceHelper.java:146 | `headMap(key, true)` holds exactly the ledger keys at or before the key |
| EpicLedger.LeastExists | flink/v1.14/flink/src/main/java/com/netease/arctic/flink/read/source/log/LogSourceHelper.java:149 | A non-empty key set has a least key, the first the TreeMap iterator visits |
| EpicLedger.AscendingCons | flink/v1.14/flink/src/main/java/com/netease/arctic/flink/read/source/log/LogSourceHelper.java:149 | Putting a new least key in front of an ascending key sequence keeps it ascending |
| EpicLedger.Ascending | flink/v1.14/flink/src/main/java/com/netease/arctic/flink/read/source/log/LogSourceHelper.java:149 | The iteration order of the head map's key set is strictly ascending and visits exactly its keys |
| EpicLedger.RemoveWhileIterating | flink/v1.14/flink/src/main/java/com/netease/arctic/flink/read/source/log/LogSourceHelper.java:149-154 | The `for` loop as written over the head-map keys: any throw is `ConcurrentModificationException`, a return only removes entries, and keys the loop never visits stay |
| EpicLedger.RemoveWhileIteratingOutcome | flink/v1.14/flink/src/main/java/com/netease/arctic/flink/read/source/log/LogSourceHelper.java:149-154 | The loop as written throws `ConcurrentModificationException` exactly when it removes a key that is not the last it visits; otherwise it removed every visited key containing the prefix |
| EpicLedger.AscendingIndexOrder | flink/v1.14/flink/src/main/java/com/netease/arctic/flink/read/source/log/LogSourceHelper.java:149 | In the iteration order a smaller key is visited earlier |
| EpicLedger.MatchingHeadKeys | flink/v1.14/flink/src/main/java/com/netease/arctic/flink/read/source/log/LogSourceHelper.java:146-153 | Over the head map's keys, the keys the loop removes are the selected ones |
| EpicLedger.NotLastMatchIff | flink/v1.14/flink/src/main/java/com/netease/arctic/flink/read/source/log/LogSourceHelper.java:149-154 | A removal before the last visited key happens exactly when some selected key has a later head-map key |
| EpicLedger.ClearAsWrittenFacts | flink/v1.14/flink/src/main/java/com/netease/arctic/flink/read/source/log/LogSourceHelper.java:144-155 | The method as written either prunes as intended or throws, and it throws exactly when a selected key is not the greatest head-map key |
| EpicLedger.ClearAsWritten | flink/v1.14/flink/src/main/java/com/netease/arctic/flink/read/source/log/LogSourceHelper.java:144-155 | `clearEpicStartOffsetsBeforeOrEqual` as written: when it returns it equals `Prune`, and it throws `ConcurrentModificationException` exactly when a selected key is followed by another head-map key |
| LogSourceHelper.New | flink/v1.14/flink/src/main/java/com/netease/arctic/flink/read/source/log/LogSourceHelper.java:60-63 | A new helper has no retracting partition and an empty ledger |
| LogSourceHelper.RetractingInfoOf | flink/v1.14/flink/src/main/java/com/netease/arctic/flink/read/source/log/LogSourceHelper.java:199-216 | `EpicRetractingInfo.of`: the getters of the record return the epic, upstream id, stop offset and resume offset it was made from |
| LogSourceHelper.SplitEntryKeysDistinct | flink/v1.14/flink/src/main/java/com/netease/arctic/flink/read/source/log/LogSourceHelper.java:78-81 | The keys restored from one split are pairwise distinct, so the order of `forEach` does not matter |
| LogSourceHelper.RestoredEntries | flink/v1.14/flink/src/main/java/com/netease/arctic/flink/read/source/log/LogSourceHelper.java:76-81 | Every split entry appears under its `topic_partition_` key with its offset, and nothing else appears |
| LogSourceHelper.InitializedState | flink/v1.14/flink/src/main/java/com/netease/arctic/flink/read/source/log/LogSourceHelper.java:65-82 | A plain Kafka split changes nothing. A retracting log split sets its partition's record from the split fields and leaves the others. Restored offsets are added only under absent keys, so existing ledger values are never overwritten and nothing else is added |
| LogSourceHelper.GetRetractTopicPartitions | flink/v1.14/flink/src/main/java/com/netease/arctic/flink/read/source/log/LogSourceHelper.java:115-117 | A partition is listed exactly when `getRetractInfo` succeeds for it |
| LogSourceHelper.NotRetractingMessage | flink/v1.14/flink/src/main/java/com/netease/arctic/flink/read/source/log/LogSourceHelper.java:122-123 | The exception message names the topic and then the partition, as decimal text that parses back to the partition number |
| LogSourceHelper.GetRetractInfo | flink/v1.14/flink/src/main/java/com/netease/arctic/flink/read/source/log/LogSourceHelper.java:119-126 | Returns the stored record exactly for a retracting partition; otherwise throws `IllegalStateException` with the formatted message |
| LogSourceHelper.ClearEpicStartOffsetsBeforeOrEqual | flink/v1.14/flink/src/main/java/com/netease/arctic/flink/read/source/log/LogSourceHelper.java:144-155 | With the intended pruning: only the ledger changes, as `Prune` describes, and the epic's own entry is gone afterwards. The code as written can also throw; see `SuspendRetractingAsWritten` |
| LogSourceHelper.SuspendRetracting | flink/v1.14/flink/src/main/java/com/netease/arctic/flink/read/source/log/LogSourceHelper.java:128-131 | With the intended pruning: succeeds exactly for a retracting partition. Its record is removed, the ledger is pruned with the record's upstream id and epic, and that epic's entry is gone. Otherwise throws `NullPointerException` |
| LogSourceHelper.SuspendRetractingAsWritten | flink/v1.14/flink/src/main/java/com/netease/arctic/flink/read/source/log/LogSourceHelper.java:128-155 | `suspendRetracting` with the pruning loop as written: `NullPointerException` for a partition that is not retracting. For a retracting one it returns exactly when no selected key is followed by another head-map key, and otherwise throws `ConcurrentModificationException`. When it returns it agrees with `SuspendRetracting` |
| LogSourceHelper.SuspendRetractingAll | flink/v1.14/flink/src/main/java/com/netease/arctic/flink/read/source/log/LogSourceHelper.java:133-135 | Completes exactly when the partitions are distinct and all retracting; otherwise throws `NullPointerException` |
| LogSourceHelper.SuspendRetractingAllSingle | flink/v1.14/flink/src/main/java/com/netease/arctic/flink/read/source/log/LogSourceHelper.java:133-135 | A batch of one partition is `suspendRetracting` of it; a throw leaves the helper unchanged |
| LogSourceHelper.SuspendRetractingAllAppend | flink/v1.14/flink/src/main/java/com/netease/arctic/flink/read/source/log/LogSourceHelper.java:133-135 | `forEach` in order: suspending `a + b` is suspending `a` and then, unless that threw, `b` from the state `a` left |
| LogSourceHelper.SuspendRetractingAllStopsAtFailure | flink/v1.14/flink/src/main/java/com/netease/arctic/flink/read/source/log/LogSourceHelper.java:133-135 | A batch that throws stops at some `tps[j]`: the earlier partitions were all suspended, the state is exactly what suspending them alone gives, and `tps[j]` has no record there |
| LogSourceHelper.SuspendRetractingAllFrame | flink/v1.14/flink/src/main/java/com/netease/arctic/flink/read/source/log/LogSourceHelper.java:133-135 | Thrown or not, the records left are original ones and every partition outside the batch keeps its record |
| LogSourceHelper.SuspendRetractingAllDropsBatch | flink/v1.14/flink/src/main/java/com/netease/arctic/flink/read/source/log/LogSourceHelper.java:133-135 | A completed batch leaves a record exactly for the partitions that had one and are not in the batch |
| LogSourceHelper.SuspendRetractingAllShrinksLedger | flink/v1.14/flink/src/main/java/com/netease/arctic/flink/read/source/log/LogSourceHelper.java:133-135 | Thrown or not, the ledger only loses entries and no value changes |
| LogSourceHelper.SuspendRetractingAllPrunes | flink/v1.14/flink/src/main/java/com/netease/arctic/flink/read/source/log/LogSourceHelper.java:133-135 | A completed batch has removed every retracted epic's own entry from the ledger |
| LogSourceHelper.StartRetracting | flink/v1.14/flink/src/main/java/com/netease/arctic/flink/read/source/log/LogSourceHelper.java:161-170 | Without a recorded start nothing changes. With one, the partition's record becomes (epic, upstream id, recorded start, resume offset), replacing any earlier record, and other partitions and the ledger are unchanged |
| LogSourceHelper.InitialEpicStartOffsetIfEmpty | flink/v1.14/flink/src/main/java/com/netease/arctic/flink/read/source/log/LogSourceHelper.java:172-175 | First write wins: an existing key leaves the helper unchanged, and otherwise exactly that key is added with the start offset |
| LogSourceHelper.FirstWriteWins | flink/v1.14/flink/src/main/java/com/netease/arctic/flink/read/source/log/LogSourceHelper.java:172-175 | Recording twice keeps the first offset, and the second call is a no-op |
| LogSourceHelper.RetractionWindow | flink/v1.14/flink/src/main/java/com/netease/arctic/flink/read/source/log/LogSourceHelper.java:161-175 | Recording start `s` and then starting retraction with resume offset `v` yields the record (epic, upstream id, `s`, `v`) |
| LogSourceHelper.UnreadEpicStaysForward | flink/v1.14/flink/src/main/java/com/netease/arctic/flink/read/source/log/LogSourceHelper.java:161-166 | Retracting an epic that was never recorded leaves a forward-reading partition out of the retracting set |
| LogSourceHelper.StartThenSuspend | flink/v1.14/flink/src/main/java/com/netease/arctic/flink/read/source/log/LogSourceHelper.java:128-170 | Starting and then suspending a retraction restores every other partition's record, forgets this one, and prunes the epic. With the loop as written, the suspend returns exactly when no selected key is followed by another head-map key, and otherwise throws `ConcurrentModificationException` |
| LogSourceHelper.RestoredRetraction | flink/v1.14/flink/src/main/java/com/netease/arctic/flink/read/source/log/LogSourceHelper.java:70-75 | After restoring a retracting split, `getRetractInfo` returns the split's values |
| LogSourceHelper.RestoredOffsetDrivesRetraction | flink/v1.14/flink/src/main/java/com/netease/arctic/flink/read/source/log/LogSourceHelper.java:76-81 | An offset restored under `upstreamId_epicNo` is the stop offset a later `startRetracting` of that epic finds, unless the ledger already held the key |
| RowKinds.Inverse | flink/v1.14/flink/src/main/java/com/netease/arctic/flink/read/source/log/LogSourceHelper.java:84-110 | The inverse kind flips the sign of the short notation and keeps an update an update |
| RowKinds.InverseUnique | flink/v1.14/flink/src/main/java/com/netease/arctic/flink/read/source/log/LogSourceHelper.java:86-89 | Sign flipped with the update family kept singles out the inverse, so the table `+I -> -D`, `-D -> +I`, `-U -> +U`, `+U -> -U` is the only one |
| RowKinds.TurnRowKind | flink/v1.14/flink/src/main/java/com/netease/arctic/flink/read/source/log/LogSourceHelper.java:94-113 | Only the row's kind changes, it always changes, and it becomes the inverse kind |
| RowKinds.TurnRowKindInvolution | flink/v1.14/flink/src/main/java/com/netease/arctic/flink/read/source/log/LogSourceHelper.java:94-113 | Turning a row's kind twice gives back the row |
| MagicNumbers.Bytes | flink/v1.14/flink/src/main/java/com/netease/arctic/flink/read/source/log/LogSourceHelper.java:196 | The marker has three bytes |
| MagicNumbers.CheckMagicNum | flink/v1.14/flink/src/main/java/com/netease/arctic/flink/read/source/log/LogSourceHelper.java:193-197 | `null` throws `NullPointerException` and fewer than three bytes throw `IllegalArgumentException`. Otherwise the result is true exactly when the first three bytes are the marker |
| MagicNumbers.CheckMagicNumIgnoresTail | flink/v1.14/flink/src/main/java/com/netease/arctic/flink/read/source/log/LogSourceHelper.java:196 | Bytes after the third never change the answer |
| MagicNumbers.FramedPayloadAccepted | flink/v1.14/flink/src/main/java/com/netease/arctic/flink/read/source/log/LogSourceHelper.java:193-197 | Any payload that starts with the marker is accepted |
| Scenarios.EpicLifeCycle | flink/v1.14/flink/src/main/java/com/netease/arctic/flink/read/source/log/LogSourceHelper.java:128-175 | Epic 1 of `job-A` is recorded at 1000. Retracting the unread epic 2 is a no-op. Retracting epic 1 stops at 1000 and resumes at 1500. Suspending it, with the intended pruning and with the loop as written alike, returns the helper to its initial state |
| Scenarios.NotContainsU1 | flink/v1.14/flink/src/main/java/com/netease/arctic/flink/read/source/log/LogSourceHelper.java:150 | Keys of upstream `u2` do not contain the prefix of upstream `u1` |
| Scenarios.PruneLeavesOtherUpstream | flink/v1.14/flink/src/main/java/com/netease/arctic/flink/read/source/log/LogSourceHelper.java:144-155 | Pruning `u1` up to epic 3 removes `u1`'s entry and keeps both entries of `u2` |
| Scenarios.PruneKeepsHeadKeyOfOtherUpstream | flink/v1.14/flink/src/main/java/com/netease/arctic/flink/read/source/log/LogSourceHelper.java:144-155 | Pruning `u2` up to epic 3 reaches `u1`'s key inside the head map and keeps it, because it does not contain the `u2` prefix; only `u2`'s two entries are removed |
| Scenarios.PruneComparesEpicsAsText | flink/v1.14/flink/src/main/java/com/netease/arctic/flink/read/source/log/LogSourceHelper.java:144-155 | Pruning up to epic 3 also removes epic 10, since `"10"` sorts before `"3"` |
| Scenarios.PruneKeepsNegativeEarlierEpic | flink/v1.14/flink/src/main/java/com/netease/arctic/flink/read/source/log/LogSourceHelper.java:144-155 | Pruning up to epic -1 keeps epic -2, since `"-2"` sorts after `"-1"` |
| Scenarios.PruneMatchesUpstreamAsSubstring | flink/v1.14/flink/src/main/java/com/netease/arctic/flink/read/source/log/LogSourceHelper.java:148-153 | Pruning upstream `u` also removes an entry of upstream `u1` that sorts before the target |
| Scenarios.PruneReachesOtherTopic | flink/v1.14/flink/src/main/java/com/netease/arctic/flink/read/source/log/LogSourceHelper.java:144-155 | Pruning topic `t`, upstream `u`, also removes an entry of topic `at`, whose key contains `t_0_u` and sorts before the target |
| Scenarios.ClearAsWrittenThrows | flink/v1.14/flink/src/main/java/com/netease/arctic/flink/read/source/log/LogSourceHelper.java:146-154 | With epics 1 and 2 of one upstream recorded, the pruning loop as written throws `ConcurrentModificationException` |

## Left out

- Logging (SLF4J) and Java serialization (`Serializable`, `serialVersionUID`) are not modelled. They do not affect the helper's state.
- Checkpoint persistence is done by the framework and does not appear in the helper.
- Flink's `RowData` contents and in-place mutation are not modelled. A row is its kind plus a payload the model never touches, and `turnRowKind` returns the changed row as a new value.
- Kafka's `TopicPartition` and `KafkaPartitionSplit` internals are not modelled. A split is a datatype holding the fields `initializedState` reads.
- `LogData.MAGIC_NUMBER` is defined outside the helper. `MagicNumbers.CheckMagicNum` takes it as a three-byte parameter.
- `null` arguments are not modelled, except the two `null` paths the helper itself hits: a `null` array in `checkMagicNum`, and the missing record in `suspendRetracting`. This covers a `null` upstream id, topic, split offset map or row kind.
- JavaStrings.Contains: strings in general are modelled as sequences of Unicode scalar values, while Java strings are sequences of UTF-16 code units. A lone surrogate cannot be represented, so the model cannot match one as Java's `contains` can.
- JavaStrings.CompareTo: compares scalar values, while Java compares UTF-16 code units. The two orders agree on strings without characters outside the Basic Multilingual Plane, and may differ on others.
- LogSourceHelper.NotRetractingMessage: writes the partition with ASCII digits. `String.format("%d")` uses the digits of the default locale, which differ in some locales.
- LogSourceHelper.ClearEpicStartOffsetsBeforeOrEqual: models the intended pruning (`EpicLedger.Prune`) and never throws. The code as written throws `ConcurrentModificationException` when a removed key is followed by another head-map key; `EpicLedger.ClearAsWritten` models that path.
- LogSourceHelper.SuspendRetracting: builds on the intended pruning, so it omits the `ConcurrentModificationException` path of the code as written; `LogSourceHelper.SuspendRetractingAsWritten` models it.
- LogSourceHelper.SuspendRetractingAll: builds on `SuspendRetracting`, so a batch never throws `ConcurrentModificationException` in the model. The ledger after the batch is pinned down only through `SuspendRetractingAllSingle` and `SuspendRetractingAllAppend`, one prune per partition in order.
- LogSourceHelper.StartThenSuspend: its `Success` clause is about the intended pruning. Its last clause states when the code as written returns instead.
- LogSourceHelper.SuspendRetractingAsWritten: after a `ConcurrentModificationException` it returns only the exception. The Java object is left with the record removed and the first selected key deleted; that partial state is not modelled.
- LogSourceHelper.InitializedState: the `forEach` over the split's hash map is modelled as one map union. Any visiting order gives the same result because the restored keys are pairwise distinct (`LogSourceHelper.SplitEntryKeysDistinct`).
- A caller that passes the live `getRetractTopicPartitions()` key set to `suspendRetracting(Collection)` would change that set while iterating it. The callers are not part of this model.
- The unreachable `default` branch of `turnRowKind` is not modelled. `RowKind` has exactly the four modelled values.
- `CatalogTest` is not part of this model. It is an end-to-end catalog test and says nothing about the helper.

## Findings

| source | as written | input that shows it | evidently intended | confidence | as-written member | corrected member |
|---|---|---|---|---|---|---|
| flink/v1.14/flink/src/main/java/com/netease/arctic/flink/read/source/log/LogSourceHelper.java:146-154 | The loop iterates the key set of the live `headMap` view and calls `remove` on the backing `TreeMap`. After a removal, the iterator's next step sees a changed modification count and throws `ConcurrentModificationException`. | Ledger `{t_0_u_1: 10, t_0_u_2: 20}`. Clearing topic `t`, partition 0, upstream `u`, epic 2 removes `t_0_u_1` and then throws while advancing to `t_0_u_2`. This happens whenever a removed key is not the last key of the head map. | Every key at or before the target that contains the upstream prefix is removed, and the call returns. | high, not executed | EpicLedger.ClearAsWritten, lifted to the helper by LogSourceHelper.SuspendRetractingAsWritten (counterexample: Scenarios.ClearAsWrittenThrows) | EpicLedger.Prune (used by LogSourceHelper.ClearEpicStartOffsetsBeforeOrEqual, LogSourceHelper.SuspendRetracting and LogSourceHelper.SuspendRetractingAll) |
