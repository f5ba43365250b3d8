# Cordon, modelled and proved in Dafny

Cordon is an inference node: it filters what a model says, keeps a
tamper-evident audit log, seals model weights into encrypted bundles, limits
what each client may consume, and decides which bundles it may serve. This
project models the parts of it that have to hold over whole runs and proves
what they promise.

`dafny verify dfyconfig.toml` checks the whole project.

| files | what they model |
|---|---|
| `OutputFilter`, `FilterMeaning` | the whole-response filter: literal tokens, topics, length limits; and what each rule means |
| `FilterLag`, `Streaming`, `RescanCost`, `StreamLimits` | the streaming filter: why it agrees with the whole-response filter, what its re-scans cost, and where a holdback cannot help |
| `StreamTask`, `StreamOutcome` | the loop that sends one streamed response; what is recorded of its end |
| `AuditChain`, `AuditVerify` | the hash chain and the offline verifier |
| `LastEntry`, `SegmentNames`, `AuditLog`, `LogReaders`, `LogContents` | the log writer through rotation, crash and reopening, the readers, and what the log then holds |
| `Bundle`, `BundleMeaning`, `Sealing`, `Principals` | sealing weights, the two checkers that read bundles back, what an accepted manifest guarantees, and the principal both are given |
| `RateLimiter`, `RateBound`, `RateExact`, `Pruning` | the token bucket, its rate bound, its exact books, and why pruning gives nothing away |
| `AttackWindows`, `Tracking` | sliding-window event counters in a bounded map; which keys it follows |
| `Sessions`, `SessionHistory` | admission slots and sessions, over whole runs |
| `ServingGate` | which bundles may be served |
| `ModelRef` | parsing and printing model references |
| `Prelude`, `Sorting` | shared text functions; stable sorting |

The source keeps its state in objects that its methods update, and so does the
model: each such object is a class whose methods equal a specification function
of the old state. The theorems are about those functions, over every input and
every run.

## Assumptions

- A text is a sequence of characters; a byte string is a sequence of characters,
  one a byte.
- SHA-256, Ed25519 (RFC 8032, section 5.1), AES-256-GCM, HKDF (RFC 5869,
  section 2), base64 and the JSON form of an entry are functions the model is
  given, with only the laws it states: a digest is 64 lowercase hexadecimal
  characters, a signature the node made verifies, decryption undoes encryption, a
  nonce and an audit line read back. Nothing is assumed to be injective: where a
  result rests on collision resistance, it yields the colliding pair.
- The clock is a parameter counted in microseconds. It may run anywhere in the
  methods; the theorems about runs take it not to run back.
- Each public operation is one atomic step. A log line is written whole or not at
  all, and a crash loses a suffix of the entries.
- Identifiers the node draws are fresh, and a reservation is settled at most once
  and for no more than it reserved.

## Where the code departs from its documentation

The model follows the code. Each point has its own lemma, and where a condition
separates the inputs that are fine from those that are not, it is proved exact.

1. The streaming contract, that nothing the whole-response filter removes is
   released (`crates/cordon-core/src/output_filter.rs:410-416`), depends on the
   rules and the holdback. `RefinesIffSafe` gives the exact condition for every
   policy and holdback, in terms of the whole-response filter alone, and
   `FilterLag.Lag` computes a holdback that suffices wherever it computes one. For
   a one-token redaction the holdback and the prefix the token shares with the
   mark must together cover all but one character (`RedactionNeedsItsLag`); for a
   one-token truncation the holdback must (`CutNeedsItsLag`). Some policies no
   holdback suits: a token that blocks after a redaction, exactly when some
   refused text has an accepted continuation (`BlockAfterRedactionIsSafeIff`), as
   when the token lies inside a proper prefix of the redacted one and not in the
   mark (`BlockAfterRedactionNeverSafe`) or runs into a redacted one
   (`BlockAcrossRedactionNeverSafe`), but never when the two share no
   character (`DisjointTokensNeverUnblock`); a truncation with two tokens, when a
   completed redaction can take the first away and the second holds neither
   (`CutAfterRedactionNeverSafe`); and a topic
   rule that truncates, unless it cannot fire or has always fired by the time
   anything is released (`CutOnTopicIsSafeIff`).
2. The audit record of a streamed response names the rules that fired in the last
   scan made by a push, not those of the final scan
   (`crates/cordon-api/src/handlers.rs:509-513`). So it is complete exactly when that
   scan fired what the whole-response filter fires (`RecordNamesLastScan`); a
   response no longer than the holdback records no rule
   (`ShortStreamsRecordNoRules`).
3. When the client hangs up before the last delta, the stream task returns
   without recording an outcome, although the comment at
   `crates/cordon-api/src/handlers.rs:506-508` covers whatever happened. The
   contract of `StreamTask.Run` gives the exact case.
4. Reopening the log reads each segment's last line from its last 64 KiB as soon
   as that block holds any newline, not a newline before the line
   (`crates/cordon-audit/src/log.rs:588-591`). A last line longer than a block,
   newline included, makes reopening fail (`LastEntryIsReadIffItFits`).
5. A saturated counter is said to still fire everything it should
   (`crates/cordon-core/src/attack_detector.rs:78-80`). Once its 512 kept events
   lapse it restarts at one, however many dropped events are still in the window
   (`SaturationForgets`). A threshold of at least two fires whenever it should
   exactly when the traffic cannot pass 512 events a window or cannot reach the
   threshold (`FiresIffCapacityHolds`). Counting is exact up to the capacity and
   no further (`ExactIffCapacityHolds`), and exact again after any moment at which
   the window was empty (`ExactSinceQuiet`).
6. Staging that fails on a shard leaves the plaintext written so far in the
   staging file (`Bundle.Stage`), records no verdict, and clears the tampered mark
   that an earlier failed check left. A bundle refused before is then admitted
   exactly when its latest verdict is nevertheless a fresh pass
   (`FailedStagingReadmitsIff`), which can happen to every bundle
   whose files are there at some moment (`FailedStagingReadmits`).
7. Pruning idle buckets costs nothing exactly when it waits at least a minute
   (`PruningRefinesIffItWaitsAMinute`); the node prunes after an hour.
8. A reference whose owner is `hf.co` or `huggingface.co` prints to text that
   does not parse; every other reference reads back (`PrintThenParse`).
9. Sealing trims the principal (`crates/cordon-core/src/bundle.rs:133`),
   verification takes it as given (`crates/cordon-core/src/bundle.rs:352-356`), and
   the command line gives both the same text. What is sealed verifies under the
   same principal, in every vault, exactly when the principal has no blanks around
   it (`ReverifiesIffTrimmed`); in one vault whose encryption is authenticated,
   exactly when the trimmed and the untrimmed principal derive the same shard keys
   (`SealThenVerify`).
10. A lease is said to tear down the session it belongs to
   (`crates/cordon-core/src/inference.rs:489-490`). It ends whatever session then
   has that identifier, and this is another client's exactly when its own session
   went away meanwhile and that client took the identifier
   (`DropEndsForeignSessionIff`, `DropEndsForeignSession`).

## Model

| member | source | states |
|---|---|---|
| OutputFilter.FindIsFirst | crates/cordon-core/src/output_filter.rs:297-299 | the position a token is matched at is its first occurrence, and there is a position whenever the token occurs |
| OutputFilter.ScanBlocklist | crates/cordon-core/src/output_filter.rs:292-321 | the token loop, with its early ends on truncate and block, computes the recursive specification |
| OutputFilter.ScanRule | crates/cordon-core/src/output_filter.rs:269-346 | one pass of the rule loop computes the specification of one rule, for token, topic and length rules; what that is, the `FilterMeaning` rows say |
| OutputFilter.RunFilter | crates/cordon-core/src/output_filter.rs:265-397 | the rule loop computes the pipeline in order and stops at the first blocking rule |
| OutputFilter.RedactionIsExact | crates/cordon-core/src/output_filter.rs:307-309 | redaction rewrites the occurrences and nothing else: one list of token-free pieces joins by the token to the input and by the mark to the output |
| FilterMeaning.TopicRuleMeans | crates/cordon-core/src/output_filter.rs:325-346 | a topic rule fires exactly when at least its positive minimum of list entries occur in the text; it then blocks exactly under the error action, clears the text exactly under truncate, and is recorded once |
| FilterMeaning.TopicsIgnoreCase | crates/cordon-core/src/output_filter.rs:326-329 | two texts, under two lists, that differ in the case of letters only mention the same entries |
| FilterMeaning.LengthRuleMeans | crates/cordon-core/src/output_filter.rs:270-291 | a length rule fires exactly on a text longer than its limit; it then blocks exactly under the error action and leaves exactly the leading characters allowed under truncate |
| FilterMeaning.BlockingRuleMeans | crates/cordon-core/src/output_filter.rs:292-321 | a blocking token rule refuses a text exactly when one of its tokens occurs in it, and never changes it |
| FilterMeaning.CuttingRuleMeans | crates/cordon-core/src/output_filter.rs:292-321 | a cutting token rule keeps the text before the first occurrence of the first listed token that occurs |
| FilterMeaning.RedactingRuleMeans | crates/cordon-core/src/output_filter.rs:292-321 | a redacting rule redacts its tokens one after another, each in what the ones before left, and is recorded once for each token found; a logging rule looks for all of them in the text as it is |
| FilterMeaning.PolicyMeans | crates/cordon-core/src/output_filter.rs:265-397 | a policy blocks exactly when some rule blocks what the rules before it leave; otherwise every rule has its turn and all that fired are recorded in order |
| FilterLag.RedactionSettles | crates/cordon-core/src/output_filter.rs:307-309 | whatever text follows, redacting splits into a settled part and the redaction of an open part shorter than the token |
| FilterLag.RedactedLength | crates/cordon-core/src/output_filter.rs:307-309 | redaction of a text is never longer than the computed bound for its length |
| FilterLag.RedactLagIsLinear | crates/cordon-core/src/output_filter.rs:307-309 | the lag after redacting a token of length L is at most ten times the lag before it plus L - 1 |
| FilterLag.RedactNear | crates/cordon-core/src/output_filter.rs:307-309 | two texts that agree up to their last d characters agree after redaction up to the redaction's lag |
| FilterLag.CutEndsAtToken | crates/cordon-core/src/output_filter.rs:314-319 | truncation keeps a prefix without the token that ends exactly where the token starts |
| FilterLag.CutNear | crates/cordon-core/src/output_filter.rs:314-319 | a one-token truncation adds the token's length less one to the lag |
| FilterLag.CutManyNear | crates/cordon-core/src/output_filter.rs:292-321 | several truncating tokens applied to a prefix and to its extension agree up to the longest token less one |
| FilterLag.RuleNear | crates/cordon-core/src/output_filter.rs:269-393 | each rule that has a lag keeps early and late texts in agreement up to its lag, and a rule that blocks early blocks late |
| FilterLag.FilterNear | crates/cordon-core/src/output_filter.rs:265-397 | the lag theorem: a text filtered early agrees with the same text filtered later except on its last Lag characters, and an early block stays |
| Streaming.StreamingFilter.constructor | crates/cordon-core/src/output_filter.rs:459-471 | a new stream has received, scanned and released nothing |
| Streaming.StreamingFilter.Push | crates/cordon-core/src/output_filter.rs:488-524 | one push moves every field and returns the chunk or violation as the specification says |
| Streaming.StreamingFilter.Finish | crates/cordon-core/src/output_filter.rs:531-548 | the finish always scans, takes the buffer, releases the tail and leaves the recorded matches alone |
| Streaming.PushKeeps | crates/cordon-core/src/output_filter.rs:488-524 | a push keeps the invariant that no accepted continuation can take back what was released, and a violation means the text so far is blocked |
| Streaming.ReleasedIsStable | crates/cordon-core/src/output_filter.rs:410-416 | after any pushes the released text is a prefix of the whole filter applied to the text so far and any accepted continuation |
| Streaming.FinishCompletes | crates/cordon-core/src/output_filter.rs:526-548 | at the finish the releases and the tail are exactly the whole-response filter's text |
| Streaming.StreamAgrees | crates/cordon-core/src/output_filter.rs:410-416 | for every way of cutting a text into chunks the stream completes with the whole-response result, or stops exactly when that filter blocks |
| Streaming.CoveredLagIsSafe | crates/cordon-core/src/output_filter.rs:410-416 | a holdback no smaller than the policy's lag meets the exact condition |
| Streaming.RefinesIffSafe | crates/cordon-core/src/output_filter.rs:410-432 | for every policy and holdback, streaming refines the whole-response filter if and only if no scan of a text refuses or releases what that filter, on an accepted continuation, would not |
| Streaming.StreamRefinesFilter | crates/cordon-core/src/output_filter.rs:410-432 | a holdback no smaller than the policy's lag makes the streaming filter refine the whole-response filter |
| RescanCost.RescanIsLinear | crates/cordon-core/src/output_filter.rs:399-432 | over any pushes and the finish, the full filter sees at most seventy times the characters generated |
| RescanCost.NothingIsOwed | crates/cordon-core/src/output_filter.rs:399-432 | after every accepted push no more than the holdback is kept back of what the last scan let through, and what that scan has not seen is shorter than the stride, unless all the text is within the holdback |
| StreamLimits.ShortHoldbackLeaks | crates/cordon-core/src/output_filter.rs:410-416 | for every redacted token, one character of holdback too few lets the start of the token out |
| StreamLimits.RedactionNeedsItsLag | crates/cordon-core/src/output_filter.rs:410-416 | for every token a one-token redaction streams faithfully if and only if the holdback and the prefix shared with the mark cover all but one of its characters |
| StreamLimits.CutNeedsItsLag | crates/cordon-core/src/output_filter.rs:314-319 | for every token a one-token truncation streams faithfully if and only if the holdback covers all but one of its characters |
| StreamLimits.CutAfterRedactionNeverSafe | crates/cordon-core/src/output_filter.rs:410-416 | for any redacted token and two truncating tokens, if a continuation can take the first away by completing a redaction, every holdback fails |
| StreamLimits.CutInsideRedactedNeverSafe | crates/cordon-core/src/output_filter.rs:410-416 | in particular a first token inside a proper prefix of the redacted one and not in the mark, before a second token that holds neither |
| StreamLimits.BlockAfterRedactionIsSafeIff | crates/cordon-core/src/output_filter.rs:483-487 | for any redacted and blocking token, a holdback that suits the redaction is enough if and only if no refused text has an accepted continuation, and otherwise no holdback is |
| StreamLimits.BlockAfterRedactionNeverSafe | crates/cordon-core/src/output_filter.rs:483-487 | a blocking token inside a proper prefix of any redacted one and not in the mark defeats every holdback |
| StreamLimits.BlockAcrossRedactionNeverSafe | crates/cordon-core/src/output_filter.rs:483-487 | a blocking token that ends in a proper prefix of any redacted one defeats every holdback, unless completing the redaction leaves it elsewhere |
| StreamLimits.DisjointTokensNeverUnblock | crates/cordon-core/src/output_filter.rs:300-313 | a blocking token that shares no character with the redacted one is never taken away |
| StreamLimits.CutOnTopicIsSafeIff | crates/cordon-core/src/output_filter.rs:325-346 | for any keywords, threshold and holdback, a truncating topic rule streams faithfully if and only if it cannot fire or fires on every text long enough to be released |
| StreamLimits.CutOnTopicNeverSafe | crates/cordon-core/src/output_filter.rs:325-346 | a rule that can fire defeats every holdback as long as some character starts none of its keywords |
| StreamLimits.BlockedTextIsNeverReleased | crates/cordon-core/src/output_filter.rs:427-432 | under a policy that never rewrites, what was released ends before every occurrence of a blocking token no longer than the holdback plus one |
| StreamLimits.CompletesExactlyWhenAccepted | crates/cordon-core/src/output_filter.rs:488-548 | such a stream completes exactly when the unary filter accepts the text, and then sends exactly that text |
| StreamTask.Channel.Send | crates/cordon-api/src/handlers.rs:467-469 | a send appends the event and succeeds exactly while the receiver is there |
| StreamTask.Pump | crates/cordon-api/src/handlers.rs:457-490 | the loop sends the due deltas up to where the receiver leaves, and reports why and with which usage and reason the generation ended |
| StreamTask.Run | crates/cordon-api/src/handlers.rs:448-581 | the receiver gets the due deltas and one terminal event up to where it leaves; the outcome is recorded if and only if it did not leave before the last delta |
| StreamTask.DueIsReleased | crates/cordon-api/src/handlers.rs:457-503 | the due deltas concatenate to everything the filter released, for any policy and holdback |
| StreamTask.OneTerminalEvent | crates/cordon-api/src/handlers.rs:506-577 | what is sent is deltas and then exactly one terminal event, or deltas alone exactly when the receiver left; a done event commits to exactly the text sent |
| StreamTask.StreamedIsFiltered | crates/cordon-api/src/handlers.rs:448-577 | with a safe holdback, done happens exactly when generation did not fail and the unary filter accepts it all, and the text recorded is the unary filter's output |
| StreamTask.RecordNamesLastScan | crates/cordon-api/src/handlers.rs:509-513 | for every stream the record names exactly the rules fired in the last scan by an accepted push, which for a stream no push stopped depends on the chunk lengths only |
| StreamTask.ShortStreamsRecordNoRules | crates/cordon-api/src/handlers.rs:509-513 | a response no longer than the holdback records no rule, and its record is complete if and only if none fired |
| StreamOutcome.RecordSaysWhyItEnded | crates/cordon-api/src/handlers.rs:448-577 | for any policy, holdback and generation a stream the policy stopped is recorded as filtered, one a fault stopped as an error, and any other under the reason last reported or `stop`; the tokens used are those last reported before the end, and the terminal event says the same |
| StreamOutcome.ReasonNamesTheCause | crates/cordon-api/src/handlers.rs:515-530 | with a safe holdback a generation that did not fail is recorded as filtered exactly when the whole-response filter refuses it, and one that failed only if that filter refuses what it produced |
| StreamOutcome.RefusalNamesARule | crates/cordon-core/src/output_filter.rs:265-397 | every refusal has a rule to name |
| StreamOutcome.StoppedForTheFirstRule | crates/cordon-core/src/output_filter.rs:488-548 | a stopped stream names the first rule that fired when the filter refused the text so far, up to the refused push or all of it at the finish |
| AuditChain.PreimageFields | crates/cordon-audit/src/verify.rs:78-84 | the bytes hashed for an entry determine its previous hash, timestamp text and payload hash |
| AuditChain.GenesisIsNoEntry | crates/cordon-audit/src/verify.rs:188-194 | no linked entry hashes the genesis bytes, because they start outside the hexadecimal alphabet |
| AuditChain.AnchorFixesHistory | crates/cordon-audit/src/verify.rs:60-122 | two linked logs of one deployment that share an entry hash share its position and the timestamp and payload of every entry up to it, or walking back yields two inputs with one digest |
| AuditChain.ChainGrows | crates/cordon-audit/src/log.rs:280-317 | the entry append makes extends a complete signed chain to a complete signed chain |
| AuditChain.ChainPrefix | crates/cordon-audit/src/verify.rs:60-122 | every prefix of a valid chain is a valid chain |
| AuditVerify.LoadFile | crates/cordon-audit/src/verify.rs:173-185 | one segment loads to its entries in order, and one unreadable line fails it |
| AuditVerify.LoadEntries | crates/cordon-audit/src/verify.rs:150-171 | the load visits segments in name order and sorts all entries by sequence number |
| AuditVerify.CheckEntry | crates/cordon-audit/src/verify.rs:64-119 | one entry's checks find exactly the gap, link, payload and signature faults it has |
| AuditVerify.CollectFaults | crates/cordon-audit/src/verify.rs:60-122 | the loop, carrying the previous hash and sequence number, collects every entry's faults in order, and stops at a signature that does not parse |
| AuditVerify.VerifyEntries | crates/cordon-audit/src/verify.rs:40-133 | verification reports every fault in order, accepts exactly the complete signed chains, and gives the count and tail hash |
| AuditVerify.VerifyLog | crates/cordon-audit/src/verify.rs:40-133 | verifying a directory accepts exactly when its lines load to a complete signed chain, ends without a report exactly when a line or a signature does not parse, and otherwise reports every fault there is |
| AuditVerify.ReportNamesEveryFault | crates/cordon-audit/src/verify.rs:64-119 | the report holds a gap, link, payload or signature fault of an entry if and only if the entry has that fault, in the order of the entries |
| AuditVerify.FaultlessUpTo | crates/cordon-audit/src/verify.rs:60-122 | faults judged entry by entry against the entry before are absent exactly when the whole is a chain from the genesis |
| AuditVerify.ChainsShareHistory | crates/cordon-audit/src/verify.rs:60-122 | the anchor guarantee for two valid chains of one deployment, whoever signed them |
| AuditVerify.AcceptedLogsShareHistory | crates/cordon-audit/src/verify.rs:40-133 | the anchor guarantee for any two accepted logs of one deployment, whoever signed them |
| AuditVerify.SortRestoresChain | crates/cordon-audit/src/verify.rs:150-171 | sorting any permutation of a chain's entries gives the chain back |
| AuditVerify.VerdictIgnoresOrder | crates/cordon-audit/src/verify.rs:137-171 | moving lines between segments, reordering them or renaming files never changes the verdict |
| AuditVerify.SubCollectionIsValidIffPrefix | crates/cordon-audit/src/verify.rs:60-75 | a sub-collection of a valid log is valid if and only if it is its first entries, so every gap is caught |
| LastEntry.ReadLastEntry | crates/cordon-audit/src/log.rs:558-611 | the backward block loop computes the reading its specification gives |
| LastEntry.LastEntryIsReadIffItFits | crates/cordon-audit/src/log.rs:551-611 | the last entry of a segment is read back if and only if its line and newline fit in one block; otherwise the read fails |
| SegmentNames.PadOrders | crates/cordon-audit/src/log.rs:422-428 | fixed-width zero-padded numbers differ first at a smaller digit when the number is smaller |
| SegmentNames.NamesSortByNumber | crates/cordon-audit/src/log.rs:408-428 | a segment that begins at a later 64-bit number always sorts after one that begins earlier, whatever follows the number |
| SegmentNames.PaddingFits | crates/cordon-audit/src/log.rs:422-428 | every 64-bit sequence number fits the padding |
| AuditLog.AppendKeeps | crates/cordon-audit/src/log.rs:280-354 | append, with or without rotation, adds exactly the next entry and keeps the writer at the head of a valid chain |
| AuditLog.CrashKeeps | crates/cordon-audit/src/log.rs:225-260 | losing any suffix of entries, and any empty segments, leaves a valid log |
| AuditLog.LastUsedIsHead | crates/cordon-audit/src/log.rs:385-406 | the youngest segment that holds an entry holds the head of the chain, past empty rotated ones |
| AuditLog.OpenKeeps | crates/cordon-audit/src/log.rs:225-260 | opening gives a writer at the true head or a fresh log with its boot entry, and is refused exactly when some last entry is too long to read back |
| AuditLog.StepKeeps | crates/cordon-audit/src/log.rs:225-354 | every step of open, append, close and crash keeps the log invariant |
| AuditLog.EveryRunKeepsInv | crates/cordon-audit/src/log.rs:225-449 | the invariant holds after every run from an empty directory |
| LogReaders.FilenameOrderIsChainOrder | crates/cordon-audit/src/log.rs:508-521 | through rotations, crashes and resumes, reading segments in filename order reads the chain in order |
| LogReaders.ReadAllEntries | crates/cordon-audit/src/log.rs:528-549 | the full read returns every entry by sequence number, which is the chain itself on a valid log |
| LogReaders.ReadTailEntries | crates/cordon-audit/src/log.rs:451-493 | the tail read returns the last n entries of the full read |
| LogReaders.ReadersSeeTheChain | crates/cordon-audit/src/log.rs:457-549 | on every log a run can leave, what the readers read is the chain |
| LogReaders.ScanSegments | crates/cordon-audit/src/log.rs:390-406 | one pass over the segments finds the greatest last sequence number, or fails on a last entry it cannot read |
| LogReaders.FindExisting | crates/cordon-audit/src/log.rs:385-406 | the segment found has the greatest last sequence number of all, whatever order the directory lists them in |
| LogReaders.GreatestIsHead | crates/cordon-audit/src/log.rs:385-406 | on a valid log only the youngest used segment ends in the greatest sequence number |
| LogReaders.AuditWriter.constructor | crates/cordon-audit/src/log.rs:207-222 | a log over existing segments starts closed |
| LogReaders.AuditWriter.Append | crates/cordon-audit/src/log.rs:280-354 | append on a closed log does nothing; on an open one it returns an entry with the identifier, timestamp and payload given, puts it at the end of the log, and rotates once the segment is full |
| LogReaders.AuditWriter.Rotate | crates/cordon-audit/src/log.rs:431-449 | rotation adds an empty segment named for the next sequence number and writes there |
| LogReaders.AuditWriter.Open | crates/cordon-audit/src/log.rs:207-260 | on any directory a run can leave, opening resumes at the true head or begins a log |
| LogReaders.EveryRunVerifies | crates/cordon-audit/src/verify.rs:40-133 | every run leaves segments the verifier accepts, and while the log is open the verifier's count and tail hash are the writer's |
| LogContents.LogHoldsWhatItWasGiven | crates/cordon-audit/src/log.rs:207-354 | over every run the identifiers, timestamps and payloads in the log are exactly those of the accepted appends and boot entries, in order, less what crashes cut away |
| LogContents.ReadersReturnWhatWasGiven | crates/cordon-audit/src/log.rs:457-543 | the full read, the tail read and the verifier return exactly those events, however the directory lists its segments |
| LogContents.AppendRotatesIffFull | crates/cordon-audit/src/log.rs:344-351 | an append closes its segment if and only if it brings the bytes of its lines to the size limit |
| Bundle.CheckShards | crates/cordon-core/src/bundle.rs:375-416 | the report holds a shard if and only if it fails, each with what is wrong with it, and the whole digest if and only if all shards open and the digest differs; without a key only ciphertexts are looked at |
| Bundle.Verify | crates/cordon-core/src/bundle.rs:344-418 | verification refuses exactly the manifests whose structure is wrong and otherwise reports under the derived key |
| Bundle.Stage | crates/cordon-core/src/model_store.rs:706-796 | staging succeeds exactly when every shard opens in layer order and the whole digest matches, and writes their concatenation; a bad shard leaves the part written, a bad digest removes it |
| Bundle.CheckersAgree | crates/cordon-core/src/model_store.rs:735-791 | with layers in manifest order, the keyed verifier passes exactly the bundles staging accepts, and what is staged has the manifest's digest |
| Bundle.SameShardsOpen | crates/cordon-core/src/model_store.rs:731-776 | whatever layer order staging takes, it needs exactly the shards the verifier needs |
| Bundle.AnyLayerOrder | crates/cordon-core/src/model_store.rs:731-791 | for any layer order both checkers refuse a bundle with a shard that does not open; when all open they disagree exactly when one order has the manifest's digest and the other has not; when both accept, the bytes agree or a collision is exhibited |
| BundleMeaning.InnerPathStaysInside | crates/cordon-core/src/model_store.rs:289-309 | a shard path is accepted exactly when it is relative, does not begin at `.` and no step of it goes up; then no part of it is outside the bundle |
| BundleMeaning.BundleIdIsOneFile | crates/cordon-core/src/model_store.rs:126-139 | a safe bundle identifier is one path component below the staging directory |
| BundleMeaning.OpensIff | crates/cordon-core/src/bundle.rs:420-447 | a shard opens to these bytes if and only if its file has the ciphertext digest and decrypts under the shard key and a nonce of the right size to them, and they have the plaintext digest |
| BundleMeaning.ManifestFixesShards | crates/cordon-core/src/bundle.rs:420-447 | on any two disks and under any two keys a shard opens to the same bytes from the same file, or two inputs with one digest are in hand |
| BundleMeaning.SealedIsNotPlaintext | crates/cordon-core/src/model_store.rs:180-248 | a shard of an accepted manifest that opens differs from the file it was opened from |
| BundleMeaning.StagingIsByLayer | crates/cordon-core/src/model_store.rs:735-737 | staging takes every shard once, by layer, and those of one layer in manifest order |
| Sealing.ShardPathsDiffer | crates/cordon-core/src/bundle.rs:270-274 | two shards never share a file, whatever the weights are called and however many there are |
| Sealing.Reader.Read | crates/cordon-core/src/bundle.rs:236-243 | a read returns some of the next bytes, at most what was asked, and none only at the end |
| Sealing.Fill | crates/cordon-core/src/bundle.rs:228-249 | whatever sizes reads return, the buffer is filled with the next bytes completely unless the file ends |
| Sealing.NextShard | crates/cordon-core/src/bundle.rs:227-253 | one fill takes the next shard off the fixed-size cutting |
| Sealing.SealNext | crates/cordon-core/src/bundle.rs:227-292 | one turn of the loop seals exactly the next shard of the file's cutting, and a short one only at its end |
| Sealing.SealFile | crates/cordon-core/src/bundle.rs:220-292 | one file adds exactly its fixed-size shards, each encrypted, described and on disk under the file's own sanitised name |
| Sealing.Sanitize | crates/cordon-core/src/bundle.rs:527-544 | a shard is always filed under a non-empty name of safe characters |
| Sealing.SanitizeKeepsTheSafe | crates/cordon-core/src/bundle.rs:527-544 | a name keeps its first 64 characters but for those unsafe in a path, so a safe one stays as it is |
| Sealing.SealedIsStructuredIff | crates/cordon-core/src/bundle.rs:324-326 | what was sealed is accepted if and only if there was a byte to seal, the nonces drawn are distinct and not zero, and no shard has its plaintext's digest |
| Sealing.Seal | crates/cordon-core/src/bundle.rs:125-342 | sealing refuses bad requests, returns a bundle exactly when it would be accepted, and what it returns passes verification under the trimmed principal's key and stages to the concatenated files |
| Sealing.ChunksRejoin | crates/cordon-core/src/bundle.rs:227-253 | the cutting concatenates to the file and only its last shard may be short |
| Sealing.AllChunksRejoin | crates/cordon-core/src/bundle.rs:220-292 | the shards of all files concatenate to the files |
| Sealing.SealOneKeeps | crates/cordon-core/src/bundle.rs:255-288 | writing one more shard never disturbs the shards already on disk |
| Sealing.SealRoundTrip | crates/cordon-core/src/bundle.rs:220-342 | what was sealed passes keyed verification under the same key and stages to exactly the original bytes |
| Principals.OtherKeyOpensIff | crates/cordon-core/src/bundle.rs:352-443 | another bundle key opens every shard if and only if each decrypts under it to a text with the recorded digest |
| Principals.OtherKeyPassesIff | crates/cordon-core/src/bundle.rs:352-443 | with authenticated encryption another bundle key passes verification if and only if it derives the same key for every shard |
| Principals.SealThenVerify | crates/cordon-cli/src/provision.rs:135-151 | sealing and then verifying with the same master key and principal reports nothing when the principal is trimmed, and with authenticated encryption exactly when both forms of it derive the same shard keys |
| Principals.ReverifiesIffTrimmed | crates/cordon-core/src/bundle.rs:133-136 | what is sealed verifies under the same principal in every vault if and only if the principal has no blanks around it |
| RateLimiter.ClientBucket.constructor | crates/cordon-core/src/rate_limiter.rs:36-53 | a new bucket holds the limit per minute, not the burst |
| RateLimiter.ClientBucket.Refill | crates/cordon-core/src/rate_limiter.rs:56-77 | a refill earns for whole elapsed milliseconds up to the burst and resets a lapsed violation window |
| RateLimiter.ClientBucket.TryConsume | crates/cordon-core/src/rate_limiter.rs:80-103 | a request is refused or charged one request and its reservation, and every field of the bucket is determined |
| RateLimiter.ClientBucket.Settle | crates/cordon-core/src/rate_limiter.rs:107-114 | settling moves the bucket as the specification says, which `RateExact` proves to be a refund of exactly the difference up to the burst |
| RateLimiter.Limiter.Check | crates/cordon-core/src/rate_limiter.rs:153-201 | a check charges that client's bucket, created on first contact, and no other |
| RateLimiter.Limiter.Settle | crates/cordon-core/src/rate_limiter.rs:205-209 | a settlement reaches that client's bucket if it is still there and nothing else |
| RateLimiter.Limiter.Prune | crates/cordon-core/src/rate_limiter.rs:235-238 | pruning keeps exactly the buckets refilled after the cutoff, unchanged |
| RateBound.EarnedBelowRate | crates/cordon-core/src/rate_limiter.rs:56-68 | counting whole milliseconds earns at most the exact rate |
| RateBound.EarnedInParts | crates/cordon-core/src/rate_limiter.rs:56-68 | refilling in parts never earns more than refilling once |
| RateBound.RunConserves | crates/cordon-core/src/rate_limiter.rs:36-114 | over every run, level plus what was taken is at most where it started plus what the time earned |
| RateBound.RateIsBounded | crates/cordon-core/src/rate_limiter.rs:36-114 | from creation on, requests allowed and tokens reserved or spent are each at most the limit plus the rate times the elapsed time, and levels stay within the burst |
| RateBound.WindowIsBounded | crates/cordon-core/src/rate_limiter.rs:36-114 | in any window of any run both are at most twice the limit plus the rate times the window |
| RateExact.SettlementRefunds | crates/cordon-core/src/rate_limiter.rs:107-114 | a settlement gives back exactly what was reserved and not generated, or fills the bucket; it gives nothing back when as much or more was generated, and moves nothing else |
| RateExact.SettleAtOnce | crates/cordon-core/src/rate_limiter.rs:80-114 | a reservation settled at once costs exactly what was generated |
| RateExact.ReservingIsCharging | crates/cordon-core/src/rate_limiter.rs:80-114 | reserving more and settling leaves the bucket as charging what was generated would |
| RateExact.FirstRequest | crates/cordon-core/src/rate_limiter.rs:36-54 | a client met for the first time is allowed exactly a request within its limit for a minute, and is left with the rest of it |
| RateExact.BooksBalance | crates/cordon-core/src/rate_limiter.rs:36-114 | over every run level plus takings plus what overflowed a full bucket equals the start plus what was earned, exactly, for requests and for tokens |
| RateExact.EarnedTracksTime | crates/cordon-core/src/rate_limiter.rs:56-68 | over every run what was earned is what the elapsed time earns, short of at most a millisecond a request |
| RateExact.ExactUntilFull | crates/cordon-core/src/rate_limiter.rs:36-114 | level plus takings equals the start plus what was earned if and only if no step overfilled the bucket |
| RateExact.RefusedOnlyWhenShort | crates/cordon-core/src/rate_limiter.rs:80-103 | over every run a request is allowed if and only if the books leave a whole request and as many tokens as it may need; a refusal names the shortage and the whole tokens left |
| RateExact.ViolationsAreRefusals | crates/cordon-core/src/rate_limiter.rs:70-74 | over every run the violation count is the number of refusals since the window began, and a window begins with the first request a minute or more after the one before it began |
| Pruning.AcceptedByBoth | crates/cordon-core/src/rate_limiter.rs:80-103 | from simulating states, a request the pruning limiter accepts is accepted by the one that never prunes |
| Pruning.StepSimulates | crates/cordon-core/src/rate_limiter.rs:235-238 | every check, prune and late refund keeps the simulation when pruning waits a minute |
| Pruning.PruningRefinesIffItWaitsAMinute | crates/cordon-core/src/rate_limiter.rs:234-238 | pruning accepts nothing the never-pruning limiter would refuse, over every run, if and only if it waits at least sixty seconds |
| Pruning.EarlyPruningForgets | crates/cordon-core/src/rate_limiter.rs:235-238 | for any shorter wait there is a run in which pruning accepts a request too many |
| Pruning.PruningKeepsTheBound | crates/cordon-core/src/rate_limiter.rs:36-114 | the rate bound holds of the pruning limiter from first contact on, whatever was pruned |
| Pruning.PrunesExactlyTheIdle | crates/cordon-core/src/rate_limiter.rs:235-238 | over every run a bucket is there if and only if no prune has come the waiting time or more after its client's latest check |
| Pruning.ClientsAreIndependent | crates/cordon-core/src/rate_limiter.rs:153-164 | what the shared map does for one client is one step of that client's run, and no other client's operation touches it |
| AttackWindows.BoundedCounters.constructor | crates/cordon-core/src/attack_detector.rs:170-176 | a new map tracks nothing |
| AttackWindows.BoundedCounters.Record | crates/cordon-core/src/attack_detector.rs:182-197 | a record sweeps if a new key finds the map full, then counts the event or declines, within both bounds |
| AttackWindows.BoundedCounters.SweepIfDue | crates/cordon-core/src/attack_detector.rs:205-220 | a sweep runs at most once a second |
| AttackWindows.BoundedCounters.PruneLapsed | crates/cordon-core/src/attack_detector.rs:199-202 | a sweep prunes every counter and evicts the emptied ones |
| AttackWindows.PruneTwice | crates/cordon-core/src/attack_detector.rs:120-130 | pruning early and again later is pruning later |
| AttackWindows.SweepKeepsAlike | crates/cordon-core/src/attack_detector.rs:199-202 | after a sweep, evicted or not, a key's counter cannot be told from one no sweep touched |
| AttackWindows.RecordIsExactIff | crates/cordon-core/src/attack_detector.rs:104-134 | what a record returns, and that it is the events in the window exactly when the dropped count is the dropped events still in the window |
| AttackWindows.ExactBelowCapacity | crates/cordon-core/src/attack_detector.rs:104-134 | a key that never has more than the capacity in its window is counted exactly |
| AttackWindows.ExactSinceQuiet | crates/cordon-core/src/attack_detector.rs:104-134 | from any event that found its window empty a key below capacity since is counted exactly, whatever it dropped before |
| AttackWindows.SaturationForgets | crates/cordon-core/src/attack_detector.rs:76-91 | a filled counter sent any number of further events restarts at one while they are all still in the window |
| AttackWindows.ExactIffCapacityHolds | crates/cordon-core/src/attack_detector.rs:104-134 | counting is exact on every history of at most n events a window if and only if n does not exceed the capacity |
| AttackWindows.FiresIffCapacityHolds | crates/cordon-core/src/attack_detector.rs:76-91 | a threshold fires whenever the window holds that many events, on every history of at most n events a window, if and only if the threshold is at most one, n does not exceed the capacity, or n stays below the threshold |
| AttackWindows.RunIsFaithful | crates/cordon-core/src/attack_detector.rs:182-220 | over every run of records, sweeps and cleanups the map stays bounded and each key's counter stays indistinguishable from an unswept one |
| AttackWindows.CountingIsExact | crates/cordon-core/src/attack_detector.rs:178-197 | over every run a tracked record of a key that has not saturated since its window was last empty returns exactly its records in the window, whatever sweeps and cleanups ran |
| Tracking.PruningKeepsTheLive | crates/cordon-core/src/attack_detector.rs:120-130 | pruning keeps exactly the events inside the window |
| Tracking.FloodIsCounted | crates/cordon-core/src/attack_detector.rs:104-134 | however many events a full counter is sent inside its window, it counts them all up to the largest 32-bit number and stays there |
| Tracking.SweepKeepsTheLive | crates/cordon-core/src/attack_detector.rs:199-202 | a sweep keeps exactly the keys with an event inside their window |
| Tracking.SweepMakesRoomIff | crates/cordon-core/src/attack_detector.rs:199-202 | a sweep makes room if and only if some key has no event inside its window |
| Tracking.SweepTime | crates/cordon-core/src/attack_detector.rs:205-220 | over every run the sweep clock stands at the latest sweep: a cleanup, or a new key that found the map full a second or more after the one before |
| Tracking.DeclinedIff | crates/cordon-core/src/attack_detector.rs:182-220 | over every run an event goes uncounted if and only if its key is new, the map is full, and the last sweep was less than a second ago or every key tracked still has an event inside its window |
| Tracking.CleanupKeepsTheLive | crates/cordon-core/src/attack_detector.rs:199-202 | over every run a cleanup leaves exactly the keys with an event inside their window, each with just those events |
| Sessions.InferenceEngine.constructor | crates/cordon-core/src/inference.rs:515-529 | a new engine has every slot free and no session |
| Sessions.InferenceEngine.Admit | crates/cordon-core/src/inference.rs:536-559 | admission takes a slot and a session together or leaves both as they were |
| Sessions.InferenceEngine.Open | crates/cordon-core/src/inference.rs:339-404 | a session is resumed by its owner only, or opened within both ceilings |
| Sessions.InferenceEngine.DropLease | crates/cordon-core/src/inference.rs:505-511 | dropping a lease frees its slot and ends the session it was to end |
| Sessions.InferenceEngine.EndSession | crates/cordon-core/src/inference.rs:421-426 | ending removes that session and no other |
| Sessions.InferenceEngine.CleanupExpired | crates/cordon-core/src/inference.rs:429-443 | cleanup moves the table as the specification says and returns how many sessions went; which, `CleanupKeepsTheRecentlyUsed` says |
| Sessions.RunKeepsInv | crates/cordon-core/src/inference.rs:339-559 | over every interleaving, free slots and live leases add up and neither session ceiling is passed, failed admissions included |
| Sessions.OwnerIsFixed | crates/cordon-core/src/inference.rs:334-366 | a session's owner never changes while it lives |
| Sessions.OnlyItsOwnerTouchesASession | crates/cordon-core/src/inference.rs:334-351 | over every run, while a session lives and its owner does nothing, no one changes it, and every attempt of another client to resume it leaves the whole state as it was |
| Sessions.LeaseIsFixed | crates/cordon-core/src/inference.rs:489-511 | a lease keeps its session and its ending for as long as it is held |
| Sessions.UnnamedSessionDiesWithItsLease | crates/cordon-core/src/inference.rs:555-557 | with zero-on-end, an unnamed request's session is gone once its lease drops, whatever happened in between |
| Sessions.DropEndsForeignSessionIff | crates/cordon-core/src/inference.rs:505-511 | over every run, dropping an unnamed request's lease ends another client's session if and only if zero-on-end is set and, since the lease was taken, the identifier came free and another client took it |
| Sessions.DropEndsForeignSession | crates/cordon-core/src/inference.rs:505-511 | any two clients have a run of four operations that ends that way |
| SessionHistory.SessionLivesIff | crates/cordon-core/src/inference.rs:339-443 | over every run a session is there if and only if nothing has ended it since its latest accepted admission; it then belongs to that client and was last active then |
| SessionHistory.LatestUseOf | crates/cordon-core/src/inference.rs:339-366 | every session in the table has a latest accepted admission |
| SessionHistory.CleanupKeepsTheRecentlyUsed | crates/cordon-core/src/inference.rs:429-443 | over every run a cleanup keeps a session if and only if its latest accepted admission, the opening or a resume, came after the cutoff, and changes none it keeps |
| SessionHistory.TurnsAreUses | crates/cordon-core/src/inference.rs:342-348 | over every run a session dates from the admission that opened it and counts every accepted one since, up to 32 bits |
| SessionHistory.RefusedIff | crates/cordon-core/src/inference.rs:339-404 | over every run an admission is refused if and only if every slot is leased, the session named is another client's, or a new one would pass a ceiling; the refusal says which and changes nothing |
| SessionHistory.LeaseComesFrom | crates/cordon-core/src/inference.rs:536-559 | every lease held was given by an accepted admission for its session, and ends it exactly when the request named none and zero-on-end is set |
| ServingGate.ModelStore.constructor | crates/cordon-core/src/model_store.rs:391-448 | a new store takes in exactly the well-structured manifests its directory holds, without a verdict, and its verdicts live at least a minute |
| ServingGate.ScanIsARun | crates/cordon-core/src/model_store.rs:414-448 | a store that scanned its directory is one a run of registrations reaches, so what holds of every run holds of it |
| ServingGate.ScanTakesTheStructured | crates/cordon-core/src/model_store.rs:414-448 | a scan takes in exactly the identifiers it finds well structured |
| ServingGate.ScanTakesTheLast | crates/cordon-core/src/model_store.rs:414-448 | each is taken in under the last well-structured manifest found for it, without a verdict |
| ServingGate.CheckEveryShard | crates/cordon-core/src/model_store.rs:601-618 | the loop over the shards passes exactly when every one is there, readable and matches the manifest, fails at the first missing or different one, and gives up at an unreadable one |
| ServingGate.ModelStore.RegisterBundle | crates/cordon-core/src/model_store.rs:451-478 | registration replaces the entry by one without a verdict exactly when the manifest is well structured and its signatures verify |
| ServingGate.ModelStore.RecordVerdict | crates/cordon-core/src/model_store.rs:629-639 | a verdict is stamped on a registered bundle and a failure marks it |
| ServingGate.ModelStore.RunIntegrityCheck | crates/cordon-core/src/model_store.rs:568-627 | a check compares every shard on disk with the bundle's manifest and records what it finds, and nothing if a shard cannot be read |
| ServingGate.ModelStore.StagePlaintext | crates/cordon-core/src/model_store.rs:706-812 | staging returns the decrypted bytes exactly when every shard opens and the digest matches, records a pass and readiness then, and otherwise leaves the bundle marked as staging |
| ServingGate.ModelStore.RemoveBundle | crates/cordon-core/src/model_store.rs:815-824 | removal forgets that bundle and no other |
| ServingGate.AdmittedOnlyOnFreshPass | crates/cordon-core/src/model_store.rs:521-561 | over every run a registered bundle is admitted only if its latest verdict since registration is a pass younger than the lifetime; that pass is produced, and was on the present manifest (for the unregistered, `UnregisteredIsNotFound`) |
| ServingGate.AdmittedMatchedDisk | crates/cordon-core/src/model_store.rs:521-639 | over every run of operations on changing files, an admitted bundle had every shard of its present manifest matching the file on disk within the lifetime |
| ServingGate.FailureWithdraws | crates/cordon-core/src/model_store.rs:528-639 | after a failed check a bundle is admitted only once both a pass and a re-registration or staging attempt have followed |
| ServingGate.FailedStagingReadmitsIff | crates/cordon-core/src/model_store.rs:724-776 | over every run, a failed staging turns a refusal into an admission if and only if an earlier failed check still stands and the latest verdict is a fresh pass |
| ServingGate.FailedStagingReadmits | crates/cordon-core/src/model_store.rs:724-776 | every well-structured manifest whose shards match some files has a run of four operations that ends that way |
| ServingGate.HoldsTheRegistered | crates/cordon-core/src/model_store.rs:451-478 | over every run the store holds exactly the identifiers registered and not removed since |
| ServingGate.HoldsTheLatestManifest | crates/cordon-core/src/model_store.rs:451-478 | each is held under the manifest it was last registered with |
| ServingGate.UnregisteredIsNotFound | crates/cordon-core/src/model_store.rs:528-543 | over every run an identifier not registered is admitted if and only if serving the unregistered is allowed or nothing at all is registered; otherwise it is not found |
| ServingGate.RemovedIsRefused | crates/cordon-core/src/model_store.rs:815-824 | a bundle removed while another remains is refused |
| ServingGate.AdmittedIff | crates/cordon-core/src/model_store.rs:528-561 | over every run a registered bundle is admitted if and only if no failed check stands against it and its latest verdict is a pass still fresh; otherwise it is refused as a violation |
| ServingGate.CheckEndsAtTheFirst | crates/cordon-core/src/model_store.rs:601-618 | a check ends at the first shard that does not match: without an answer if its file cannot be read, with a failure if it is missing or differs |
| ServingGate.CheckDecides | crates/cordon-core/src/model_store.rs:568-639 | a check that fails withdraws the bundle at once, one that meets an unreadable file first changes nothing, and one that finds all in place admits it for the lifetime of a verdict unless an earlier failure stands |
| ServingGate.StagingDecides | crates/cordon-core/src/model_store.rs:706-812 | a staging that succeeds admits the bundle for the lifetime of a verdict whatever stood against it; one that fails keeps the verdict there was |
| ModelRef.ParsesWhatNames | crates/cordon-core/src/hub.rs:71-140 | a text parses to a reference if and only if, Unicode blanks around it and one host removed, it spells that well-formed reference: two path parts, an optional or explicit revision, an optional quantisation |
| ModelRef.SuffixesComeOff | crates/cordon-core/src/hub.rs:99-112 | a printed revision and quantisation split off exactly as they were put on |
| ModelRef.PrintThenParse | crates/cordon-core/src/hub.rs:159-170 | a well-formed reference reads back from its printed form if and only if its owner is not a hub host name |
| ModelRef.AddressThenParse | crates/cordon-core/src/hub.rs:79-93 | with the full address in front every well-formed reference reads back |

## Left out

- Regular-expression and PII rules: the regex engine is not part of this model.
- Byte offsets and summaries of matches, and compiling a policy: the model's matches keep the rule and its action.
- Lowercasing beyond ASCII: topics, digests and algorithm names are compared with ASCII letters folded; Unicode case mapping, which can depend on the next character, is not modelled.
- StreamLimits.BlockedTextIsNeverReleased: concerns policies that refuse or log and never rewrite, because after a rewrite the blocked text need not be the generated text.
- StreamLimits.CutAfterRedactionNeverSafe: two truncating tokens, the second holding neither the first nor the redacted one; for other lists the general condition of `RefinesIffSafe` applies and is not reduced further.
- FilterLag.Lag: is a sufficient bound, tight for one-token truncation; one-token redaction can need less by the prefix the token shares with the mark.
- LastEntry.LastEntryIsReadIffItFits: segments this node wrote; carriage returns, blank trailing lines and bytes that are not UTF-8 are not modelled.
- Torn lines, failed writes, flush and fsync, file locks, and reading a directory that changes: writes are atomic.
- LogReaders.ReadTailEntries: segments hold parseable entries; the readers' skipping of corrupt lines is not modelled.
- Sequence numbers past 64 bits: runs stay within them.
- Timestamps as times: an entry's timestamp is its RFC 3339 section 5.6 text, the part that is hashed.
- Strength of the cryptography, key handling and zeroization, vendor and client signatures over manifests.
- Sealing.Seal: takes the bundle identifier, blanks removed; the generated identifier, the model-name check, finding weight files, cancellation, progress events and the manifest's version, requirement and policy fields are left out.
- Sealing.Reader.Read: a read that fails is not modelled.
- Bundle.Verify: a shard that exists and cannot be read is not distinguished from a missing one.
- Floating-point rounding in the rate limiter: levels are exact reals.
- Changing a policy and removing a client in the rate limiter, and logging of violations.
- RateBound.RateIsBounded: for one bucket under one policy, which is what a limiter without policy changes keeps per client.
- Blocks, suspensions, alert callbacks, covert-channel scores and the replay table of the attack detector; the five counter maps share one model.
- AttackWindows.CountingIsExact: histories of fewer than 2^32 events, and thresholds at least 512 below that in `FiresIffCapacityHolds`; a counter is a value in its map rather than an object.
- Inference backends, timeouts and the scratch memory of a session; identifiers are numbers.
- ServingGate.ModelStore.StagePlaintext: whether the staging directory and file can be written is a parameter, as is whether signatures verify.
- Concurrent registration during a check, and the locks that serialise checks.
- HTTP, TLS, configuration, the command line, the desktop shell, metrics and the hub's network client.
