# Scry proxy: a verified model

Scry is a PostgreSQL pooling proxy. This project models the parts of it that keep state over unbounded runs and proves
what they are for. `dafny verify dfyconfig.toml` verifies all of it. Nothing here executes the proxy.

How the files fit together:

- `WireBytes`, `Utf8Text`, `TextOps`, `TextLaws`: bytes, big-endian fields, frames, NUL-terminated UTF-8 strings, ASCII
  text operations and what trimming and splitting keep of a text.
- `FrontendWire`, `Extractor`: client messages (section 55.7 of the PostgreSQL 16 documentation) decoded from a stream
  that arrives in arbitrary chunks.
- `BackendScan`, `Transaction`, `AdminResponse`: the backend-direction scanners, the transaction tracker, and the
  messages the proxy builds itself.
- `CommandDetector`, `Recency`, `ConnectionState`, `SessionCommands`, `CleanTexts`, `StatementCache`, `ModeEnforcer`,
  `EnforcedBatches`: which SQL leaves session state behind, the two bounded recency structures, the pin tracker and its
  laws on SQL text, the statement cache, the pooling-mode enforcer and what it sees of a batch.
- `ManagedSession` (one session as a state machine over client reads, backend reads and deadlines), `ManagedHandler`
  (the same as objects updated in place), `ManagedRuns` (what holds on every run), `PendingExecutions` (which executions are
  in flight and when the deadline is set), `ProxyReplies` (what the proxy answers itself), `ForwardedReads` (which messages reach
  the backend, and whether it reads the same ones), `ReleasedBackends` (what is left on a backend given back in
  mid-session) and `QueryReads` (runs in the client's own texts).
- `SharedBackends` (many sessions over one pool, every interleaving), `TimedOutBackends` (what becomes of a backend after
  a timeout) and `BackendReplies` (whose request each reply answers).
- `PoolManager`, `PoolOwnership`, `WaitQueue`, `EventBatcher`: the pool manager with its sticky map, who owns each
  connection, the wait queue, and the event batcher.
- `HotData`: the Count-Min Sketch, the top-k heap fed by it, and their joint decay.
- `StartupMessage`, `Scram`: startup messages, and the SCRAM-SHA-256 client of RFC 7677 against an honest server of
  section 3 of RFC 5802.

Stateful source code is a class whose methods are proved against a step function of the old state; the lemmas are about
that function, over every trace. The main results are `ManagedRuns.ReleaseSafe` with `ReleaseExactly`,
`ReleasedBackends.ReleaseLeaves`, `ManagedRuns.RunTransparent`, `PendingExecutions.PendingExactly` with `ArmedExactly`,
`CleanTexts.CleanExactly`, `ForwardedReads.TrackerSeesStream` with `InStepExactly`,
`SharedBackends.BackendsIsolated`, `TimedOutBackends.TimedOutFate`, `BackendReplies.WhomRepliesAnswer`,
`Extractor.ChunkingIrrelevant` with `ExtractEncoded`, `ConnectionState.PinnedExactly`, `Recency.CacheTrace` and
`TrackerTrace` with `CacheHoldsExactly` and `TrackerHoldsExactly`, `HotData.TopKTrace` and `SketchOneSided`, `PoolOwnership.OwnershipTrace` with `StickyRestored` and `AcquireHands`,
`EventBatcher.BatcherTrace`, `StartupMessage.BackendStartupRoundTrip` and `Scram.HandshakeCompletes` with `VerifyExactly`.

## Where the code differs from what is promised

The model follows the code. Each of these has a lemma with the input and one with the exact condition.

- Extraction is meant never to panic (`scry-proxy/tests/framing_fuzz.rs:211-220`). A Parse or Bind with a negative count,
  or a Bind parameter length below -1 far enough into the frame, panics: `FrontendWire.DecodePanicWitness`,
  `DecodePanicsExactly`, `Extractor.ScanPanicsExactly`. The stream laws are stated for streams without such frames, and
  `MalformedStream` says what the others do.
- A query classified as unknown is meant to pin a fresh connection (`scry-proxy/tests/pooling_safety_test.rs:131-146`).
  `X;DISCARD ALL` does not: `ConnectionState.UnknownMayNotPin`, `QueryPinsExactly`.
- A prepared statement is meant never to exist on a backend while the connection reports clean
  (`scry-proxy/src/proxy/connection_state.rs:76-79`, `scry-proxy/src/proxy/connection_state.rs:252-255`). Closing the
  statements that pushed another one out leaves that one live on an unpinned connection:
  `ConnectionState.EvictedStatementUnpins`. The tracker holds a name exactly if it was defined at some point and has been
  live ever since with fewer newer live names than the bound (`Recency.TrackerHoldsExactly`); a connection is pinned exactly
  if such a name exists or another resource is live (`ConnectionState.PinnedExactly`, `CleanButPreparedExactly`).
- Prepared statements and LISTEN are said never to be silently dropped by a release
  (`scry-proxy/src/proxy/connection.rs:380-382`). The messages of a suppressed read are applied up to the refused one, so
  `DISCARD ALL` and a refused `SET` in one read clear the tracker while the backend, never sent the `DISCARD ALL`, is given
  back listening: `QueryReads.UnsentDiscardReleases`. `ReleasedBackends.ReleaseLeaves` says exactly what is left.
- A message the client pipelined is meant never to be dropped (`scry-proxy/src/proxy/connection.rs:1263-1272`). A read is
  suppressed whole, so the messages around a refused one are lost; and when the refused message began in a read already forwarded the backend takes the next bytes for the rest of it:
  `QueryReads.SplitSetOutOfStep`, `ForwardedReads.InStepExactly`.
- Only prepared statements and LISTEN are said to pin in transaction mode (`scry-proxy/src/proxy/connection.rs:356-359`).
  A statement of unknown effect, a SET inside a transaction and a cursor without hold also do
  (`ModeEnforcer.AllowedUnknownPins`, `AllowedAcquires`). Besides, the enforcer looks at the whole text once while the
  tracker applies each statement: `SELECT 1;SET A = B` and `;SET A = B` pass outside a transaction and pin
  (`EnforcedBatches.BatchedSetPins`, `LeadingSemicolonPins`). Keywords are seen only before the first semicolon, the words
  of temporary tables and advisory locks in every statement: `SeenIsVerdict`, `PinsThroughExactly`, and for texts of one
  statement `OneStatementPins` and `StraySemicolonPins`.
- A full event queue is said to drop its oldest events (`scry-proxy/src/proxy/event_batcher.rs:19-21`). It drops the one
  that arrives: `EventBatcher.OldestKept`, `FullDropsNewest`.
- A backend is said to perform its startup exactly once (`scry-proxy/src/proxy/connection.rs:1082-1084`). A startup that
  fails after its StartupMessage returns the backend to the pool unrecorded, and the next client sends another:
  `SharedBackends.StartupTwice`, `StartupOnce`.
- The error search stops at a frame without payload, so it misses an ErrorResponse behind a ParseComplete:
  `BackendScan.HiddenErrorWitness`, `FindErrorExactly`, `FirstErrorExactly`.
- The three backend scanners overflow on reads that start inside a frame. The ReadyForQuery scan does on a negative
  length (`BackendScan.OverflowWitness`, `OverflowExactly`), the completion scan on a negative length before any completion
  (`CompletionOverflowWitness`, `CompletionOverflowExactly`), and the error search on an ErrorResponse header of length 0
  to 3 (`SearchOverflowWitness`, `SearchExactly`).
- Classification panics when the text of an advisory-lock call has its first `)` before its first `(`:
  `SessionCommands.CrossedParensPanic`, `CommandDetector.ClassifyPanicsExactly`.
- The name of a temporary table or cursor is taken up to the next blank, so `CREATE TEMP TABLE t(id int)` and then
  `DROP TABLE t` leave the connection pinned: `SessionCommands.ColumnListKeepsPin`, `TableEndedExactly`,
  `CursorEndedExactly`.
- A timed-out backend is said never to be reused (`scry-proxy/src/proxy/connection.rs:1541-1543`). It goes back to the pool
  and to the client whose connect or reacquire is the first step to end its wait, unless the pool destroys it first:
  `TimedOutBackends.TimedOutReused`, `TimedOutReturned`, `TimedOutFate`, `ReusedExactly`.
- The recycle is said to catch a backend out of step with its replies (`scry-proxy/src/proxy/connection.rs:1307-1309`). Its
  two reads take any ReadyForQuery for their own, so the next session can be given replies owed to the pool or to an
  earlier one: `BackendReplies.StaleReplyDelivered`, `CleanExactly`, `StaleExactly`.
- A waiter that gives up before it is woken keeps its place in the queue, uses up a notification and can keep others out:
  `WaitQueue.GaveUpKeepsOut`, `NotifyReachesExactly`, `TurnedAwayExactly`.
- The SCRAM client does not escape the user name, so a name with a comma never gets through:
  `Scram.ClientFirstIsRead`, `HandshakeCompletes`.

## Model

| member | source | states |
|---|---|---|
| `FrontendWire.ReadCString` | scry-proxy/src/protocol/extractor.rs:565-575 | the loop finds the first NUL and yields the UTF-8 text before it, as the specification parser does |
| `Utf8Text.Utf8Exactly` | scry-proxy/src/protocol/extractor.rs:565-575 | the test for UTF-8 accepts exactly the encodings of Unicode scalar values of section 3 of RFC 3629 |
| `FrontendWire.ParseParseMessage` | scry-proxy/src/protocol/extractor.rs:448-483 | the offset loop computes the specification of a Parse payload, truncated OID lists and panics included |
| `FrontendWire.ParseBindMessage` | scry-proxy/src/protocol/extractor.rs:485-549 | the offset loops compute the specification of a Bind payload |
| `FrontendWire.ReadParams` | scry-proxy/src/protocol/extractor.rs:522-546 | the parameter loop, with NULLs, truncation and the wrapping length check, against its recursive specification |
| `FrontendWire.DecodeFrame` | scry-proxy/src/protocol/extractor.rs:410-425 | dispatch on the frame type computes the specification decoder |
| `FrontendWire.DecodeExact` | scry-proxy/src/protocol/extractor.rs:443-575 | a frame shows message m if and only if its type is m's, m is within the format's limits and the payload begins with the encoding of the fields kept from m |
| `FrontendWire.DecodePanicsExactly` | scry-proxy/src/protocol/extractor.rs:448-549 | decoding panics if and only if the payload has a negative count or a wrapping parameter length in the right place |
| `FrontendWire.DecodePanicWitness` | scry-proxy/tests/framing_fuzz.rs:211-220 | a concrete frame that panics the decoder |
| `Extractor.ScanFrames` | scry-proxy/src/protocol/extractor.rs:378-428 | the loop over the buffer computes the one-shot scan: messages, bytes left, and whether it met a framing error or a panic |
| `Extractor.MessageExtractor.ExtractMessages` | scry-proxy/src/protocol/extractor.rs:366-441 | one call extends, scans and drains or clears the buffer as the streaming specification says; a poisoned lock yields nothing |
| `Extractor.ScanAppend` | scry-proxy/src/protocol/extractor.rs:378-428 | scanning a ++ b is scanning a and then its rest ++ b |
| `Extractor.ChunkingInvariant` | scry-proxy/src/protocol/extractor.rs:366-441 | from any partly filled buffer, every chunking of a stream without a framing error yields the one-shot messages and rest |
| `Extractor.ChunkingIrrelevant` | scry-proxy/tests/framing_fuzz.rs:166-209 | fragmented extraction equals extraction of the whole stream, in messages and residual buffer |
| `Extractor.MalformedStream` | scry-proxy/src/protocol/extractor.rs:393-402 | on a stream with a malformed or panicking frame the calls agree with the one-shot scan up to the chunk that completes it |
| `Extractor.PoisonedReturnsNothing` | scry-proxy/src/protocol/extractor.rs:366-375 | after a panicking call every further call returns no messages |
| `Extractor.BufferBounded` | scry-proxy/src/protocol/extractor.rs:25-25 | after any chunks, malformed or not, the retained buffer is at most 64 MiB, and at most one chunk more once a call has panicked |
| `Extractor.ScanOfEncoded` | scry-proxy/src/protocol/extractor.rs:378-428 | scanning any sequence of encoded messages, unrecognised frames and trailing payload bytes yields exactly the messages |
| `Extractor.ExtractEncoded` | scry-proxy/tests/framing_fuzz.rs:22-96 | encoding any list of messages, chunking the bytes anyhow and extracting returns that list and an empty buffer |
| `Extractor.ScanPanicsExactly` | scry-proxy/src/protocol/extractor.rs:378-428 | a scan panics if and only if the bytes are good frames followed by a panicking one |
| `BackendScan.ExtractReadyForQuery` | scry-proxy/src/protocol/extractor.rs:587-631 | the offset loop computes the last ReadyForQuery status, or overflows |
| `BackendScan.IsQueryComplete` | scry-proxy/src/protocol/extractor.rs:75-113 | the offset loop computes whether a completing header occurs at a frame boundary |
| `BackendScan.ParseErrorFields` | scry-proxy/src/protocol/extractor.rs:189-226 | the field loop computes the recursive field parser |
| `BackendScan.FindErrorFields` | scry-proxy/src/protocol/extractor.rs:146-187 | the frame loop computes the recursive error search |
| `BackendScan.ScanFindsLastReady` | scry-proxy/src/protocol/extractor.rs:587-631 | on complete frames and an incomplete tail the scan returns the status of the last ReadyForQuery frame |
| `BackendScan.OverflowExactly` | scry-proxy/src/protocol/extractor.rs:587-631 | the scan overflows if and only if complete frames are followed by a header whose negative length the offset has reached |
| `BackendScan.CompletionOverflowExactly` | scry-proxy/src/protocol/extractor.rs:75-113 | the completion scan overflows if and only if the same happens before any completing header |
| `BackendScan.CompletionOverflowWitness` | scry-proxy/src/protocol/extractor.rs:75-113 | reads that overflow both scans, or the ReadyForQuery scan alone |
| `BackendScan.SearchExactly` | scry-proxy/src/protocol/extractor.rs:146-187 | on every read the error search overflows if and only if it comes to an ErrorResponse header of length 0 to 3, and finds fields if and only if it comes to a whole ErrorResponse, past frames with payload and headers of cut-off errors |
| `BackendScan.SearchOverflowWitness` | scry-proxy/src/protocol/extractor.rs:161-161 | a concrete read that underflows the error search |
| `BackendScan.HiddenErrorWitness` | scry-proxy/src/protocol/extractor.rs:146-187 | any ErrorResponse behind a ParseComplete is missed |
| `BackendScan.OverflowWitness` | scry-proxy/src/protocol/extractor.rs:587-631 | a concrete read that overflows the scan |
| `BackendScan.CompletionExactly` | scry-proxy/src/protocol/extractor.rs:75-113 | a read completes a query if and only if a frame, or the header of the cut-off one, is CommandComplete or ReadyForQuery |
| `BackendScan.CompletionFound` | scry-proxy/src/protocol/extractor.rs:75-113 | on every read, aligned or not: the completion scan says yes if and only if whole frames lead to the header of a CommandComplete or a ReadyForQuery |
| `BackendScan.FindErrorExactly` | scry-proxy/src/protocol/extractor.rs:146-187 | the search returns the fields of the first ErrorResponse not behind a frame without payload; if there is none and the cut-off tail is an ErrorResponse, it goes on behind that header |
| `BackendScan.FirstErrorExactly` | scry-proxy/src/protocol/extractor.rs:146-187 | the first ErrorResponse is found if and only if no earlier frame is without payload |
| `BackendScan.ParseFieldsOf` | scry-proxy/src/protocol/extractor.rs:189-226 | parsing encoded fields yields the last value of each kind |
| `BackendScan.FieldsExactly` | scry-proxy/src/protocol/extractor.rs:189-226 | severity, code and message are each the last value of their kind that is UTF-8 |
| `BackendScan.ScrubbedHidesOtherFields` | scry-proxy/src/protocol/extractor.rs:115-144 | two ErrorResponses that differ only outside severity and code have the same scrubbed form |
| `Transaction.TransactionTracker.UpdateFromReadyForQuery` | scry-proxy/src/proxy/transaction.rs:24-31 | the state follows the status byte; an unknown byte keeps it |
| `Transaction.UpdateExactly` | scry-proxy/src/proxy/transaction.rs:24-31 | I, T and E name the states, both ways, and any other byte leaves the state |
| `Transaction.LastKnownStatus` | scry-proxy/src/proxy/transaction.rs:24-31 | after any statuses the state is that of the last known one |
| `Transaction.ReadyRestores` | scry-proxy/src/proxy/connection.rs:1589-1597 | building a ReadyForQuery, scanning it behind any frames and updating any tracker restores the state |
| `AdminResponse.ErrorRoundTrip` | scry-proxy/src/protocol/auth_messages.rs:307-335 | a built error followed by anything reads back as severity and message, scrubbed as severity and code |
| `AdminResponse.BuildRowDescription` | scry-proxy/src/admin/response.rs:60-96 | the column loop builds the RowDescription frame |
| `AdminResponse.BuildDataRow` | scry-proxy/src/admin/response.rs:98-120 | the value loop builds the DataRow frame |
| `AdminResponse.ToWire` | scry-proxy/src/admin/response.rs:18-53 | the response is its frames in order and an idle ReadyForQuery |
| `AdminResponse.AdminScansIdle` | scry-proxy/src/admin/response.rs:18-172 | every admin response scans to status I and as complete |
| `AdminResponse.AdminErrorFound` | scry-proxy/src/admin/response.rs:144-172 | a failed admin response scans as the error it carries |
| `AdminResponse.DataRowRoundTrip` | scry-proxy/src/admin/response.rs:98-120 | a reader of the format gets the values of a row back |
| `AdminResponse.RowDescriptionRoundTrip` | scry-proxy/src/admin/response.rs:60-96 | a reader of the format gets the column names back in order, each as a text column of no table |
| `AdminResponse.RowSetReadBack` | scry-proxy/src/admin/response.rs:18-38 | a row set is its column description, one row for each of its rows in order, and a tag with their number |
| `CommandDetector.SplitDistributes` | scry-proxy/src/protocol/command_detector.rs:392-394 | the statements of a;b are those of a followed by those of b |
| `CommandDetector.DegenerateIsUnknown` | scry-proxy/src/protocol/command_detector.rs:93-138 | text of blanks and semicolons only is never clean and never detected |
| `CommandDetector.ClassifyPanicsExactly` | scry-proxy/src/protocol/command_detector.rs:359-368 | classification panics if and only if a lock call with misplaced parentheses meets no earlier rule |
| `CleanTexts.CleanExactly` | scry-proxy/src/protocol/command_detector.rs:107-137 | for every text: clean if and only if no detection rule claims it, one of the seventeen clean words leads it behind blanks, in any case and ended by the text, a blank, a parenthesis or a semicolon, and set_config occurs nowhere in it; unknown if and only if no rule claims it and one of these fails |
| `CleanTexts.SetConfigNeverClean` | scry-proxy/src/protocol/command_detector.rs:110-115 | a text with set_config anywhere, in any case, is never clean, and as one statement no rule claims it pins from any state |
| `CleanTexts.SetConfigPins` | scry-proxy/src/protocol/command_detector.rs:110-115 | from any state a batch pins if one of its statements says set_config, no rule claims that statement and no DISCARD ALL follows it |
| `Recency.CacheTrace` | scry-proxy/src/proxy/cache.rs:57-92 | over every trace of inserts, lookups, removals and clears: no duplicates, the order lists exactly the keys, size within max(1, bound), a suffix of the unbounded order, and every value the unbounded one |
| `Recency.CacheHoldsExactly` | scry-proxy/src/proxy/cache.rs:57-92 | over every trace and every bound, the cache holds a name if and only if it was inserted at some point and since then not removed or cleared and at every insert of another name among the newest that insert leaves: the bound, or one less when the inserted name was there already |
| `Recency.TrackerTrace` | scry-proxy/src/proxy/connection_state.rs:256-285 | the same for the pin tracker, and a name just added is tracked |
| `Recency.TrackerExactWithinBound` | scry-proxy/src/proxy/connection_state.rs:256-275 | the tracker equals the unbounded one while its live names never exceed the bound |
| `Recency.TrackerHoldsExactly` | scry-proxy/src/proxy/connection_state.rs:256-285 | over every trace and every bound, a name is tracked if and only if it was defined at some point and at every later point was live with fewer live names defined after it than the bound |
| `Recency.ReferenceByDefinition` | scry-proxy/src/proxy/connection_state.rs:256-275 | the unbounded reference lists the live names in the order of their last definitions |
| `Recency.CacheReinsertEvicts` | scry-proxy/src/proxy/cache.rs:57-74 | re-inserting a known name loses another entry if and only if the cache is full and holds another |
| `Recency.MissBreaksPlainRecency` | scry-proxy/src/proxy/cache.rs:77-86 | a reference that also moved names on a miss would not be followed: a lookup of an evicted name |
| `ConnectionState.ConnectionState.IsPinned` | scry-proxy/src/proxy/connection_state.rs:107-116 | pinned as the abstract state says |
| `ConnectionState.ConnectionState.AddPreparedStatement` | scry-proxy/src/proxy/connection_state.rs:256-275 | the eviction loop computes the tracker's add |
| `ConnectionState.ConnectionState.RemovePreparedStatement` | scry-proxy/src/proxy/connection_state.rs:277-280 | the name leaves map and order |
| `ConnectionState.ConnectionState.ClearAll` | scry-proxy/src/proxy/connection_state.rs:357-369 | everything but the bound is forgotten |
| `ConnectionState.ConnectionState.ApplySingleStatement` | scry-proxy/src/proxy/connection_state.rs:177-217 | one statement acts as its classification, or panics |
| `ConnectionState.ConnectionState.ApplyQuery` | scry-proxy/src/proxy/connection_state.rs:149-172 | the statement loop applies the whole batch in order, or stops at a panic |
| `ConnectionState.ConnectionState.ApplyParseState` | scry-proxy/src/proxy/connection.rs:431-439 | a Parse applies its text and then records its name |
| `ConnectionState.HoldsExactlyLive` | scry-proxy/src/proxy/connection_state.rs:177-217 | over every history the tracker holds a variable, table, cursor, lock, channel or unknown mark if and only if it was created and not done away with since |
| `ConnectionState.ValuesLatest` | scry-proxy/src/proxy/connection_state.rs:177-217 | over every history a variable has the value of its last SET not undone since |
| `ConnectionState.PreparedIsLive` | scry-proxy/src/proxy/connection_state.rs:256-285 | every tracked prepared statement is live |
| `ConnectionState.PreparedExactlyLive` | scry-proxy/src/proxy/connection_state.rs:256-285 | within the bound the tracked prepared statements are exactly the live ones |
| `ConnectionState.HoldsExactlyRetained` | scry-proxy/src/proxy/connection_state.rs:256-285 | over every history the tracker holds a prepared statement if and only if it is retained in that sense |
| `ConnectionState.WithinBoundRetains` | scry-proxy/src/proxy/connection_state.rs:256-285 | while the live statements fit the bound, retained and live are the same |
| `ConnectionState.PinnedExactly` | scry-proxy/src/proxy/connection_state.rs:107-116 | over every history and every bound: pinned if and only if a resource other than a prepared statement is live or a prepared statement is retained; a pin stands for a live resource, and within the bound the two agree |
| `ConnectionState.CleanButPreparedExactly` | scry-proxy/src/proxy/connection_state.rs:76-79 | over every history: a prepared statement is live on an unpinned connection if and only if one is live, none is retained and nothing else is live |
| `ConnectionState.EvictedStatementUnpins` | scry-proxy/src/proxy/connection_state.rs:262-279 | beyond the bound, a history that leaves a live statement on an unpinned connection |
| `ConnectionState.BatchLaw` | scry-proxy/src/proxy/connection_state.rs:149-172 | applying a;b is applying a and then b, panics included, when each half holds a statement |
| `ConnectionState.DegeneratePins` | scry-proxy/src/proxy/connection_state.rs:149-172 | blanks and semicolons leave the connection pinned from any state |
| `ConnectionState.QueryPinsExactly` | scry-proxy/tests/pooling_safety_test.rs:131-146 | a query pins a fresh connection if and only if something its statements created is live at its end |
| `ConnectionState.UnknownMayNotPin` | scry-proxy/tests/pooling_safety_test.rs:131-146 | a query classified unknown that leaves a fresh connection unpinned |
| `ModeEnforcer.AllowedAcquires` | scry-proxy/src/proxy/mode_enforcer.rs:43-73 | a text taken as one statement is let through and creates something other than a channel if and only if it is of unknown effect, a SET in a transaction or a cursor without hold |
| `ModeEnforcer.AllowedUnknownPins` | scry-proxy/src/proxy/connection.rs:356-359 | a statement of unknown effect is let through in transaction mode and pins |
| `ModeEnforcer.RefusedExactly` | scry-proxy/src/proxy/mode_enforcer.rs:43-73 | refused if and only if in transaction mode and the statement would create a session variable outside a transaction, a temporary table, a held cursor or an advisory lock |
| `EnforcedBatches.SeenIsVerdict` | scry-proxy/src/proxy/connection.rs:1214-1224 | for every text the verdict in transaction mode is decided by keywords at the opening before the first semicolon and by words in any of the statements the tracker applies, in the order of the rules |
| `EnforcedBatches.PinsThroughExactly` | scry-proxy/src/proxy/connection.rs:356-359 | a text is let through and pins by something other than a channel if and only if no rule claims it so and a statement leaves such a thing behind |
| `EnforcedBatches.OneStatementPins` | scry-proxy/src/proxy/connection.rs:356-359 | without semicolons: if and only if the statement is of unknown effect, a SET in a transaction or a cursor without hold |
| `EnforcedBatches.StraySemicolonPins` | scry-proxy/src/proxy/connection.rs:356-359 | the same for one statement among semicolons: as before when it leads the text, and behind a leading semicolon also a SET outside a transaction and a held cursor |
| `EnforcedBatches.BatchedSetPins` | scry-proxy/src/proxy/connection.rs:1214-1235 | a batch with a SET, let through outside a transaction, that pins by the variable alone |
| `EnforcedBatches.LeadingSemicolonPins` | scry-proxy/src/proxy/connection.rs:1214-1235 | a single SET behind a semicolon, let through outside a transaction, that pins |
| `SessionCommands.MakeDetected` | scry-proxy/src/protocol/command_detector.rs:140-368 | keyword in any case, TEMP or TEMPORARY, any name quoted or not, any signed key and any tail the rules read as one: the creating text is detected as creating that resource |
| `SessionCommands.UndoDetected` | scry-proxy/src/protocol/command_detector.rs:140-368 | likewise the ending text, with IF EXISTS or without, as ending it |
| `SessionCommands.MadeThenUndone` | scry-proxy/src/proxy/connection_state.rs:149-217 | from any state the creating text pins the connection by that resource, and the ending text, however it spells the same resource, leaves the whole tracked state as it was, without the resource |
| `SessionCommands.QuotesDoNotMatter` | scry-proxy/src/protocol/command_detector.rs:324-341 | a channel listened to in quotes is ended without them |
| `SessionCommands.EndingDetected` | scry-proxy/src/protocol/command_detector.rs:140-341 | RESET ALL, UNLISTEN, UNLISTEN *, DEALLOCATE with or without PREPARE of a name or of ALL, and DISCARD ALL, in any case, are detected as such |
| `SessionCommands.EndingEnds` | scry-proxy/src/proxy/connection_state.rs:177-217 | from any state the tracker then holds exactly what it held and the text does not end |
| `SessionCommands.NotifyLeaves` | scry-proxy/src/protocol/command_detector.rs:343-357 | a NOTIFY leaves the whole tracked state as it was |
| `SessionCommands.RecordsValue` | scry-proxy/src/protocol/command_detector.rs:216-234 | a SET with any blanks around its sign records the folded name and the value without the quotes around it |
| `SessionCommands.TableEndedExactly` | scry-proxy/src/protocol/command_detector.rs:247-276 | for any tail, dropping the name frees the table created with it if and only if the name is followed by a blank or nothing |
| `SessionCommands.CursorEndedExactly` | scry-proxy/src/protocol/command_detector.rs:278-303 | the same for a cursor and CLOSE |
| `SessionCommands.ColumnListKeepsPin` | scry-proxy/src/protocol/command_detector.rs:247-259 | a table created with a column list is not freed by dropping its name |
| `SessionCommands.CrossedParensPanic` | scry-proxy/src/protocol/command_detector.rs:359-368 | a text that panics the classifier |
| `StatementCache.PreparedStatementCache.InsertStatement` | scry-proxy/src/proxy/cache.rs:57-74 | the eviction loop computes the cache's insert; the pending executions stay |
| `StatementCache.PreparedStatementCache.GetStatement` | scry-proxy/src/proxy/cache.rs:77-86 | a hit returns the value and becomes the most recent, a miss changes nothing |
| `StatementCache.PreparedStatementCache.RemoveStatement` | scry-proxy/src/proxy/cache.rs:89-92 | the name leaves map and order |
| `StatementCache.PreparedStatementCache.TakePending` | scry-proxy/src/proxy/cache.rs:100-102 | the pending execution is returned once |
| `ManagedHandler.ManagedHandler.HandleMessage` | scry-proxy/src/proxy/connection.rs:1139-1294 | one message is refused, hung up on, crashes, or updates cache and tracker, as the session's step says |
| `ManagedHandler.ManagedHandler.HandleMessages` | scry-proxy/src/proxy/connection.rs:1138-1295 | the loop over a read's messages stops where the specification stops |
| `ManagedHandler.ManagedHandler.OnClientBytes` | scry-proxy/src/proxy/connection.rs:1123-1324 | the client arm of the loop performs the session step: extract, process, forward or reply, end or arm |
| `ManagedHandler.ManagedHandler.Settle` | scry-proxy/src/proxy/connection.rs:1336-1425 | an error or a completion takes the pending execution, and the deadline is disarmed when none is left |
| `ManagedHandler.ManagedHandler.TrackReady` | scry-proxy/src/proxy/connection.rs:1428-1445 | the tracked state follows the read, and release is decided from the state before and after |
| `ManagedHandler.ManagedHandler.OnBackendBytes` | scry-proxy/src/proxy/connection.rs:1327-1539 | the backend arm performs the session step: settle, track, deliver, release and reacquire |
| `ManagedHandler.ManagedHandler.ShouldReleaseConnection` | scry-proxy/src/proxy/connection.rs:374-383 | release is wanted as the strategy and the pins of the abstract state say |
| `ManagedHandler.ManagedHandler.Reacquire` | scry-proxy/src/proxy/connection.rs:1457-1504 | release, reacquire, and initialise a backend that has no recorded startup |
| `ManagedHandler.ManagedHandler.OnDeadlineExpired` | scry-proxy/src/proxy/connection.rs:1544-1572 | mark unknown, reply with the cancellation, end |
| `ManagedHandler.ManagedHandler.Serve` | scry-proxy/src/proxy/connection.rs:1117-1577 | the loop over any sequence of events performs the session's run |
| `ManagedRuns.FlowMeaning` | scry-proxy/src/proxy/connection.rs:1138-1295 | a read is hung up on if and only if its first message is a Terminate, refused only for a message the enforcer refuses, and proceeds only if none is |
| `ManagedRuns.RunGood` | scry-proxy/src/proxy/connection.rs:1117-1577 | on every run the session's extractor, transaction state and tracker are what its input and output alone determine |
| `ManagedRuns.ToldMeans` | scry-proxy/src/proxy/connection.rs:1139-1246 | from any state: a Parse applies its text and leaves its name prepared and the connection pinned, a Query applies its text, a Close of a statement takes just its name away, and no other message changes the tracker |
| `ManagedRuns.RunTransparent` | scry-proxy/src/proxy/connection.rs:1117-1573 | at every point of every run the backends have the client's reads in order with only whole suppressed reads left out, and the client every backend read once and in order, also across a change of backend; after a failed write a prefix of that |
| `ManagedRuns.RunTidy` | scry-proxy/src/proxy/connection.rs:1117-1573 | in every log a backend read is delivered at once, a reply is a refusal of a message the client sent or a cancellation, a release is followed by a reacquire, and a new backend by its initialisation, before anything else |
| `ManagedRuns.ReleaseSafe` | scry-proxy/src/proxy/connection.rs:1428-1457 | a backend is given back in mid-session only under transaction or hybrid pooling, on a delivered read that takes the status from T or E to I, with every unknown statement applied followed by a DISCARD ALL, and the messages applied leaving no other resource live and no prepared statement retained |
| `ManagedRuns.ReleaseExactly` | scry-proxy/src/proxy/connection.rs:1441-1457 | a delivered read releases if and only if strategy and transaction states allow it and the messages applied leave nothing live or retained |
| `ManagedRuns.ReacquireExactly` | scry-proxy/src/proxy/connection.rs:1457-1504 | after a release the session goes on if and only if it gets a warm backend or a new one whose startup succeeds, and only a new one is started up |
| `ManagedRuns.DeadlineCovers` | scry-proxy/src/proxy/connection.rs:1315-1425 | on every run an execution pending on the unnamed portal has its deadline armed when timeouts are on |
| `PendingExecutions.PendingExactly` | scry-proxy/src/proxy/connection.rs:1139-1425 | on every run, for every portal, from the log alone: an execution is pending if and only if a Parse, Query or Bind set one off on it and since then the portal was not closed nor, on the unnamed one, a completing read delivered; what is pending is the execution the last such message set off, a Bind taking its text from the cache the messages before it leave |
| `PendingExecutions.FramesFinish` | scry-proxy/src/proxy/connection.rs:1336-1366 | a read with a CommandComplete or ReadyForQuery frame among whole frames completes the execution |
| `PendingExecutions.ArmedExactly` | scry-proxy/src/proxy/connection.rs:1315-1425 | on every run the deadline is set if and only if timeouts are on, an execution was in flight on the unnamed portal at the end of some client read, and one was after every read delivered since |
| `PendingExecutions.DeadlineExactly` | scry-proxy/src/proxy/connection.rs:1541-1572 | on every run a passing deadline does something, and ends the session, if and only if it is set |
| `PendingExecutions.FinishedDisarms` | scry-proxy/src/proxy/connection.rs:1338-1425 | once a completing read has been delivered and until the next message that sets off an execution, nothing is pending on the unnamed portal, the deadline is off and its passing changes nothing |
| `ProxyReplies.JudgedExactly` | scry-proxy/src/proxy/connection.rs:1139-1235 | a message is refused if and only if pooling is by transaction and the text of a Parse or a Query would create a session variable outside a transaction, a temporary table, a held cursor or an advisory lock |
| `ProxyReplies.RefusalNames` | scry-proxy/src/proxy/mode_enforcer.rs:43-73 | the refusal names the kind of resource the statement would create |
| `ProxyReplies.RejectionReads` | scry-proxy/src/proxy/connection.rs:1142-1150 | a refusal reads as ERROR 0A000 with its message, followed by the status of the transaction |
| `ProxyReplies.RefusedAnswered` | scry-proxy/src/proxy/connection.rs:1214-1224 | on every run a read with a refused message is answered with the refusal of the first one and the transaction state of the log, the session goes on and nothing of the read is written to the backend |
| `ProxyReplies.CancellationReads` | scry-proxy/src/proxy/connection.rs:1561-1568 | a cancelled query reads as ERROR 57014, followed by the status of the transaction |
| `ProxyReplies.DeadlineAnswers` | scry-proxy/src/proxy/connection.rs:1544-1577 | on every run a deadline that is set marks the connection, sends the cancellation and the transaction state of the log, and hands the backend back |
| `ProxyReplies.EndsExactly` | scry-proxy/src/proxy/connection.rs:1117-1577 | on every run an event ends the session with its backend handed back if and only if it takes leave (client or backend gone, a read that begins with a Terminate, a deadline that is set), and any other end drops the backend |
| `ManagedRuns.BindResolves` | scry-proxy/src/proxy/connection.rs:1180-1213 | on every run a Bind that finds its statement takes the text of the latest Parse of that name not closed since |
| `ForwardedReads.AppliedExactly` | scry-proxy/src/proxy/connection.rs:1138-1300 | on every run: of a forwarded read every message is applied, of a suppressed one those before the first refused; the tracker is what the messages since the last release make of a fresh one, and the present backend has the bytes of the reads not suppressed since then |
| `ForwardedReads.TrackerSeesStream` | scry-proxy/src/proxy/connection.rs:1138-1300 | on every running session the messages applied are those the reads make due, suppressed reads included; while none was suppressed they are those of one parse of all the client's bytes, and those bytes are what the backends got |
| `ForwardedReads.InStepExactly` | scry-proxy/src/proxy/connection.rs:1297-1300 | on every log: parsing the bytes meant for each backend gives throughout the messages of the reads forwarded to it and leaves what the extractor holds, if and only if every suppressed read leaves the extractor's buffer as it found it, no forwarded read has a malformed frame and no release falls inside a message |
| `ForwardedReads.BackendInStep` | scry-proxy/src/proxy/connection.rs:1297-1300 | on every run without such an entry, the same of the bytes actually written to the present backend |
| `ReleasedBackends.LeftExactly` | scry-proxy/src/proxy/connection.rs:1138-1300 | a resource is live by the messages sent if and only if a message sent created it and none sent ended it since, the tracker having been told of its end by an unsent message or not at all |
| `ReleasedBackends.ReleaseLeaves` | scry-proxy/src/proxy/connection.rs:1441-1457 | on every run, at every release, since the backend was taken: the messages applied leave nothing; a resource is left on the backend if and only if a message of a suppressed read alone ended it, or it is a prepared statement pushed out by newer ones; in hybrid mode every message applied was sent |
| `QueryReads.UnsentDiscardReleases` | scry-proxy/src/proxy/connection.rs:380-382 | a run in transaction mode that gives back a backend still listening, after a DISCARD ALL it was never sent |
| `QueryReads.SplitSetOutOfStep` | scry-proxy/src/proxy/connection.rs:1138-1300 | a run in which a forwarded query is no message to the backend, because the header of a refused SET went before it |
| `SharedBackends.PossibleFollows` | scry-proxy/src/proxy/connection.rs:1117-1577 | what a session does next is one of the things its log so far allows |
| `SharedBackends.BackendsIsolated` | scry-proxy/src/proxy/connection.rs:1100-1115 | over every interleaving of clients, each backend gets client bytes only after its startup response was recorded, no StartupMessage after that, a second one only after the first was given up, and a reset between the bytes of two clients; no backend serves two clients at once |
| `SharedBackends.StartupTwice` | scry-proxy/src/proxy/connection.rs:1107-1114 | a run in which one backend is sent two StartupMessages |
| `SharedBackends.StartupOnce` | scry-proxy/src/proxy/connection.rs:1491-1504 | on every run a backend gets a second StartupMessage if and only if it gets one after a startup of its was given up |
| `TimedOutBackends.TimedOutReturned` | scry-proxy/src/proxy/connection.rs:1541-1577 | on every run the backend of a session that timed out becomes idle when the session ends, with its startup recorded and nothing sent to it |
| `TimedOutBackends.TimedOutFate` | scry-proxy/src/proxy/connection.rs:1541-1577 | on every run, at every later point: until the first step that takes or destroys it the backend is idle, nobody's and sent nothing; a step that takes it, by connect or mid-session reacquire, seats the taker behind a reset; after a destroy nobody is ever seated at it |
| `TimedOutBackends.ReusedExactly` | scry-proxy/src/proxy/connection.rs:1541-1543 | on every run somebody is seated at it later if and only if the first step that ends its wait takes it |
| `TimedOutBackends.TimedOutReused` | scry-proxy/src/proxy/connection.rs:1541-1577 | a run in which the backend of a session that timed out serves another client |
| `BackendReplies.WhomRepliesAnswer` | scry-proxy/src/protocol/postgres.rs:41-86 | on every run of asking, reading, ending and recycling: a reply delivered to a session answers its own request if and only if as many came before it as were owed when it was seated, and otherwise the pool or an earlier session |
| `BackendReplies.StaleExactly` | scry-proxy/src/proxy/tcp_pool.rs:369-414 | how many replies a recycle leaves owed, and that the first is an earlier session's if and only if its two reads stopped short of one |
| `BackendReplies.CleanExactly` | scry-proxy/src/proxy/tcp_pool.rs:369-414 | the next session gets only its own replies, however they fall into reads, if and only if none was owed when the last one ended |
| `BackendReplies.StaleReplyDelivered` | scry-proxy/src/proxy/connection.rs:1544-1572 | for any number of requests left unanswered, a run in which the next session's first reply is the pool's or the earlier session's |
| `PoolManager.PoolManager.AcquireFor` | scry-proxy/src/proxy/pool_manager.rs:236-274 | acquire up to the point where it returns or parks: paused, sticky, from the pool, queue full |
| `PoolManager.PoolManager.FinishWait` | scry-proxy/src/proxy/pool_manager.rs:458-500 | a parked acquire is served, fails, or times out, and leaves the queue's depth |
| `PoolManager.PoolManager.GetSticky` | scry-proxy/src/proxy/pool_manager.rs:440-455 | the client's entry leaves the map with its connection and binding |
| `PoolManager.PoolManager.ReleaseConn` | scry-proxy/src/proxy/pool_manager.rs:280-311 | unpinned connections go to the pool, pinned ones to the sticky map or, if the client has an entry, to the pool |
| `PoolManager.PoolManager.PinConn` | scry-proxy/src/proxy/pool_manager.rs:316-336 | a new binding with the next id, or another reason on the existing one |
| `PoolManager.PoolManager.UnpinClient` | scry-proxy/src/proxy/pool_manager.rs:341-352 | the binding ends, its connection is idle and one waiter is woken |
| `PoolManager.PoolManager.CleanupIdle` | scry-proxy/src/proxy/pool_manager.rs:375-411 | exactly the entries idle beyond the threshold end, their connections are idle, and as many waiters are woken |
| `PoolManager.PoolManager.Pause` | scry-proxy/src/proxy/pool_manager.rs:211-214 | only the accepting flag changes |
| `PoolManager.PoolManager.Resume` | scry-proxy/src/proxy/pool_manager.rs:218-224 | accepting again, with one waiter woken |
| `PoolOwnership.OwnershipTrace` | scry-proxy/src/proxy/pool_manager.rs:236-352 | in every reachable state each physical connection is in the pool, in exactly one checked-out value or in exactly one sticky entry, and sticky binding ids are distinct and below the counter |
| `PoolOwnership.AcquireHands` | scry-proxy/src/proxy/pool_manager.rs:236-274 | from every state: the caller holds a connection afterwards if and only if the manager accepts and the client has the sticky entry it asks for or the pool has a connection, the first pinned and out of the map, the second unpinned and out of the pool; otherwise the caller is parked at the back if and only if the manager accepts and the queue has room, and else nothing changes |
| `PoolOwnership.ResumedHands` | scry-proxy/src/proxy/pool_manager.rs:458-500 | a woken caller holds a connection, unpinned, if and only if the pool has one, and its waiter is gone either way |
| `PoolOwnership.FrontWoken` | scry-proxy/src/proxy/pool_manager.rs:211-352 | from every state a connection given back, an unpin and a resume wake the waiter at the front, a parked caller goes to the back, nothing else moves the queue, and the depth counts those that park and those that go on |
| `PoolOwnership.LastUsedTrace` | scry-proxy/src/proxy/pool_manager.rs:280-336 | in every reachable state a sticky entry carries the time of the last step that gave its pinned connection back or pinned its client |
| `PoolOwnership.SweepExactly` | scry-proxy/src/proxy/pool_manager.rs:375-411 | on every run a sweep ends a binding if and only if sweeping is on and that last step is longer ago than the threshold; its connection is then idle and nothing else changes |
| `PoolOwnership.SweptExactly` | scry-proxy/src/proxy/pool_manager.rs:375-411 | a whole sweep ends exactly the entries that sweeping each client would |
| `PoolOwnership.StickyRestored` | scry-proxy/src/proxy/pool_manager.rs:280-305 | a sticky connection taken and given back, with any steps of anybody in between that spare its client, is bound to the same client again |
| `PoolOwnership.RebindsExactly` | scry-proxy/src/proxy/pool_manager.rs:283-305 | a pinned connection given back becomes sticky if and only if its client has no entry, and otherwise goes to the pool |
| `PoolOwnership.PinRecords` | scry-proxy/src/proxy/pool_manager.rs:316-336 | pinning adds its reason to those given before, and binds the connection handed in if and only if the client had no entry |
| `PoolOwnership.ReasonsTrace` | scry-proxy/src/proxy/pool_manager.rs:324-328 | in every reachable state no reason is listed twice for a client |
| `PoolOwnership.PausedAcquire` | scry-proxy/src/proxy/pool_manager.rs:236-248 | an acquire begun while paused changes nothing, and only then is it refused as paused |
| `WaitQueue.WaitQueue.Enqueue` | scry-proxy/src/proxy/wait_queue.rs:41-59 | accepted at the back if and only if there is room |
| `WaitQueue.WaitQueue.NotifyOne` | scry-proxy/src/proxy/wait_queue.rs:64-74 | the waiter at the front is woken |
| `WaitQueue.WaitQueue.DropWaiter` | scry-proxy/src/proxy/wait_queue.rs:105-110 | only the depth changes |
| `WaitQueue.WakesInOrder` | scry-proxy/src/proxy/wait_queue.rs:41-74 | over every interleaving the woken followed by the waiting are the accepted in order, and the waiting never exceed the bound |
| `WaitQueue.DepthCountsWaiters` | scry-proxy/src/proxy/wait_queue.rs:105-110 | the depth is the number of waiters not dropped |
| `WaitQueue.DepthNeverNegative` | scry-proxy/src/proxy/wait_queue.rs:105-110 | the depth never underflows on any prefix of any run |
| `WaitQueue.DepthMayExceedBound` | scry-proxy/src/proxy/wait_queue.rs:77-84 | a run whose depth passes the maximum |
| `WaitQueue.DroppedKeepsPlace` | scry-proxy/src/proxy/wait_queue.rs:41-110 | over every interleaving the queue holds exactly the accepted waiters not woken yet, those that gave up included |
| `WaitQueue.NotifyReachesExactly` | scry-proxy/src/proxy/wait_queue.rs:64-74 | a notification reaches a waiter that listens if and only if the front one does, and is used up by one that gave up otherwise |
| `WaitQueue.TurnedAwayExactly` | scry-proxy/src/proxy/wait_queue.rs:41-59 | an enqueue is refused with fewer listening than the bound if and only if those that gave up fill the rest |
| `WaitQueue.GaveUpKeepsOut` | scry-proxy/src/proxy/wait_queue.rs:41-59 | a run in which an enqueue is refused though nobody listens |
| `EventBatcher.EventBatcher.SendEvent` | scry-proxy/src/proxy/event_batcher.rs:61-84 | queued if there is room, counted as dropped if not, an error if the receiving loop is gone |
| `EventBatcher.EventBatcher.ReceiveEvent` | scry-proxy/src/proxy/event_batcher.rs:111-129 | one receive: batch, flush when full, flush and exit when closed and drained |
| `EventBatcher.EventBatcher.FlushTimer` | scry-proxy/src/proxy/event_batcher.rs:133-138 | a tick flushes a batch that is not empty |
| `EventBatcher.EventBatcher.RunToEnd` | scry-proxy/src/proxy/event_batcher.rs:108-141 | after the sender is gone the loop ends with everything batched or queued handed over in order |
| `EventBatcher.BatcherTrace` | scry-proxy/src/proxy/event_batcher.rs:61-156 | over every interleaving: handed over ++ batch ++ queue is the accepted events in order, accepted plus dropped is the number of sends while open, batches hold between 1 and max(1, size) events, and after exit everything accepted was handed over |
| `EventBatcher.TickHandsOver` | scry-proxy/src/proxy/event_batcher.rs:133-138 | after a tick on a running loop the batch is empty and its events have been handed over as one batch |
| `EventBatcher.ReceiveTakes` | scry-proxy/src/proxy/event_batcher.rs:111-129 | a receive takes the oldest event and hands the batch over if and only if the event fills it; the loop ends if and only if the channel is drained and closed |
| `EventBatcher.FullDropsNewest` | scry-proxy/src/proxy/event_batcher.rs:67-78 | on an open channel the event sent is accepted if and only if the queue has room; otherwise it is the one lost and the older ones stay |
| `EventBatcher.OldestKept` | scry-proxy/src/proxy/event_batcher.rs:19-21 | with room for one event the first of two is kept |
| `HotData.CountMinSketch.Increment` | scry-proxy/src/observability/hot_data.rs:107-124 | the row loop adds one to each bucket of the fingerprint and returns the smallest new count |
| `HotData.AccessTouches` | scry-proxy/src/observability/hot_data.rs:107-124 | an access of y adds one to the counter of x in a row if and only if their hashes leave the same remainder there, and touches no other cell |
| `HotData.CountMinSketch.ApplyDecay` | scry-proxy/src/observability/hot_data.rs:141-149 | the nested loops decay every cell once |
| `HotData.SketchOneSided` | scry-proxy/src/observability/hot_data.rs:107-149 | over every trace, any hashes and any monotone decay: the count is at least the exact counter decayed alike, and equal to it when in some row no other fingerprint accessed leaves the same remainder |
| `HotData.RowSums` | scry-proxy/src/observability/hot_data.rs:107-124 | without decay each row sums to the number of increments |
| `HotData.TopKHeap.Update` | scry-proxy/src/observability/hot_data.rs:177-205 | raise, insert, replace a minimum or skip, with ties broken anyhow |
| `HotData.TopKHeap.RebuildHeap` | scry-proxy/src/observability/hot_data.rs:208-216 | the loop makes the heap hold each entry of the map once |
| `HotData.TopKHeap.ApplyDecay` | scry-proxy/src/observability/hot_data.rs:233-238 | every tracked count is decayed and the heap rebuilt |
| `HotData.TopKTrace` | scry-proxy/src/observability/hot_data.rs:42-71 | over every sequential trace: heap contents are the map's, at most k with the counts last reported, every accessed fingerprint tracked while there is room, and nothing untracked last reported above anything tracked |
| `HotData.FullUpdateExactly` | scry-proxy/src/observability/hot_data.rs:177-205 | an untracked fingerprint gets into a full heap if and only if its count is above the least tracked one, in place of an entry with that count; otherwise, ties included, nothing changes |
| `HotData.HotDataTracker.RecordAccess` | scry-proxy/src/observability/hot_data.rs:42-49 | the sketch is incremented and the heap updated with the count it reports |
| `HotData.HotDataTracker.ApplyDecay` | scry-proxy/src/observability/hot_data.rs:65-71 | sketch and heap decay together |
| `StartupMessage.ParseStartup` | scry-proxy/src/protocol/auth_messages.rs:25-74 | the offset loops compute the recursive startup parser |
| `StartupMessage.ReadPairs` | scry-proxy/src/protocol/auth_messages.rs:43-71 | the loop over the parameters collects every pair up to the empty key |
| `StartupMessage.ParamsOfPairs` | scry-proxy/src/protocol/auth_messages.rs:87-119 | parsing encoded pairs inserts them in order |
| `StartupMessage.BackendStartupRoundTrip` | scry-proxy/src/auth/authenticator.rs:234-248 | parsing the rebuilt backend startup gives the client's parameters with only user and database replaced, whatever the map's iteration order |
| `StartupMessage.TrailingIgnored` | scry-proxy/src/protocol/auth_messages.rs:25-74 | bytes behind a whole startup message do not change how it is read |
| `StartupMessage.CutRefused` | scry-proxy/src/protocol/auth_messages.rs:25-74 | a built message is refused wherever it is cut |
| `StartupMessage.SslRequestRefused` | scry-proxy/src/protocol/auth_messages.rs:25-74 | an SSLRequest is refused |
| `Scram.XorBytes` | scry-proxy/src/auth/scram.rs:208-214 | the loop computes the bytewise xor |
| `Scram.XorRecovers` | scry-proxy/src/auth/scram.rs:208-214 | xor with the signature undoes itself |
| `Scram.XorExactly` | scry-proxy/src/auth/scram.rs:208-214 | byte by byte, and no other key gives the same bytes |
| `Scram.ScramClient.ClientFirst` | scry-proxy/src/auth/scram.rs:48-52 | the client-first message and the stored bare part |
| `Scram.ScramClient.ClientFinal` | scry-proxy/src/auth/scram.rs:54-111 | the client-final message, or the error of the first check that fails |
| `Scram.ScramClient.VerifyServerFinal` | scry-proxy/src/auth/scram.rs:113-150 | the signature is checked, or the error of the first check that fails |
| `Scram.ReadAttributes` | scry-proxy/src/auth/scram.rs:60-72 | the attribute loop keeps the last of each kind |
| `Scram.AnswersExactly` | scry-proxy/src/auth/scram.rs:54-111 | a server-first is answered if and only if it is UTF-8, its last r= begins with the client's own nonce, its last s= decodes and its last i= is a 32-bit number |
| `Scram.AnswerMeans` | scry-proxy/src/auth/scram.rs:54-111 | the answer names that nonce and carries the proof for that salt and count, in the terms of the standard |
| `Scram.FinalErrors` | scry-proxy/src/auth/scram.rs:54-111 | which error a server-first gets, by the first of the checks that fails, on its parts |
| `Scram.ClientFirstIsRead` | scry-proxy/src/auth/scram.rs:48-52 | the server reads bare part and nonce off client-first if and only if user name and nonce have no comma |
| `Scram.HandshakeCompletes` | scry-proxy/src/auth/scram.rs:48-150 | for every account, user and nonce: an honest server accepts the client's proof and the client accepts the server's signature if and only if user name and client nonce have no comma |
| `Scram.VerifyExactly` | scry-proxy/src/auth/scram.rs:113-150 | for every message: a client that answered an honest server accepts it if and only if it is UTF-8 and v= followed by a text that decodes to the signature of that server |
| `Scram.VerifyMeans` | scry-proxy/src/auth/scram.rs:113-150 | in any state of the client: accepted if and only if a server-first was answered and the message carries the signature under the ServerKey of the salted password for the first r= of that server-first |
| `Scram.VerifyErrors` | scry-proxy/src/auth/scram.rs:113-150 | which error a final message gets, by the first of the checks that fails |
| `Scram.FirstNonceExactly` | scry-proxy/src/auth/scram.rs:128-134 | verification uses the nonce behind the first r=, and none if and only if no part has one |
| `Scram.SameAuthMessageExactly` | scry-proxy/src/auth/scram.rs:113-150 | proof and verification rebuild the same AuthMessage if and only if the first and the last r= attribute agree |

## Left out

- Sockets, TLS, timeouts and scheduling: reads, writes, their failures and the order of events are inputs.
- The connection pool library and the backend's answers: the pool hands out an idle connection after its recycle step, or a new one; any recycle may destroy it.
- `handle_with_owned_backend`, the client authentication exchange, `PasswordMessage` and MD5: straight-line code or rests on primitives.
- Unicode case folding, Unicode white space and slicing inside multi-byte characters: text is bytes with ASCII folding.
- Lossy UTF-8 decoding, HMAC, SHA-256, PBKDF2 and base64: parameters with the laws they obey.
- Parameter decoding by type, the anonymizer, metrics, tracing, configuration, the HTTP publisher, the circuit breaker and admin SHOW tables: field copying or rests on code that is not part of this model.
- PostgreSQL's own transaction semantics: the tracker does not follow a rollback, so it is not claimed to over-approximate the server's session.
- Liveness of waiters: whether a waiter is ever woken depends on who gives connections back; the safety side is in `WaitQueue`.
- Replies cut by a read, or with a status other than idle: `BackendReplies` counts whole replies and recycles that succeed; any other only destroys the backend or loses part of a reply.
- Sticky entries in `SharedBackends`: the session handler never pins through the pool manager, so it never holds one.
- Concurrent accesses to the hot-data tracker: calls are taken one after the other, and counters are unbounded integers with an abstract monotone decay instead of `u64` and `f64`.
- `get_top_k`: a library sort of the map.
- Integer overflow: `usize` is taken as 64 bits wide, and an overflow of the backend scanners ends the session, as in a build with overflow checks. A wrapping build instead loops for ever on length -1, rescans earlier bytes on larger magnitudes and passes over a short ErrorResponse header; it differs only on the reads of `OverflowsAfter`, `CompletionOverflows` and `OverflowsIn`.
- ManagedHandler.ManagedHandler.Serve: the components of a session that has ended are not described, because they are dropped with it.
