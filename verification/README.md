# TAWS agent: a verified model

TAWS is a TEEP agent in an SGX enclave. It receives SUIT manifests from a TAM, keeps a table of installed
Wasm apps, runs them from a one-entry module cache, and reports its state and evidence back to the TAM.
This project models that behaviour in Dafny 4.11 and proves properties of the model. Check it with
`dafny verify dfyconfig.toml`.

## How the model is laid out

Code that updates state in place is modelled as classes over an explicit heap, with the loops the source has;
each method is proved to compute a function on values, and the properties of whole runs are proved about
those functions.

| layer | values and properties | code in its own form |
|---|---|---|
| record table | `TcTable`, `TcProperties`, `TcOutcomes`, `TcAnswers`, `TcRefinement` | `Memory`, `TcManagerCode`, `ComponentNames` |
| module cache | `WasmCache` | `WasmEngineCode` |
| SUIT callbacks | `Suit`, `SuitOutcomes`, `SuitReports` | `SuitProcessorCode` |
| agent | `AgentSpec`, `AgentRuns`, `AgentOutcomes`, `ManifestTrail`, `Session` | `AgentCode`, `SessionCode` |
| whole enclave | `Enclave`, `Lifecycle`, `UpdateRefinement` | `EnclaveCode` |
| runs that break an expected property | `Scenarios`, `FailedInstalls`, `Counterexamples` | |
| bytes | `Cbor`, `TcInfo`, `Evidence` | `CborEncoding`, `TcInfo`, `Evidence`, `HttpBuffer` |
| web server | `WebServer` | an interleaving of steps |

Everything outside the source is a parameter: whether an allocation or a library call succeeds, what the
library decoded, what a Wasm call returns, what the TAM sends. Encoding and signing a reply is an arbitrary
function of the reply and of the randomness of the signature, which may fail. SHA-256 and SHA-384 are arbitrary functions of
the right output size. They are never assumed to be injective: where two binaries are identified by their
hash, the statement says that they are equal or that they are an actual collision.

A heap is a map from addresses to contents, and `Free` demands a live address. A verified method therefore
cannot free twice or free what it does not own, and its contract compares what is left on the heap before and
after the call, so it cannot leak either unless the contract says what is leaked.

## Main results

- **Ownership.** In every reachable table, failed allocations and failed manifests included, each buffer is held
  by exactly one field of one active record, slots past the length are zero, and the rest of the heap is
  untouched (`TcManagerCode.TcManager.StoreRecord`, `CheckAndUpdate`, `RemoveAll`).
- **Refinement to a map.** Over any run of clean installs the swap-delete array is a map from app name to record
  under the documented duplicate rule; a lookup returns the install with the greatest sequence number, the
  latest on ties (`TcRefinement.HistoryRefines`, `LookupReturnsNewest`). The same holds for the agent over any
  messages and invocations, as long as the manifests that store anything are clean and pass
  (`UpdateRefinement.UpdatesRefine`).
- **Conservation.** Finalising removes exactly one record, the loser of the merge; leaves app names distinct if and
  only if the other records had distinct names; and the record that answers for each name afterwards is
  determined (`TcProperties.FinaliseConserves`, `FinaliseUniqueIff`, `TcAnswers.FinaliseAnswers`).
- **Installed apps run.** From any reachable enclave that waits for an Update, one Update installs any number of new
  apps whose manifests store metadata and payload and match their image; and then each of them runs, in any order,
  whatever ran before (`Lifecycle.InstallAndRun`).
- **When each step succeeds.** Every operation succeeds exactly when its inputs are as they should be and the
  environment grants what it needs, and otherwise reports the error that stands for what was missing: stores,
  finalisations and exports (`TcOutcomes`), callbacks and envelopes (`SuitOutcomes`), Updates, QueryRequests and whole
  messages (`AgentOutcomes`), evidence (`Evidence.EvidenceSucceedsIff`), invocations (`WasmCache.ReadyIff`,
  `WasmEngineCode.OutputIff`).
- **Evidence is about the request.** The attestation payload of a QueryResponse decodes to a quote over report data
  that is bound to the agent's key and the challenge of that very request (`AgentOutcomes.AttestsChallenge`).
- **What runs is what the table holds.** After any sequence of messages and invocations the binary that runs under a
  name is the one in the table, short of a collision (`Enclave.RunsWhatIsInstalled`). The table also holds what
  rejected manifests left: a record was finalised if and only if it is not such a leftover
  (`Enclave.FoundFinalisedIff`).
- **What runs is what was matched.** In any run, once a manifest's payload has been image-matched, and until another
  payload is stored for the same digest, whatever runs from its record has the SHA-256 digest the manifest
  demanded, collision or not (`Enclave.RunsWhatWasMatched`); when the record answers for its app is stated on
  the table before finalisation (`Enclave.MatchedAppRuns`, `TcAnswers.FinalisedAnswersIff`).
- **Agent state.** The status is determined by the last QueryResponse or Success that was built, in every run
  (`AgentRuns.StatusTracksReplies`), and code and model agree on every message
  (`AgentCode.AgentProcess.ProcessMessage`).
- **Session.** Each POST carries, sealed, the reply that the agent built for the message received just before
  (`Session.PostsCarryReplies`).
- **Encodings.** A general CBOR round trip, and from it the tc-list and evidence round trips (`Cbor.RoundTrip`,
  `TcInfo.TcListRoundTrip`, `Evidence.EnvelopeRoundTrip`).
- **Web server.** For any number of handlers: mutual exclusion, one response per request, no deadlock, and a bound
  on the steps until every handler is done (`WebServer.MutualExclusion`, `OneResponseEach`, `ServerDrains`).

## What the proofs found

These are properties one would expect that the code does not have. In each case the code is modelled as it is, an
input that shows it is given, and the exact condition is proved.

- Rejected payloads can run. A failed envelope leaves its record in the table
  (`Enclave/src/Enclave_process_message.cpp:575-601`), and the module is loaded from whatever record has the name
  (`Enclave/src/Enclave_wasm.cpp:59-77`), finalised or not. `Counterexamples.RejectedPayloadRuns` is a manifest whose
  image match fails and whose payload then runs; `Enclave.FoundFinalisedIff` says when a record was finalised.
- `doc/tc-manager.md:55` promises one latest record per app name and no downgrade. Both fail in runs with failed
  manifests. A later swap-delete can move a leftover in front of an installed record, and the next install then
  replaces the leftover; another one can move the older of the two records in front of the newer
  (`FailedInstalls.FailedManifestsBreakPromise`, a run of ten messages). And a payload that is then rejected can be
  stored into a leftover in front, with nothing removed at all (`FailedInstalls.RejectedStoreDowngrades`, five
  messages). `TcAnswers.DistinctIff` and `TcAnswers.DowngradesIff` give the conditions for every operation on the
  table, stores and finalisations alike.
- The result of hashing a payload is ignored (`Enclave/src/tc_manager.cpp:158`). `TcProperties.StoreHashedIff` says
  exactly when a payload ends up under a wrong hash. After that its app can run an old binary, and another app the
  misfiled one (`WasmCache.FailedHashRunsOldBinary`, `MisfiledRunsForAnother`, both from a cold start).
  `WasmCache.WrongBinaryIff` says exactly when, for every run; `FaultyStoreIff` in terms of one faulty store and any
  invocations after it.
- An allocation that fails in the middle of a tc-list leaks the tc-info buffers already built, because the release
  runs while the list length is still 0 (`Enclave/src/Enclave_process_message.cpp:394-404`). See
  `AgentCode.LeaksIff` and `Counterexamples.BuffersLeak`.
- An Update that arrives before a QueryRequest leaves the reply unwritten
  (`Enclave/src/Enclave_process_message.cpp:727-730`). `AgentRuns.EarlyUpdate` says when the status changes and
  `AgentCode.UnwrittenFreesIff` what the frees made for such a reply do. It can stand between two Success messages
  without a QueryResponse having been built: `Counterexamples.UnwrittenSeparates`, `AgentRuns.BuiltResponseBetween`.
- `doc/enclave-process-message.md:50` says that a fatal failure makes no state transition. The code changes the state
  when the reply is built, so a reply that then cannot be encoded or signed does change it:
  `Counterexamples.FatalResultsChangeState`, `AgentRuns.FatalChangesStatusIff`.
- The SUIT report sent with an Error or a Success is the last one captured, possibly from an earlier manifest or
  message, even a failed one: `Counterexamples.StaleReportSent`, `StaleSuccessReportSent`. `SuitReports.OwnReportIff`
  says when it belongs to the manifest that failed, `OwnSuccessReportIff` when to the Update that succeeded.

Three lengths are cast to 32 bits, when a module is loaded, when a challenge is hashed and when input is handed to a
module. `WasmCache.RunnableIff`, `Evidence.BindingIff` and `WasmEngineCode.InputFitsIff` say that each is harmless
exactly below 2^32 bytes. For modules and challenges that bound always holds: an envelope has to fit the
processor's 20 MiB and a message the application's 20 MiB receive buffer (`Enclave.WholeBinaryRuns`,
`Evidence.ReceivedChallengeBound`).

## Model

| member | source | states |
|---|---|---|
| `TcManagerCode.TcManager.StoreRecord` | Enclave/src/tc_manager.cpp:82-166 | whatever allocations fail, the array and heap code computes the table function `Store`, keeps every buffer owned by exactly one field, and leaves the rest of the heap as it was |
| `TcManagerCode.TcManager.NewRecord` | Enclave/src/tc_manager.cpp:92-117 | a slot is taken only for a non-empty digest, with room and memory; otherwise the table is exactly as before |
| `TcManagerCode.TcManager.SetManifest` | Enclave/src/tc_manager.cpp:119-140 | storing metadata rewrites only its own record, replacing the old buffer without leak or sharing |
| `TcManagerCode.TcManager.SetPayload` | Enclave/src/tc_manager.cpp:142-164 | the same for a payload; the hash field changes only when a payload was copied |
| `TcManagerCode.TcManager.FindByDigest` | Enclave/src/tc_manager.cpp:374-390 | the loop over lengths and contents finds the first record of that digest |
| `TcManagerCode.TcManager.FindByName` | Enclave/src/tc_manager.cpp:392-407 | the loop finds the first record of that name, "" never matching |
| `TcManagerCode.TcManager.RemoveRecordAt` | Enclave/src/tc_manager.cpp:264-286 | swap with the last record, free its three buffers once each, zero the slot |
| `TcManagerCode.TcManager.UpdateOrDiscardRecord` | Enclave/src/tc_manager.cpp:293-334 | swap then swap-delete computes the merge in all index-aliasing cases, with ownership kept |
| `TcManagerCode.TcManager.CheckAndUpdate` | Enclave/src/tc_manager.cpp:223-239 | finalisation on the array computes `Finalise`, keeps the invariants and leaks nothing |
| `TcManagerCode.TcManager.RemoveAll` | Enclave/src/tc_manager.cpp:251-256 | the table is emptied and the heap holds exactly what the table did not own |
| `TcManagerCode.TcManager.GetTcList` | Enclave/src/tc_manager.cpp:178-220 | all records are exported in order, or none and a count of 0 |
| `TcManagerCode.ReplaceRecord` | Enclave/src/tc_manager.cpp:126-140 | replacing one record's buffers leaves every other record's buffers, and everything the table does not hold, alone |
| `ComponentNames.SetIdsFromComponentId` | Enclave/src/tc_manager.cpp:55-80 | the name buffer ends up terminated, holding the converted text without leading slashes, or what a failed decode or conversion left |
| `ComponentNames.Shift` | Enclave/src/tc_manager.cpp:74-78 | moving the text down inside the buffer keeps it intact although source and target overlap |
| `TcProperties.StoreFrame` | Enclave/src/tc_manager.cpp:91-117 | a store keeps at most 20 records with distinct non-empty digests, and touches only the record of its own digest |
| `TcProperties.FinaliseConserves` | Enclave/src/tc_manager.cpp:223-239 | the multiset of records loses exactly the loser, wherever target and rival are; success exactly for a complete record |
| `TcProperties.FinaliseFrame` | Enclave/src/tc_manager.cpp:293-334 | at most the target and one record of the same name are touched: every digest but the loser's looks up as before |
| `TcProperties.FinaliseUniqueIff` | doc/tc-manager.md:50-55 | names are distinct afterwards if and only if they were distinct among the records other than the target |
| `TcProperties.RunKeepsInv` | Enclave/src/tc_manager.cpp:358-390 | the table invariant holds after every run of operations, failing ones included |
| `TcProperties.StoreHashedIff` | Enclave/src/tc_manager.cpp:153-163 | every payload keeps its own hash if and only if hashing did not fail with a wrong value left behind |
| `TcProperties.RunKeepsHashed` | Enclave/src/tc_manager.cpp:148-163 | over runs in which hashing works, every stored payload carries its own SHA-256 |
| `TcOutcomes.StoreSucceedsIff` | Enclave/src/tc_manager.cpp:82-166 | a store succeeds if and only if its digest has a record or gets one of twenty, and what there is to copy can be |
| `TcOutcomes.StoredRecord` | Enclave/src/tc_manager.cpp:119-165 | field by field, the record a store leaves, successful or not |
| `TcOutcomes.FinaliseSucceedsIff` | Enclave/src/tc_manager.cpp:223-239 | finalising succeeds if and only if manifest name, app name, manifest and payload of the record are all there; otherwise the record is gone and no other notices |
| `TcOutcomes.NewFinalisesIff` | Enclave/src/tc_manager.cpp:229-237 | a new manifest is accepted if and only if metadata and payload were both stored; otherwise the table is as before it |
| `TcOutcomes.ExportedIff` | Enclave/src/tc_manager.cpp:178-220 | the table is exported if and only if it fits and every record has all four parts and a name short enough |
| `TcAnswers.FinaliseAnswers` | Enclave/src/tc_manager.cpp:223-334 | the record that answers for each app name after a finalisation, by the table before it, in every aliasing case of the merge |
| `TcAnswers.FinalisedAnswersIff` | Enclave/src/tc_manager.cpp:304-333 | a finalised record is kept if and only if no newer one is there, and answers for its app if and only if the last record was not moved in front of it |
| `TcAnswers.DowngradesIff` | doc/tc-manager.md:50-55 | the exact condition, on the table before it, under which an operation, store or finalisation, makes a name answer with an older record |
| `TcAnswers.DistinctIff` | doc/tc-manager.md:50-55 | the exact condition under which an operation, store or finalisation, leaves app names distinct |
| `FailedInstalls.FailedManifestsBreakPromise` | Enclave/src/Enclave_process_message.cpp:575-601 | a run of messages in which two records accepted for one app stay in the table, and the older one ends up answering |
| `FailedInstalls.RejectedStoreDowngrades` | Enclave/src/tc_manager.cpp:142-164 | a run of messages in which a payload that is rejected makes the name of a newer app answer with the older record |
| `TcRefinement.StoresState` | Enclave/src/tc_manager.cpp:119-165 | whatever the order and repetition of a manifest's stores, the table gains its record with the parts stored so far, or is unchanged if the digest was known |
| `TcRefinement.InstallRefines` | doc/tc-manager.md:50-55 | one clean install acts on the array as "replace iff existing <= new" acts on a map |
| `TcRefinement.HistoryRefines` | doc/tc-manager.md:50-59 | the array refines the map over every run of clean installs |
| `TcRefinement.LookupInMap` | Enclave/src/tc_manager.cpp:392-407 | under the refinement, the search by name is a map lookup |
| `TcRefinement.LookupReturnsNewest` | Enclave/src/tc_manager.cpp:316-331 | a lookup returns the install of greatest sequence number, the latest on ties |
| `TcRefinement.LookupFindsInstalled` | Enclave/src/tc_manager.cpp:392-407 | a name is found if and only if some install was made for it |
| `TcRefinement.OldNameAnswers` | Enclave/src/tc_manager.cpp:91-117 | while a new digest is being stored, with any failures, names already answered keep their record |
| `UpdateRefinement.UpdatesRefine` | Enclave/src/Enclave_process_message.cpp:475-619 | over any messages and invocations in which every manifest that stores anything is clean and passes, the table refines the map and names answer with the newest manifest |
| `WasmCache.CacheAgrees` | Enclave/src/Enclave_wasm.cpp:51-126 | in every interleaving of table operations and invocations, an OK means the loaded binary is the table's for that name, or the two are a SHA-256 collision |
| `WasmCache.CachedIsFresh` | Enclave/src/Enclave_wasm.cpp:69-77 | answering from the cache runs what a fresh load would run, short of a collision |
| `WasmCache.ReadyIff` | Enclave/src/Enclave_wasm.cpp:51-126 | exactly when an app gets ready, whatever was loaded before, what is loaded then, and the code otherwise |
| `WasmCache.FaultyStoreIff` | Enclave/src/tc_manager.cpp:148-163 | exactly when an invocation, any number of others after one store with failed hashing, runs another binary than the record it finds |
| `WasmCache.WrongBinaryIff` | Enclave/src/Enclave_wasm.cpp:69-77 | the same for every run from a cold start, with any number of stores whose hashing failed |
| `WasmCache.RunnableIff` | Enclave/src/Enclave_wasm.cpp:102-102 | the runtime is given the whole binary if and only if its length fits 32 bits |
| `WasmCache.FailedHashRunsOldBinary` | Enclave/src/tc_manager.cpp:158-159 | from a cold start, a run in which an ignored hashing failure makes an app run its old binary |
| `WasmCache.MisfiledRunsForAnother` | Enclave/src/tc_manager.cpp:158-159 | from a cold start, a run in which such a failure makes another app run the wrong binary |
| `WasmEngineCode.Runtime.LoadAndInstantiate` | Enclave/src/Enclave_wasm.cpp:101-123 | a load or instantiation that fails gives back everything it acquired |
| `WasmEngineCode.WasmEngine.Reset` | Enclave/src/Enclave_wasm.cpp:33-49 | instance, module and binary are released once each; nothing stays alive in the runtime |
| `WasmEngineCode.WasmEngine.EnsureRunning` | Enclave/src/Enclave_wasm.cpp:51-126 | the code computes `Ensure`; module, instance and owned binary are all there or all absent, and exactly that module is alive |
| `WasmEngineCode.WasmEngine.Step` | Enclave/src/Enclave_wasm.cpp:51-126 | every step of an interleaving, table or invocation, is a step of the value model, the loaded module surviving table operations |
| `WasmEngineCode.WasmEngine.SecondCall` | Enclave/src/Enclave_wasm.cpp:219-267 | the second phase copies exactly what the module wrote, clipped to what was asked for, and frees both blocks on every exit |
| `WasmEngineCode.WasmEngine.Invoke` | Enclave/src/Enclave_wasm.cpp:128-268 | on OK the first `len` output bytes are the module's and the rest is untouched, otherwise length 0 and no change; the module saw the caller's input; module-heap blocks and execution environment are released on every exit |
| `WasmEngineCode.OkBounds` | Enclave/src/Enclave_wasm.cpp:201-259 | OK if and only if the length is positive, and then it is within the caller's buffer and the first answer |
| `WasmEngineCode.OutputIff` | Enclave/src/Enclave_wasm.cpp:165-267 | exactly when an invocation gives output, an output that fills the buffer included, how much, and what each failure stands for |
| `WasmEngineCode.SeesItsInput` | Enclave/src/Enclave_wasm.cpp:187-244 | the module is called with the caller's input each time, the second time with the room it asked for |
| `WasmEngineCode.InputFitsIff` | Enclave/src/Enclave_wasm.cpp:177-187 | the copy of the input stays inside its block if and only if the input is shorter than 2^32 bytes |
| `Suit.ImageMatched` | Enclave/src/suit_processor_wrapper.cpp:98-160 | after an error-free envelope whose last payload store is followed by an image match, the record has the expected size and hash field, and the payload that digest exactly when hashing it worked |
| `Suit.InstalledImageMatches` | Enclave/src/suit_processor_wrapper.cpp:114-157 | end to end, the finalised record has the expected digest and size, or a newer record of the app is in the table |
| `Suit.FinalisedOrNewer` | Enclave/src/tc_manager.cpp:316-331 | a record finalised without error is kept as it is, or a record of the same app with a greater sequence number is there |
| `Suit.EnvelopeKeepsInv` | Enclave/src/suit_processor_wrapper.cpp:79-90 | an envelope, failing or not, keeps the table invariant |
| `Suit.NotesTell` | Enclave/src/suit_processor_wrapper.cpp:98-160 | what the condition callback notes down tells whether it failed, and whether by the digest or by the size |
| `SuitOutcomes.ImageMatchIff` | Enclave/src/suit_processor_wrapper.cpp:114-157 | an image match succeeds if and only if the record's payload has the demanded size, when given, and its hash field is the demanded SHA-256 digest |
| `SuitOutcomes.ConditionErrors` | Enclave/src/suit_processor_wrapper.cpp:98-160 | any other condition succeeds if and only if the manifest has a record; and what each error stands for |
| `SuitOutcomes.ReasonsTell` | Enclave/src/suit_processor_wrapper.cpp:98-160 | the reason noted for each error |
| `SuitOutcomes.ReportReplaces` | Enclave/src/suit_processor_wrapper.cpp:164-195 | a report with contents replaces the last one or, without memory, leaves none |
| `SuitOutcomes.CallOutcomes` | Enclave/src/suit_processor_wrapper.cpp:79-96 | what each callback changes and when it succeeds |
| `SuitOutcomes.CallsSucceedIff` | Enclave/src/Enclave_process_message.cpp:575-576 | the callbacks end without error if and only if each succeeds in the state the ones before it left, and then all were made |
| `SuitOutcomes.CallsStopAtFirst` | Enclave/src/Enclave_process_message.cpp:575-576 | otherwise the first that fails is the last made, and its error is reported |
| `SuitOutcomes.EnvelopeSucceedsIff` | Enclave/src/Enclave_process_message.cpp:575-576 | an envelope passes if and only if every callback does, the library does not fail, and the closing report can be kept |
| `SuitProcessorCode.SuitProcessor.StoreCallback` | Enclave/src/suit_processor_wrapper.cpp:79-90 | the callback computes its value-level step; other heap blocks, the report among them, are untouched |
| `SuitProcessorCode.SuitProcessor.ConditionCallback` | Enclave/src/suit_processor_wrapper.cpp:98-160 | the checks in their order: record, size, digest encoding, algorithm, digest; with the reason and the consumed keys noted at each |
| `SuitProcessorCode.SuitProcessor.ReportCallback` | Enclave/src/suit_processor_wrapper.cpp:164-195 | a non-empty report replaces the last one, whose buffer is freed; without memory none is left |
| `SuitProcessorCode.SuitProcessor.Process` | Enclave/src/Enclave_process_message.cpp:575-576 | the callbacks of one envelope in order up to the first failure compute `ProcessEnvelope` |
| `SuitReports.EnvelopeReport` | Enclave/src/suit_processor_wrapper.cpp:164-195 | the report left after an envelope is its own if and only if one was delivered while it was processed, and else the one from before |
| `SuitReports.OwnReportIff` | Enclave/src/Enclave_process_message.cpp:577-600 | the report sent with an error is independent of everything before the failing manifest if and only if that manifest delivered one |
| `SuitReports.OwnSuccessReportIff` | Enclave/src/Enclave_process_message.cpp:621-633 | the report sent with a Success is independent of everything before the Update if and only if one of its manifests delivered one |
| `Counterexamples.StaleReportSent` | Enclave/src/Enclave_process_message.cpp:577-600 | a run in which an Error carries the report of an earlier Update |
| `Counterexamples.StaleSuccessReportSent` | Enclave/src/Enclave_process_message.cpp:621-633 | a run in which a Success carries the report of an earlier Update that failed |
| `AgentSpec.UpdateSucceedsIff` | Enclave/src/Enclave_process_message.cpp:461-639 | Success exactly when the request is well-formed and every manifest passes; then the state is the fold of the manifests |
| `AgentSpec.UpdateStopsAtFirst` | Enclave/src/Enclave_process_message.cpp:475-655 | otherwise the state is the fold up to the first failure, whose one code is reported |
| `AgentOutcomes.ManifestPassesIff` | Enclave/src/Enclave_process_message.cpp:475-608 | a manifest passes if and only if every set-up step succeeds, its bytes fit and are accepted, its envelope passes and its record has all parts |
| `AgentOutcomes.ManifestErrors` | Enclave/src/Enclave_process_message.cpp:475-608 | the code of a manifest that does not |
| `AgentOutcomes.UpdateOutcome` | Enclave/src/Enclave_process_message.cpp:461-655 | of every Update, however many manifests it has: Success if and only if token and count are in range and each manifest passes; what is echoed; anything else is an Error |
| `AgentOutcomes.MalformedUpdate` | Enclave/src/Enclave_process_message.cpp:461-473 | a malformed Update changes nothing and is answered with a permanent error |
| `AgentSpec.ResponseLists` | Enclave/src/Enclave_process_message.cpp:347-407 | a QueryResponse lists, in a decodable form, the (name, hash) projection of a table whose records are all complete |
| `AgentSpec.AnsweredIff` | Enclave/src/Enclave_process_message.cpp:231-420 | a QueryRequest is answered with a QueryResponse if and only if all the guards along the way are passed |
| `AgentOutcomes.QueryOutcome` | Enclave/src/Enclave_process_message.cpp:231-420 | the whole answer to a QueryRequest: when it is a QueryResponse, what that echoes, and which error it is otherwise |
| `AgentOutcomes.AttestsChallenge` | Enclave/src/Enclave_process_message.cpp:303-345 | the attestation payload is a quote bound to the agent's key and the challenge of the request, beside these |
| `AgentSpec.BuffersHeld` | Enclave/src/Enclave_process_message.cpp:394-406 | the tc-info buffers held after a query: all of a sent list, or exactly those built before an allocation failed |
| `AgentCode.AgentProcess.RunManifest` | Enclave/src/Enclave_process_message.cpp:475-619 | one iteration computes `ProcessManifest`; context, reporting engine and processor are released on every path |
| `AgentCode.AgentProcess.HandleUpdate` | Enclave/src/Enclave_process_message.cpp:432-655 | the loop computes `ProcessUpdate`; on every exit no context and no initialised processor remains |
| `AgentCode.AgentProcess.CleanUp` | Enclave/src/Enclave_process_message.cpp:640-650 | the cleanup frees exactly what is held, once |
| `AgentCode.AgentProcess.EncodeRequested` | Enclave/src/Enclave_process_message.cpp:353-368 | the component id is written behind the evidence, whose bytes are unchanged |
| `AgentCode.AgentProcess.HandleQuery` | Enclave/src/Enclave_process_message.cpp:231-420 | the code, reading evidence and component id back from disjoint ranges of the work buffer, builds the modelled reply and holds exactly the modelled buffers |
| `AgentCode.AgentProcess.BuildInfos` | Enclave/src/Enclave_process_message.cpp:394-402 | one live block for each tc-info, up to the first allocation that fails |
| `AgentCode.AgentProcess.FreeInfos` | Enclave/src/Enclave_process_message.cpp:79-91 | every buffer of the list is freed once and the heap is as before the query |
| `AgentCode.AgentProcess.BuildReply` | Enclave/src/Enclave_process_message.cpp:713-740 | the reply and the new table and report are those of the model; an early Update leaves the reply as it was |
| `AgentCode.AgentProcess.Seal` | Enclave/src/Enclave_process_message.cpp:751-793 | when encoding and signing succeed and the result fits, it is at the start of the send buffer |
| `AgentCode.AgentProcess.ProcessMessage` | Enclave/src/Enclave_process_message.cpp:664-811 | one ECALL computes `React`; unless it is fatal the send buffer holds the sealed reply; nothing stays allocated except the stated leak |
| `AgentCode.LeaksIff` | Enclave/src/Enclave_process_message.cpp:394-404 | buffers leak if and only if the query gets as far as a table of at least two records, the first allocation succeeds and a later one fails; what leaks is every buffer built until then |
| `Counterexamples.BuffersLeak` | Enclave/src/Enclave_process_message.cpp:394-404 | a run of messages after which a QueryRequest leaks a buffer |
| `AgentCode.UnwrittenFreesIff` | Enclave/src/Enclave_process_message.cpp:79-91 | the frees for an unwritten reply are defined if and only if its pointers are null or different live blocks, and then spare the table if and only if none is held by a record |
| `AgentRuns.StatusTracksReplies` | doc/enclave-process-message.md:45-50 | in every run, waiting for an Update if and only if the last QueryResponse or Success built is a QueryResponse |
| `AgentRuns.SuccessesSeparated` | Enclave/src/Enclave_process_message.cpp:743-749 | between two Success messages the agent builds there is a QueryResponse, or an unwritten message that looks like one |
| `AgentRuns.BuiltResponseBetween` | Enclave/src/Enclave_process_message.cpp:743-749 | it is a QueryResponse the agent built unless an unwritten message in between looked like one |
| `Counterexamples.UnwrittenSeparates` | Enclave/src/Enclave_process_message.cpp:727-730 | a run in which only an unwritten message lies between two Success messages |
| `AgentRuns.TableChangesOnlyWhenWaiting` | Enclave/src/Enclave_process_message.cpp:724-733 | table and report change only by an Update processed while one is awaited |
| `AgentRuns.EarlyUpdate` | Enclave/src/Enclave_process_message.cpp:727-730 | an unsolicited Update leaves the table alone; the status changes exactly when the unwritten reply looks like a QueryResponse |
| `AgentRuns.ErrorsKeepStatus` | doc/enclave-process-message.md:50-50 | an error reply, or none at all, changes no status |
| `AgentRuns.FatalChangesStatusIff` | doc/enclave-process-message.md:50-50 | a fatal result changes the status if and only if a reply that changes it had been built, by the guards that lead to one |
| `Counterexamples.FatalResultsChangeState` | doc/enclave-process-message.md:47-50 | two fatal results that change status and table |
| `AgentRuns.AgentKeepsInv` | Enclave/src/Enclave_process_message.cpp:664-811 | the table invariant holds in every reachable agent |
| `AgentOutcomes.ResultTells` | Enclave/src/Enclave_process_message.cpp:751-810 | when a result is fatal, and otherwise which reply is in the buffer for which result |
| `AgentOutcomes.ActivationIff` | Enclave/src/Enclave_process_message.cpp:799-802 | an answered QueryRequest starts the activation flow if and only if it asks for attestation |
| `Enclave.RunsWhatIsInstalled` | Enclave/src/Enclave_wasm.cpp:69-125 | after any messages and invocations, what runs is what the table holds for the name, short of a collision |
| `Enclave.InstalledAppRunsIff` | Enclave/src/Enclave_wasm.cpp:69-125 | after any messages and invocations, an app with a payload runs if and only if it is loaded or can be |
| `Lifecycle.CompliesAndAnswers` | Enclave/src/suit_processor_wrapper.cpp:114-157 | a manifest with metadata, payload and a matching image passes and answers for its app, from a table with room and no newer record of it |
| `Lifecycle.UpdateInstallsAll` | Enclave/src/Enclave_process_message.cpp:475-639 | one Update installs any number of such manifests of new apps |
| `Lifecycle.InstallAndRun` | Enclave/src/Enclave_wasm.cpp:51-126 | and then each of the apps runs, after any other invocations, with the digest its manifest demanded |
| `Enclave.RunsWhatWasMatched` | Enclave/src/suit_processor_wrapper.cpp:147-156 | in any run, from the record of any image-matched manifest, until a payload is stored for its digest again, only binaries of the demanded SHA-256 digest run, under any name |
| `Enclave.MatchedAppRuns` | Enclave/src/tc_manager.cpp:293-334 | the app of the last manifest processed runs with the demanded digest unless its record is outdated or overtaken, by the table before finalisation |
| `Enclave.ManifestInTrail` | Enclave/src/Enclave_process_message.cpp:475-619 | manifest k of any Update of a run is in its trail, in the state the ones before it left, when those pass |
| `ManifestTrail.FinalisedIff` | Enclave/src/tc_manager.cpp:223-239 | after any chain of manifests, a record was finalised if and only if it is not the leftover of a rejected manifest, and then is complete and as it was accepted |
| `Enclave.FoundFinalisedIff` | Enclave/src/Enclave_wasm.cpp:59-77 | the same for what an invocation finds under a name in any run |
| `Counterexamples.RejectedPayloadRuns` | Enclave/src/suit_processor_wrapper.cpp:152-154 | a manifest is rejected by its image match, and its payload then runs |
| `Enclave.WholeBinaryRuns` | Enclave/src/Enclave_wasm.cpp:102-102 | in every run whose payloads fit the processor the runtime is given whole binaries |
| `EnclaveCode.EnclaveProcess.Message` | Enclave/src/Enclave_process_message.cpp:664-811 | a message leaves the loaded module, its binary and its instance alone, on the shared heap |
| `EnclaveCode.EnclaveProcess.InvokeWasm` | Enclave/src/Enclave_wasm.cpp:128-268 | an invocation leaves the table, the report and the status alone, on the shared heap |
| `Cbor.HeadRoundTrip` | Enclave/src/Enclave_process_message.cpp:93-110 | every shortest head reads back as its major type and argument (section 3 of RFC 8949) |
| `Cbor.RoundTrip` | Enclave/src/Enclave_process_message.cpp:93-110 | decoding recovers every encoded item, whatever follows it |
| `Cbor.PrefixFree` | Enclave/src/Enclave_process_message.cpp:93-110 | encodings are prefix-free, hence injective |
| `Cbor.HeadBytes` | Enclave/src/Enclave_process_message.cpp:93-110 | the bytes of every head, as section 3 of RFC 8949 has them |
| `Cbor.AppendixA` | Enclave/src/Enclave_process_message.cpp:93-110 | the integers and byte strings of appendix A of RFC 8949 are encoded as given there |
| `Cbor.AppendixAContainers` | Enclave/src/Enclave_process_message.cpp:93-110 | and so are its arrays and maps |
| `CborEncoding.Encoder.Insert` | Enclave/src/Enclave_process_message.cpp:123-147 | the buffer holds what was encoded as long as it fits, fails exactly when it does not, and nothing outside its region is written |
| `TcInfo.InfoRoundTrip` | Enclave/src/Enclave_process_message.cpp:93-110 | the decoder recovers component id and digest for every name |
| `TcInfo.InfoSize` | Enclave/src/Enclave_process_message.cpp:123-131 | the encoded size for every name length |
| `TcInfo.InfoBytes` | Enclave/src/Enclave_process_message.cpp:93-110 | the bytes of a tc-info: component id under key 0, wrapped SHA-256 digest under key 3 |
| `TcInfo.EncodeTcInfoMap` | Enclave/src/Enclave_process_message.cpp:93-110 | with heads inserted at closing, the same calls produce the map's encoding with or without a buffer |
| `TcInfo.BuildTcInfo` | Enclave/src/Enclave_process_message.cpp:112-152 | the buffer of exactly the first pass's size always fits the second; a block is left only on success |
| `TcInfo.TcListRoundTrip` | Enclave/src/tc_manager.cpp:178-220 | the decoded tc-list is the index-wise projection of the table, and exists exactly when every record can be exported |
| `Evidence.CreateReportData` | Enclave/src/Enclave_generate_evidence.cpp:146-198 | streaming x, y and challenge gives the SHA-384 of their concatenation, padded with 16 zero bytes |
| `Evidence.CreateRawReportData` | Enclave/src/Enclave_generate_evidence.cpp:112-144 | a fresh buffer holds x, y and challenge, or nothing was allocated |
| `Evidence.BindingIff` | doc/external-design-teep-tam-exchange.md:66-72 | the verifier's check of report data against raw data succeeds if and only if the challenge is shorter than 2^32 bytes or there is a collision |
| `Evidence.ReceivedChallengeBound` | App/src/sgx_teep_session.cpp:29-29 | the quote is bound to every challenge that fits the receive buffer |
| `Evidence.EnvelopeRoundTrip` | Enclave/src/Enclave_generate_evidence.cpp:478-485 | the payload decodes to the quote and x, y, challenge; cut at byte 64 it returns the challenge |
| `Evidence.EvidenceBinds` | Enclave/src/Enclave_generate_evidence.cpp:435-492 | evidence decodes to the quote of report data bound to x, y and challenge, beside these |
| `Evidence.EvidenceSucceedsIff` | Enclave/src/Enclave_generate_evidence.cpp:435-501 | exactly when evidence is created, by key, challenge, allocations, platform and sizes |
| `Evidence.EvidenceErrors` | Enclave/src/Enclave_generate_evidence.cpp:435-501 | what each error stands for |
| `Evidence.CreateEnvelope` | Enclave/src/Enclave_generate_evidence.cpp:435-501 | the payload is at the start of the region or an error is reported; both temporary buffers are freed on every exit |
| `HttpBuffer.RecvContext.WriteCallback` | App/src/teep_http_client.cpp:18-42 | a chunk is appended as far as it fits and reported as consumed whole |
| `HttpBuffer.RecvContext.Receive` | App/src/teep_http_client.cpp:18-42 | after any callbacks the buffer holds exactly the first capacity bytes of all chunks |
| `HttpBuffer.ConcatJoin` | App/src/teep_http_client.cpp:30-39 | what arrived is the chunks one after the other |
| `HttpBuffer.WholeIff` | App/src/teep_http_client.cpp:18-42 | a body is kept whole if and only if it fits |
| `Session.PostsCarryReplies` | App/src/sgx_teep_session.cpp:226-281 | the first POST is empty (section 5.1.1 of draft-ietf-teep-otrp-over-http-15); POST k + 1 is the sealed reply that the agent built for message k, announced by its kind |
| `Session.SessionEnds` | App/src/sgx_teep_session.cpp:238-292 | the result is fixed by the last exchange and the set of results seen: failure ends at once, then error reply over activation over plain OK |
| `Session.SessionReportsReplies` | Enclave/src/Enclave_process_message.cpp:796-810 | composed with the agent, after any earlier messages: an error response is reported exactly when the session ends normally and some reply was an Error |
| `SessionCode.RunTeepSession` | App/src/sgx_teep_session.cpp:226-293 | the loop, driving the agent's own code over one send buffer, produces the modelled trace |
| `WebServer.NextKeepsInv` | yolov8-frontend/web.go:57-82 | every step of worker or handler keeps the invariant of mutex, channels and requests |
| `WebServer.MutualExclusion` | yolov8-frontend/web.go:76-81 | InvokeWasm and RunInstallSession never overlap, nor do two installs, for any number of handlers |
| `WebServer.OneResponseEach` | yolov8-frontend/web.go:146-148 | every request taken gets exactly one response, computed from its own input, or the initialisation error |
| `WebServer.InitErrorIff` | yolov8-frontend/web.go:57-82 | a handler gets the initialisation error if and only if initialisation failed; otherwise its response was computed by a call on its request |
| `WebServer.GivesUpIff` | yolov8-frontend/web.go:61-73 | the worker gives up exactly when its initialisation fails |
| `WebServer.WorkerNeverBlocksSending` | yolov8-frontend/web.go:146-148 | the worker can always send the response it holds |
| `WebServer.HandlerNeverStarves` | yolov8-frontend/web.go:146-148 | a waiting handler can receive, unless the worker is still on its request |
| `WebServer.SomebodyMoves` | yolov8-frontend/web.go:57-82 | no deadlock: while some handler is not done, some step other than an arrival is enabled |
| `WebServer.ServerDrains` | yolov8-frontend/web.go:90-168 | without new arrivals every run is bounded, and it only stops when every handler is done |
| `WebServer.InitialisationMayOverlap` | yolov8-frontend/web.go:61-73 | the worker's own enclave initialisation can overlap an install session: it is outside the lock |

## Left out

- COSE signing and verification, TEEP message encoding and decoding, SUIT envelope parsing, SGX reports and quotes, DCAP
  providers: foreign code, present only as outcomes that succeed or fail.
- libcsuit: one envelope is any list of callbacks, stopping at the first that fails, then possibly a closing report. A
  directive that carries on after a failed condition is not part of this model.
- QCBOR: modelled by section 3 of RFC 8949 for integers, byte strings, arrays and maps of definite length; other major types
  and the library's own limits are not part of this model.
- WAMR: modules are identified by the bytes they were loaded from. That the library may rewrite the binary it loads, that a
  module may write elsewhere than in its output, over its input say, and the memory and globals of a reused instance, are
  not part of this model.
- TcRefinement.InstallRefines: assumes that a manifest digest fixes the manifest, which makes storing a known digest again
  harmless; without it an in-place overwrite can change any field.
- UpdateRefinement.UpdatesRefine: the same assumption, for every manifest that stores anything.
- AgentCode.AgentProcess.ProcessMessage: for an unwritten reply that looks like a QueryResponse the code frees whatever
  pointers it contains; here that reply is taken to hold null pointers only, and `UnwrittenFreesIff` says what happens
  otherwise.
- AgentRuns.EarlyUpdate: on values, so without those frees.
- WasmEngineCode.WasmEngine.Invoke: a null `actual_len` is not modelled; the call then returns before anything else. A call
  that gets as far as copying an input of 2^32 bytes or more is excluded, because the copy then runs past the end of its
  block (`InputFitsIff`).
- EnclaveCode.EnclaveProcess.InvokeWasm: excludes the same calls.
- Session.SessionEnds: a session that never ends is represented by its finite prefixes, with no result yet.
- Sequence numbers and sizes are unbounded, because they are only compared, copied and allocated; the 32-bit casts are
  modelled where they matter.
- Library constants whose definitions are not in the repository (name length, array lengths in TEEP messages) are parameters.
- Generic EAT evidence, key generation, logging, curl set-up, HTTP form parsing, command lines and templates: input and
  output without state worth proving.
- Time: sleeping between exchanges and scheduling fairness.
