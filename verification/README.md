# axioma-gateway: the evidence protocol, verified

axioma-gateway records every call to an external oracle as evidence. Before the call it writes a durable
intent; afterwards it turns the outcome into a canonical, size-bounded record, appends the record to a
hash-chained frame file, and closes the intent. On restart it replays the file, cuts a torn tail if an
intent accounts for it, and turns an intent that was left open into a failure record. This project models
that protocol and the text and byte formats below it in Dafny, and proves what they promise over every
input and every run.

The modules, from the bottom up:

- `Bytes`, `Faults`, `Numbers`, `Utf8`, `Normalise` - byte strings, return codes, integers in text, UTF-8,
  line-ending normalisation and the range test for combining marks.
- `JsonString`, `JsonScan`, `JsonDoc`, `Messages`, `JsonLoops` - the JSON scanner and the escapers of the
  gateway: functions on the unread rest of the text, documents with every choice of white space and escapes,
  what the scanner makes of them, and the loops themselves. `JsonAccepted`, `BlocksAccepted`,
  `MessagesAccepted`, `TopAccepted` - the converse: exactly which bytes it accepts.
- `Canonical`, `Writer`, `RecordParser`, `Substrate`, `Obs`, `Admission` - the AX:OBS:v1 record, the bounded
  writer, a reader that inverts the text, admission and validation. `ObsRules` - the same in the words of the
  requirements: texts by code point, every return code in its order, tampering.
- `Frames`, `DurableLedger`, `Wal`, `WalRules`, `RequestBody` - the frame file and its replay, the ledger unit,
  the intent file, the request body. `WrittenTexts` - what a standard JSON reader finds in the texts it writes.
- `Gateway` - the gateway as a state machine: start attempts, requests, oracle outcomes, failed writes and
  crashes are events. `GatewayInv`, `GatewaySteps`, `GatewayEvents`, `GatewayHistory` - what every step keeps.
  `GatewayTheorems`, `GatewayProgress`, `GatewayRestart`, `GatewayRequests`, `GatewayStages` - what holds of whole
  runs.
- `GatewayProcess` - one process as a class over the ledger unit, the intent file and the buffers; each
  method is proved to take exactly the steps of the state machine.
- `JsonValue`, `JsonReader`, `RecordDoc`, `RecordReading`, `LossCheck`, `LedgerCheck` - a JSON reader, the
  canonical text as a JSON document, and the historical checker on its bytes and on the ledger of any run.

SHA-256, `axilog_commit`, `ax_commit_evidence` and the chain link are uninterpreted functions that may raise
a fault; nothing is assumed about collisions. What a disk does to a write (how many bytes get there, whether
the sync succeeds), what the oracle answers and when the process crashes are part of the event. A crash in the
middle of a write is a failed write followed by a crash. Genesis has sequence 0 and each link adds 1.
The configuration may change at every start: the event `Other` is the whole life of a process under another
accepted configuration. `History` holds the frames and intents of a run; no step reads it, and `GatewayTheorems.FileShape` and
`GatewayHistory.StepGrows` say how it relates to the file.

The main results:

- An oracle call whose intent is closed has an observation frame of its own, provided its input hash did not
  occur in the last payload when the intent was written (`EveryCallEvidenced`). The proviso is exact: a call
  can end without evidence if and only if it fails (`LossExact`), and a run that does so exists for every
  acceptable prompt (`RepeatedPromptLost`), because the stale-intent probe is a substring test on the last payload.
- The file is whole valid frames and at most one cut one (`FileShape`); after a torn append nothing is written
  until a restart (`TornStops`); replay at a start refuses exactly when the start-up frame was torn
  (`RestartExact`); the k-th frame carries ledger_seq = k across restarts (`SequenceIsPlace`).
- An answer that the gateway does not manage to store is one whose commitment or append failed, never one that
  it refused itself (`DisagreementIsAppendFailure`). A crash while an intent is written lets it serve again if and
  only if 86 bytes had been written (`CutIntentDecides`).
- No process makes more calls than its budget (`CallsWithinBudget`), a request is accepted under an exact condition
  (`AcceptExact`), each kind of answer is stored with exactly its failure type (`AnswerIsTold`), and the record of a
  call that was cut off carries the parameters of that very request (`RecoveryTellsRequest`). A start ends accepting
  under an exact condition on what the disk does at each stage (`StartExact`).
- The canonical text is injective (`CanonInjective`), admitted records validate (`AdmittedValidates`), a record that
  was altered afterwards does not unless the commitment collides (`TamperEvident`, `AlteredIsRefused`), and the
  historical checker reports on the canonical bytes exactly the signatures a record has (`SignaturesExact`) and
  none on the ledger of any run (`LedgerChecksClean`).
- `gwj_content_text` returns exactly the text of a Messages response however it is written
  (`ContentTextWritten`), accepts exactly the bodies of one form (`ContentTextExact`), and the recorded outcome
  follows from it (`OutcomeWritten`, `AnswerIsStored`).

## Where the code and its documentation differ

The model follows the code.

- include/axilog/limits.h says that a record over 65,536 bytes is recorded as TRUNCATED; `ax_obs_admit` rejects
  it with AX_ERR_SIZE.
- Strings are escaped by the rule of include/axilog/canonical.h:75-80 and not by section 3.2.2.2 of RFC 8785: LF
  is written `\u000a`. The key order is that of section 3.2.3 of RFC 8785.
- include/axilog/validate.h lists forbidden control characters among the checks of `ax_validate_encoding`; the
  code does not make that check there.
- `s_skip_value` tests token characters with `strchr`, which also finds the terminator, so a NUL byte counts as
  a token character.
- The header of gateway/src/gw_json.c (lines 5-9) says that surprises return -1. The scanner is
  wider than RFC 8259: the top-level object and a content block may end in a comma, anything may follow the
  top-level object, a string that is only passed over may hold control bytes and any escapes, a token is any run
  of token characters, and a key or type counts up to its first NUL (`MessagesAccepted.ContentTextExact`,
  `JsonAccepted.SkipValueExact`).
- The comment at gateway/src/gw_main.c:601-603 says that a matching probe means the observation landed before
  the crash; `GatewayRestart.LossExact` says when that is not so.

## Model

| member | source | states |
|---|---|---|
| `GatewayTheorems.EveryCallEvidenced` | gateway/src/gw_main.c:592-641 | in every reachable state every called, closed intent whose hash was not in the last payload when it was written has an evidence frame among the frames written while it was the latest intent |
| `GatewayTheorems.ObservationsBounded` | gateway/src/gw_main.c:604-640 | one intent produces at most one observation frame plus one per start attempt that stopped after its recovery frame and before the intent was cleared |
| `GatewayTheorems.CallHasItsIntent` | gateway/src/gw_main.c:314-391 | a call is made only under an intent that is complete on disk, not called before, and carries the hash of that prompt; the body can always be built; every other intent is left alone |
| `GatewayTheorems.FileShape` | gateway/src/gw_main.c:187-208 | the frame file is whole valid frames and at most one strict prefix of a frame, of an observation under a readable intent or of the start-up frame without one |
| `GatewayTheorems.TornStops` | gateway/src/gw_main.c:475-506 | after a torn append every event but a crash or a start, under whatever configuration, leaves the state unchanged (ordering guard and exclusive intent together) |
| `GatewayTheorems.RestartExact` | gateway/src/gw_main.c:713-724 | replay at a start refuses if and only if the file is torn and no intent exists, in which case the torn frame is AX:STATE:v1; otherwise it recovers exactly the frames, head, sequence and last payload and cuts the file to them |
| `GatewayTheorems.SequenceIsPlace` | gateway/src/gw_main.c:187-187 | the observation stored as the k-th frame carries ledger_seq = k, across all restarts and truncations |
| `GatewayTheorems.SequenceIncreases` | src/obs.c:202-207 | stored sequence numbers strictly increase although the admission context is reset at each start |
| `GatewayTheorems.FramesDurable` | gateway/src/gw_ledger.c:130-134 | the bytes of the frames that a run has stored stay at the head of the file in every longer run: no truncation removes or changes a whole frame |
| `GatewayTheorems.ExportIsPrefix` | gateway/src/gw_ledger.c:168-184 | the export is a byte prefix of the primary in every state and equal to it while it is active and no append of the process has failed |
| `GatewayTheorems.LiveInStep` | gateway/src/gw_ledger.c:186-195 | a process that may still append knows exactly the frames in the file: sequence, last payload, and as its head the link of their commitments in order from the genesis head |
| `GatewayProgress.DisagreementIsAppendFailure` | gateway/src/gw_main.c:475-506 | the branch "wrapper disagrees with itself" is reached if and only if the commitment or the append fails for the very text to be stored: that of the answer's own record if admission accepts it or it is an error, that of the ERROR / INVALID_OUTPUT record otherwise; validation is never the reason |
| `GatewayProgress.AppendExact` | gateway/src/gw_ledger.c:143-197 | an append of an admissible frame fails exactly when the evidence faults, the frame is not wholly written, the sync fails, or the link faults |
| `GatewayProgress.AnswerIsCommitted` | gateway/src/gw_main.c:475-511 | with a working disk and substrate every answer is committed |
| `GatewayProgress.AnswerIsStored` | gateway/src/gw_main.c:475-511 | a commit adds no frame or exactly one, which stores the prompt's hash, the parameters, both identifiers and the answer's own outcome if admission accepts it, ERROR / INVALID_OUTPUT with an empty output if not, even if the append then fails; a committed answer has added it |
| `GatewayProgress.RecoveryIsStored` | gateway/src/gw_main.c:604-637 | recovery takes the intent for evidenced, and changes only the phase, exactly when the last payload contains its hash; a frame that it adds, even if the append then fails, is the TRANSPORT_ERROR record of the synthetic line with max_tokens, temperature and top_p of the intent and no seed |
| `GatewayProgress.OutcomeWritten` | gateway/src/gw_main.c:406-440 | the outcome of any written Messages response: its concatenated text, TRUNCATED exactly for max_tokens, INVALID_OUTPUT when content or stop_reason is missing or does not fit |
| `GatewayRestart.RestartServes` | gateway/src/gw_main.c:712-762 | with a working disk and substrate a start ends accepting with no open intent if and only if there is no intent and the ledger is whole, or the intent can be read |
| `GatewayRestart.ServesAgainExact` | gateway/src/gw_main.c:712-762 | for every reachable state without a process and a working substrate: some continuation, changes of configuration included, serves again if and only if there is no intent and the ledger is whole, or the intent can be read |
| `GatewayRestart.TornDownForever` | gateway/src/gw_main.c:716-721 | a torn start-up frame without an intent blocks every later start under every configuration, and nothing changes any more |
| `GatewayRestart.LossExact` | gateway/src/gw_main.c:604-608 | for every reachable state and accepted request, some continuation closes the call without evidence if and only if its input hash occurs in the last payload when the intent is written |
| `GatewayRestart.RepeatIsExposed` | gateway/src/gw_main.c:508-511 | right after a committed call the last payload names its hash, so the same prompt sent next is one that a crash can leave without evidence |
| `GatewayRestart.RepeatedPromptLost` | gateway/src/gw_main.c:604-608 | for every configuration with two calls to spend and every acceptable prompt, a run in which an oracle call ends without evidence |
| `GatewayRestart.CutIntentDecides` | gateway/src/gw_wal.c:31-55 | after a crash while an intent is written, some continuation serves again if and only if 86 bytes of it had reached the disk |
| `GatewayRestart.StuckForever` | gateway/src/gw_main.c:596-599 | an unreadable intent keeps every later start from serving and is neither cleared nor recorded, whatever happens |
| `GatewayRestart.CutIntentRun` | gateway/src/gw_main.c:596-599 | for every acceptable prompt, a run after which the gateway never serves again |
| `GatewayRequests.AcceptExact` | gateway/src/gw_main.c:240-312 | a request is accepted if and only if its prompt has 1 to max_prompt bytes of permitted code points, the three numbers are in range and a call is left; it then carries the normalised prompt, both given values, top_p or null, and no seed |
| `GatewayRequests.BudgetKept` | gateway/src/gw_main.c:306-312 | in every reachable state the process that is up has made at most call_budget calls, and an event adds one only below it |
| `GatewayRequests.LifeBudget` | gateway/src/gw_main.c:306-312 | the same for a process under any other configuration |
| `GatewayStages.CallsWithinBudget` | gateway/src/gw_main.c:385-386 | the counter is the number of calls that the run itself shows since the process started, and that number is within the budget |
| `GatewayRequests.OutcomeIs` | gateway/src/gw_main.c:406-464 | each kind of reply has its own outcome: TIMEOUT, INVALID_OUTPUT over the cap or for a body without text or stop_reason, TRANSPORT_ERROR for HTTP and transport failures, and otherwise the text, TRUNCATED exactly for max_tokens |
| `GatewayRequests.AnswerIsTold` | gateway/src/gw_main.c:406-506 | over every run, on the stored record: TIMEOUT if and only if the call timed out, TRANSPORT_ERROR if and only if it failed, INVALID_OUTPUT if and only if the body was over the cap, unusable or refused by admission, and no failure if and only if the answer itself is stored, with its text |
| `GatewayRequests.RunSame` | gateway/src/gw_wal.c:31-61 | over every run: the intent file stays as it is until it is removed, and another one is a new intent |
| `GatewayRequests.RecoveryTellsRequest` | gateway/src/gw_main.c:592-637 | over every run: the frame that a later start adds for a request in flight when its process stopped names the hash of its prompt and has its max_tokens, seed, temperature and top_p |
| `GatewayRequests.StartUpIsStored` | gateway/src/gw_main.c:742-762 | over every run: a start that goes through has added one AX:STATE:v1 frame in which a JSON reader finds the hash of the configuration file |
| `GatewayStages.StartExact` | gateway/src/gw_main.c:712-762 | whatever the disk does: a start ends accepting if and only if the ledger opens, a configured export is whole and synced, an intent that is there can be read, is evidenced or stored, and is removed and synced, and the start-up frame is stored |
| `GatewayStages.ExportStage` | gateway/src/gw_main.c:725-739 | a configured export that is not made, whole and synced stops the start |
| `GatewayStages.RecoverStage` | gateway/src/gw_main.c:592-637 | recovery goes on without an intent, stops at an unreadable one, skips an evidenced one, and stops at any other exactly when its record cannot be stored |
| `GatewayStages.ClearStage` | gateway/src/gw_main.c:638-641 | recovery goes on exactly when the intent is removed and that is synced |
| `GatewayStages.CommitStage` | gateway/src/gw_main.c:753-760 | the process serves exactly when the start-up frame is appended |
| `GatewayStages.RequestExact` | gateway/src/gw_main.c:314-335 | a request goes on to its call if and only if it is accepted and its whole intent is in a new, synced file; otherwise the process goes on serving, and what got to the disk is the beginning of that intent |
| `GatewayEvents.StepInv` | gateway/src/gw_main.c:217-829 | every event, and every life of a process under another configuration, keeps the whole invariant: file, intents, open intent, phase, export |
| `GatewayEvents.DownInv` | gateway/src/gw_main.c:670-685 | while no process is up, the invariant does not depend on the configuration |
| `GatewayEvents.RunInv` | gateway/src/gw_main.c:670-829 | every run keeps it |
| `GatewayEvents.RecoverInv` | gateway/src/gw_main.c:592-637 | recovery keeps it: it writes a frame only when none names the intent yet, or pays for it with a stop |
| `GatewayEvents.ClearInv` | gateway/src/gw_wal.c:57-61 | clearing keeps it: the intent that closes is evidenced or nothing is owed to it |
| `GatewayEvents.CommitInv` | gateway/src/gw_main.c:475-506 | the commit of an answer keeps it, over both attempts and every partial write |
| `GatewayEvents.RequestInv` | gateway/src/gw_main.c:314-335 | writing an intent keeps it, however much of the text reaches the disk |
| `GatewayEvents.WrittenIntent` | gateway/src/gw_wal.c:31-55 | whatever part of an intent got to the disk, recovery can only read that hash, and reads it exactly from 86 bytes on |
| `GatewayEvents.OpenFacts` | gateway/src/gw_ledger.c:75-141 | opening the ledger of a reachable state refuses exactly when the chain faults or the tail is torn without a readable intent, and otherwise yields exactly its frames |
| `GatewaySteps.AppendFacts` | gateway/src/gw_ledger.c:143-197 | all an append can do from a synchronised state: nothing, part of one frame, a whole frame with an error, or success in step with file and export |
| `GatewaySteps.CommitUnfold` | gateway/src/gw_main.c:167-213 | an admitted observation goes straight to the append: validation and the canonical buffer cannot refuse it |
| `GatewaySteps.CommitObsFacts` | gateway/src/gw_main.c:167-213 | a commit refuses before anything changed, or appends a well-formed record of that prompt with the next sequence number |
| `GatewaySteps.SecondRefused` | src/obs.c:202-207 | after an admitted record whose append failed the same process admits no other |
| `GatewayHistory.StepGrows` | gateway/src/gw_ledger.c:130-134 | about the history of a run: no event, under whatever configuration, removes a frame from it or rewrites an intent (`FileShape` and `FramesDurable` say what that means for the file) |
| `GatewayHistory.RunProbed` | gateway/src/gw_main.c:604-604 | what is remembered of the probe at the time of the intent is what the probe says of the frames before it |
| `GatewayProcess.Process.CommitObservation` | gateway/src/gw_main.c:167-213 | the imperative form takes exactly the step of the state machine: record, context, ledger and history |
| `GatewayProcess.Process.WalWrite` | gateway/src/gw_wal.c:31-55 | exclusive creation; the file holds the part of the text that was written; success exactly when all of it was and was synced |
| `GatewayProcess.Process.WalClear` | gateway/src/gw_wal.c:57-61 | the clearing step of the state machine; success exactly when the file is gone and synced |
| `GatewayProcess.Process.RecoverWal` | gateway/src/gw_main.c:592-641 | exactly the recovery and clearing steps |
| `GatewayProcess.Process.OpenLedger` | gateway/src/gw_main.c:712-739 | exactly the replay and export steps; a refusal leaves the disk as they do |
| `GatewayProcess.Process.StartUp` | gateway/src/gw_main.c:712-764 | the start-up order of `main` is the run of the five start events |
| `GatewayProcess.Process.Accept` | gateway/src/gw_main.c:240-312 | range checks, normalisation and budget decide as the request check of the state machine, which `AcceptExact` states field by field |
| `GatewayProcess.Process.WriteIntent` | gateway/src/gw_main.c:314-335 | the intent of an accepted request: exactly the request step, however much of the text gets to the disk |
| `GatewayProcess.Process.Intend` | gateway/src/gw_main.c:240-335 | steps 1 to 4 are exactly the request event; the request that goes on is sendable |
| `GatewayProcess.Process.CallOracle` | gateway/src/gw_main.c:343-391 | exactly the call step |
| `GatewayProcess.Process.Judge` | gateway/src/gw_main.c:406-464 | the outcome of a reply, computed by the scanner loops, is the one that `OutcomeIs` lists |
| `GatewayProcess.Process.CommitOutcome` | gateway/src/gw_main.c:475-506 | exactly the commit step with its fallback |
| `GatewayProcess.Process.HandleRequest` | gateway/src/gw_main.c:217-511 | one request is exactly the run of its four events, whatever the world does at each |
| `Frames.LeRoundTrip` | gateway/src/gw_ledger.c:55-73 | reading a little-endian integer of any width returns what was written |
| `Frames.ReadLittleEndian` | gateway/src/gw_ledger.c:60-64 | the loop reads the little-endian value |
| `Frames.WriteLittleEndian` | gateway/src/gw_ledger.c:70-73 | the loop leaves the little-endian bytes in the buffer |
| `Frames.ParseEncoded` | gateway/src/gw_ledger.c:98-121 | one frame followed by anything is read back as that frame and that rest |
| `Frames.ParseSound` | gateway/src/gw_ledger.c:98-121 | a frame that is accepted is valid and its bytes are the encoding |
| `Frames.CutFrameIsTorn` | gateway/src/gw_ledger.c:98-109 | every non-empty strict prefix of a frame is torn, never bad |
| `Frames.ReplayExact` | gateway/src/gw_ledger.c:75-141 | replay of any frames and a strict prefix of one more recovers exactly them, torn exactly when the prefix is not empty, refused exactly when that is not tolerated |
| `Frames.ReplayFromExact` | gateway/src/gw_ledger.c:90-128 | the same from any point of the replay, with the refusal when the chain faults |
| `Frames.ReplayFromSound` | gateway/src/gw_ledger.c:90-128 | conversely every file that replay accepts is such frames and such a tail |
| `Frames.ChainedFacts` | gateway/src/gw_ledger.c:117-125 | sequence, last payload and end offset after replay are those of the frames |
| `Frames.HeadExact` | gateway/src/gw_ledger.c:117-125 | the head after replay is the link of the commitments of the frames, in their order, from the genesis head of the substrate |
| `Frames.PyFramesExact` | tools/obs_v1_loss_check.py:191-211 | the Python reader returns the same frames on a whole file and raises on a torn one |
| `Frames.ReadFrames` | tools/obs_v1_loss_check.py:191-211 | the generator loop computes that reader |
| `DurableLedger.LedgerUnit.constructor` | gateway/src/gw_ledger.c:25-29 | a new process over the files on disk |
| `DurableLedger.LedgerUnit.GwlOpen` | gateway/src/gw_ledger.c:75-141 | the replay loop is `Open`: chain, last payload, truncation, refusal |
| `DurableLedger.LedgerUnit.WritePart` | gateway/src/gw_ledger.c:44-53 | a write leaves a prefix of the frame behind what was there |
| `DurableLedger.LedgerUnit.WriteFrame` | gateway/src/gw_ledger.c:161-167 | the five writes leave the first n bytes of the frame, for every n |
| `DurableLedger.LedgerUnit.GwlAppend` | gateway/src/gw_ledger.c:143-197 | the append is `Append`: file, export, chain and last payload |
| `DurableLedger.LedgerUnit.GwlExportEnable` | gateway/src/gw_ledger.c:201-233 | the copy loop leaves a prefix of the primary, all of it exactly when the export is enabled |
| `DurableLedger.LedgerUnit.GwlLastPayloadContains` | gateway/src/gw_ledger.c:239-252 | true exactly when the non-empty needle occurs in the last payload |
| `Wal.WalRoundTrip` | gateway/src/gw_wal.c:31-111 | recovering a written intent returns every field, INT32_MIN and the 64-bit seed included |
| `Wal.CutIntentExact` | gateway/src/gw_wal.c:75-111 | any prefix of an intent is recovered if and only if it has at least 86 bytes, and then with the same hash, never another |
| `Wal.WalTextFits` | gateway/src/gw_wal.c:40-45 | the intent text always fits the 768-byte buffer |
| `Wal.StrtolOf` | gateway/src/gw_wal.c:98-105 | `strtol` of a written 64-bit number is the number |
| `Wal.WalRecover` | gateway/src/gw_wal.c:75-111 | the line loop computes recovery |
| `WalRules.RecoverExact` | gateway/src/gw_wal.c:75-111 | for any file: refused unless some line is a model_id and the last input_hash has 64 characters; each field is that of the last line with its key, or null |
| `WalRules.FieldExact` | gateway/src/gw_wal.c:63-73 | a line is a field if and only if it is the key, an equals sign, and a value that is not empty and below the buffer size |
| `WalRules.OneLine` | gateway/src/gw_wal.c:93-105 | a line changes the field of its own key and no other |
| `WalRules.LineLenExact` | gateway/src/gw_wal.c:90-90 | `fgets` takes a line up to its line feed, 599 bytes, or the end of the file |
| `WalRules.TrimExact` | gateway/src/gw_wal.c:91-92 | exactly the line feeds and carriage returns at its end are cut |
| `WalRules.StrtolExact` | gateway/src/gw_wal.c:98-105 | `strtoll` of any text: white space, sign and digits give the clamped number, no digits zero |
| `RequestBody.MicroExact` | gateway/src/gw_main.c:71-79 | the decimal of a Q16.16 value is the exact value rounded down to a millionth |
| `RequestBody.MicroStrict` | gateway/src/gw_main.c:71-79 | it is strictly monotone |
| `RequestBody.ReadQ16Of` | gateway/src/gw_main.c:71-79 | the original integer is recovered from the text |
| `RequestBody.BodyIsDocument` | gateway/src/gw_main.c:343-376 | the formatted body is exactly the document with the given members, whatever the identifier and the prompt contain |
| `RequestBody.BodyModel` | gateway/src/gw_main.c:343-376 | it is one JSON value and nothing more, and `gwj_top_string` finds the configured model in it |
| `RequestBody.BodyFits` | gateway/src/gw_main.c:85-91 | it always fits the allocated buffer |
| `RequestBody.ReqPut` | gateway/src/gw_main.c:93-106 | the text is appended at the offset exactly when it fits |
| `RequestBody.BuildBody` | gateway/src/gw_main.c:343-376 | building fails exactly when a string is not UTF-8; the buffer then holds the body text |
| `WrittenTexts.BodyRead` | gateway/src/gw_main.c:343-376 | a JSON reader finds in the body exactly the model, max_tokens, each parameter under its own name or not at all if it is null, and the prompt as the one user message |
| `WrittenTexts.PayloadRead` | gateway/src/gw_main.c:750-757 | a JSON reader finds in the start-up payload the component, the hash of the configuration file and the type, and nothing else |
| `Obs.AdmitExact` | src/obs.c:185-353 | AX_OK if and only if ordering, identifiers, schema, encoding and output buffer are right (an empty output needs no buffer), the commitment does not fault, and the complete record is at most 65,536 bytes |
| `Obs.AdmittedIsWellRecorded` | src/obs.c:185-353 | what every admitted record satisfies |
| `Obs.AdmittedValidates` | src/obs.c:368-452 | every admitted record validates |
| `Obs.FallbackAdmitted` | src/obs.c:125-156 | the empty ERROR record is admitted whenever it is in order |
| `Obs.EmptyRecordLength` | src/canonical.c:342-433 | its canonical text is below 2000 bytes |
| `Obs.ContainsInputHash` | src/canonical.c:342-433 | every canonical record contains the hexadecimal form of its own input hash |
| `Obs.HashLength` | src/hash.c:62-96 | putting a hash into the text adds exactly its length |
| `Obs.SealKeepsText` | src/hash.c:62-96 | hashing does not change the text that was hashed, and the complete text is 64 bytes longer |
| `Obs.IdentifierCheck` | src/obs.c:49-178 | AX_ERR_SIZE, AX_OK or AX_ERR_SCHEMA exactly as length against the given bound, control bytes and UTF-8 say |
| `ObsRules.CleanTextExact` | src/validate.c:245-280 | a text passes if and only if it is UTF-8 without controls other than LF and CR, DEL, or marks of the four combining blocks |
| `ObsRules.LinesRules` | src/validate.c:113-145 | CR LF is one line feed, a CR before anything else is one, text without CR stays |
| `ObsRules.IdExact` | src/obs.c:49-95 | an identifier is in order if and only if it is there, not empty, UTF-8, and without control bytes and DEL |
| `ObsRules.StoredIsDraft` | src/obs.c:245-318 | the record field by field: an output over 64,512 bytes is cut and marked TRUNCATED with its original size, line endings are normalised, an absent or empty input has the zero hash |
| `ObsRules.AdmitCodes` | src/obs.c:185-353 | every return code with its condition, in the order of the checks |
| `ObsRules.ValidateCodes` | src/obs.c:368-452 | every return code with its condition, in the order of the checks; AX_OK only if the stored hash is the commitment to the record with an empty hash |
| `ObsRules.ValidIsSealed` | src/obs.c:424-449 | a record that validates is its own sealed form |
| `ObsRules.AlteredIsRefused` | src/obs.c:368-452 | an admitted record with another hash, schema name, impossible size or unstorable output is refused, each with its own code |
| `ObsRules.TamperEvident` | src/obs.c:424-449 | any other record that validates under the hash of an admitted one shows two different texts with the same commitment |
| `Admission.ComputeHash` | src/hash.c:62-96 | the record with the commitment to its text under a blank hash, or a blank hash and the error |
| `Admission.TakeOutput` | src/obs.c:245-286 | the normalised output and its size, or ERROR / INVALID_OUTPUT; the encoding and size flags exactly |
| `Admission.CopyFields` | src/obs.c:288-318 | the fields copied from the input complete the draft |
| `Admission.SealAndMeasure` | src/obs.c:323-344 | hashed and at most 65,536 bytes, or no hash and the right code; the size and protocol flags exactly |
| `Admission.Admit` | src/obs.c:185-353 | the return code is the one of `AdmitCodes`; on success the sealed draft and the advanced context; otherwise no hash and the context unchanged; all five fault flags exactly |
| `Admission.ObsValidate` | src/obs.c:368-452 | the return code is the one of `ValidateCodes`, and all five fault flags exactly |
| `RecordParser.ReadCanon` | src/canonical.c:342-433 | a parser recovers every field from the canonical text, null sentinels and escaped strings included |
| `RecordParser.CanonInjective` | src/canonical.c:342-433 | records with equal canonical bytes agree on every field |
| `RecordParser.BlankInjective` | src/canonical.c:342-433 | records whose texts under a blank hash are equal agree on every field but the hash |
| `Canonical.ParamsFacts` | src/canonical.c:235-283 | the parameters text is printable and below the 256-byte buffer that is used for it |
| `Writer.WriteCtx.constructor` | src/canonical.c:31-37 | an empty text |
| `Writer.WriteCtx.WriteChar` | src/canonical.c:39-46 | the abstract text grows by the byte, written or not |
| `Writer.WriteCtx.WriteStr` | src/canonical.c:48-53 | the abstract text grows by the string |
| `Writer.WriteCtx.WriteEscaped` | src/canonical.c:187-215 | the abstract text grows by the string as `EscapedIsRule` writes it |
| `Writer.WriteCtx.Finish` | src/canonical.c:55-62 | the whole text and its NUL exactly when it fits in size - 1, AX_ERR_BUFFER otherwise |
| `Writer.ParamsCanonicalise` | src/canonical.c:235-283 | the bounded writer refines the parameters text |
| `Writer.ObsCanonicalise` | src/canonical.c:342-433 | the bounded writer refines the record text; the 24-byte number buffers always suffice |
| `Numbers.TakeIntOf` | src/canonical.c:71-142 | a written integer of any sign is read back |
| `Numbers.IntTextBound` | src/canonical.c:71-142 | 64-bit numbers take at most 20 bytes |
| `Numbers.ReverseDigits` | src/canonical.c:85-98 | the digit loop leaves the decimal reversed in the temporary |
| `Numbers.CopyReversed` | src/canonical.c:99-111 | reversal into the destination exactly when it fits |
| `Numbers.FormatInt64` | src/canonical.c:71-112 | the decimal and its NUL, or AX_ERR_BUFFER, INT64_MIN included |
| `Numbers.FormatUint64` | src/canonical.c:117-142 | the same for unsigned numbers |
| `Numbers.FormatHashHex` | src/canonical.c:155-171 | the lower-case hexadecimal text, or AX_ERR_BUFFER |
| `Numbers.TakeHexOf` | src/canonical.c:155-171 | it is read back |
| `Utf8.LenAgree` | gateway/src/gw_json.c:50-67 | the byte-table step and the code-point step agree on every input |
| `Utf8.StepSound` | src/validate.c:27-73 | an accepted step is the encoding of a scalar value |
| `Utf8.StepComplete` | src/validate.c:27-73 | the encoding of every scalar value is accepted, before anything |
| `Utf8.EncodedIsValid` | gateway/src/gw_json.c:143-161 | every concatenation of encodings is accepted and decodes to its code points |
| `Utf8.ValidUtf8Exact` | src/validate.c:27-73 | accepted exactly when a concatenation of encodings of scalar values (sections 3 and 4 of RFC 3629) |
| `Utf8.PutUtf8Accepted` | gateway/src/gw_json.c:143-161 | `put_utf8` of any scalar value is accepted by both validators |
| `Utf8.ValidateUtf8` | src/validate.c:27-73 | the loop decides exactly UTF-8 |
| `Utf8.TableValidate` | gateway/src/gw_json.c:72-83 | so does the table loop |
| `Normalise.ContainsForbiddenControl` | src/validate.c:85-102 | finds a forbidden byte exactly when there is one |
| `Normalise.NormaliseLineEndings` | src/validate.c:113-145 | succeeds exactly when the normalised text fits, which the buffer then holds with its NUL |
| `Normalise.LinesOnCodePoints` | src/validate.c:113-145 | normalising bytes is normalising code points |
| `Normalise.LinesKeepsUtf8` | src/validate.c:113-145 | normalisation preserves UTF-8 |
| `Normalise.LinesIdempotent` | src/validate.c:113-145 | it is idempotent |
| `Normalise.IsNfc` | src/validate.c:164-214 | the loop computes the scan |
| `Normalise.NfcMeaning` | src/validate.c:164-214 | on UTF-8 it rejects exactly the texts with a combining mark of the tested ranges |
| `Normalise.ValidateEncoding` | src/validate.c:223-234 | AX_OK exactly for UTF-8 that passes the scan |
| `Normalise.CleanHasNoNul` | src/validate.c:245-280 | a text that passes has no NUL, so strlen is the normalised length |
| `Normalise.ValidateAndNormalise` | src/validate.c:245-280 | return code, buffer and fault flags |
| `JsonString.DecodeQuoted` | gateway/src/gw_json.c:163-214 | decoding inverts writing, whatever escapes were chosen and whatever follows; it fails exactly when the text does not fit |
| `JsonString.DecodeSound` | gateway/src/gw_json.c:163-214 | whatever is decoded was a written string with that text |
| `JsonString.SkipAgrees` | gateway/src/gw_json.c:99-116 | wherever decoding succeeds, skipping stops at the same position |
| `JsonString.SkipQuoted` | gateway/src/gw_json.c:99-116 | skipping consumes exactly any string, the units it does not look into being arbitrary |
| `JsonString.SkipStringSound` | gateway/src/gw_json.c:99-116 | whatever is skipped is such a string |
| `JsonString.EscapeRoundTrip` | gateway/src/gw_json.c:14-44 | decoding a quoted escape returns the original bytes, for every byte string and both escapers |
| `JsonString.EscapedLength` | gateway/src/gw_json.c:14-44 | at most six bytes for one, two if there is no control byte |
| `JsonString.EscapedIsRule` | src/canonical.c:187-215 | byte for byte: quote and backslash behind a backslash, a control byte as \u00 and two lower-case digits, anything else as itself; request bodies differ exactly in \n, \r and \t |
| `JsonString.EscapedPrintable` | src/canonical.c:187-215 | no control byte in the escaped text |
| `JsonString.EscapedKeepsUtf8` | gateway/src/gw_json.c:72-83 | escaping preserves UTF-8 |
| `JsonString.PutBytes` | gateway/src/gw_json.c:143-161 | bytes are appended exactly when they fit |
| `JsonString.GwjEscape` | gateway/src/gw_json.c:14-44 | the escaped text, or -1 exactly when it does not fit |
| `JsonString.GwjEscapeUtf8` | gateway/src/gw_json.c:72-83 | the same for UTF-8; anything else is refused before a byte is written |
| `JsonString.ScanSkipString` | gateway/src/gw_json.c:99-116 | the loop computes the skip |
| `JsonString.ScanDecodeString` | gateway/src/gw_json.c:163-214 | the loop computes the decoding, into the buffer at its fill |
| `JsonDoc.SkipWritten` | gateway/src/gw_json.c:217-252 | `s_skip_value` consumes exactly any written value, loose strings included, if and only if it does not reach below depth 64 |
| `JsonAccepted.SkipValueExact` | gateway/src/gw_json.c:217-252 | for arbitrary bytes: it succeeds and stops at k if and only if the text is white space, one loose value at most 64 levels deep, and k, not inside a token |
| `Messages.ContentTextWritten` | gateway/src/gw_json.c:291-376 | exactly the concatenated text of the text blocks, for any white space, member order, extra members and escapes; None exactly when there is no content member or the text does not fit |
| `BlocksAccepted.BlockDocWritten` | gateway/src/gw_json.c:318-357 | a block of the accepted form is walked to its end and adds its decoded text, or fails exactly when that does not fit |
| `BlocksAccepted.BlockDocSound` | gateway/src/gw_json.c:318-357 | every block that is accepted has that form and adds that text |
| `MessagesAccepted.ContentTextExact` | gateway/src/gw_json.c:291-376 | for arbitrary bytes: `gwj_content_text` returns a text if and only if the body has the accepted form and the text is that of its text blocks, and fits |
| `MessagesAccepted.TrailingComma` | gateway/src/gw_json.c:301-304 | a top-level object that ends in a comma is accepted, and so is anything behind it |
| `Messages.TopStringWritten` | gateway/src/gw_json.c:257-288 | the string of the first member with the key; None exactly when there is none, it is not a string, or it does not fit |
| `TopAccepted.TopStringExact` | gateway/src/gw_json.c:257-288 | for arbitrary bytes: `gwj_top_string` returns a string if and only if the body is an object that begins with members it can pass over, then one with the key and that string, and it fits; anything may follow |
| `JsonScan.ContentFits` | gateway/src/gw_json.c:291-376 | what is returned fits the buffer |
| `JsonLoops.ScanWs` | gateway/src/gw_json.c:91-97 | the loop skips white space |
| `JsonLoops.ScanToken` | gateway/src/gw_json.c:244-250 | the loop consumes a token |
| `JsonLoops.ScanSkipValue` | gateway/src/gw_json.c:217-252 | the recursive scanner computes the skip and terminates |
| `JsonLoops.ScanSkipItems` | gateway/src/gw_json.c:227-242 | its item loop |
| `JsonLoops.GwjTopString` | gateway/src/gw_json.c:257-288 | the loop computes the lookup and terminates the buffer |
| `JsonLoops.ScanBlock` | gateway/src/gw_json.c:318-353 | one content block, its type and the place of its text |
| `JsonLoops.ScanBlocks` | gateway/src/gw_json.c:317-363 | the content array |
| `JsonLoops.GwjContentText` | gateway/src/gw_json.c:291-376 | the loop computes the content text |
| `RecordDoc.CanonIsDocument` | src/canonical.c:342-433 | the canonical text is exactly the JSON document with the eleven members, whatever the strings contain |
| `RecordDoc.KeysSorted` | src/canonical.c:342-433 | its members are in the strict order of their keys (section 3.2.3 of RFC 8785) |
| `RecordReading.CanonUtf8` | src/canonical.c:342-433 | it is UTF-8 if the strings are |
| `RecordReading.Reading` | tools/obs_v1_loss_check.py:162-184 | what the document of a record holds under each key the checker looks at |
| `RecordReading.LoadsCanon` | tools/obs_v1_loss_check.py:165-168 | reading the canonical bytes of a record returns the value of its document |
| `JsonReader.ReadWritten` | tools/obs_v1_loss_check.py:165-168 | the reader on any RFC 8259 document returns the value it denotes and stops right behind it |
| `JsonReader.LoadsWritten` | tools/obs_v1_loss_check.py:165-168 | the same for the whole text with white space around it |
| `JsonReader.ReadOneAgrees` | tools/obs_v1_loss_check.py:165-168 | the reader agrees with the decoder of the gateway on every string unit that one accepts, control bytes apart |
| `JsonReader.ScalarIsToken` | gateway/src/gw_json.c:244-250 | every number and name of RFC 8259 is one token of the scanner |
| `JsonReader.TokenBytesExact` | gateway/src/gw_json.c:244-250 | the token characters are exactly those of some number or name, and NUL |
| `LossCheck.Signatures` | tools/obs_v1_loss_check.py:162-184 | the list that is built is the signatures in precedence order |
| `LossCheck.Precedence` | tools/obs_v1_loss_check.py:136-188 | all labels are findings or there is one; a loss is never hidden behind an anomaly; no label twice; unparseable and not-an-observation exactly when they are |
| `LossCheck.LabelsExact` | tools/obs_v1_loss_check.py:146-184 | for any parsed value with the schema name: each label if and only if the values under the keys say so, True counting as a positive size, and the labels in their precedence order |
| `LossCheck.SignaturesExact` | tools/obs_v1_loss_check.py:146-184 | for every serialised record, admitted or historical, the checker reports on its canonical bytes exactly the signatures its fields have |
| `LossCheck.CategoriesExact` | tools/obs_v1_loss_check.py:136-184 | a record counts as a loss exactly for its output, identifiers or size, and as an anomaly exactly for a pair that is not permitted |
| `LossCheck.AdmittedIsOk` | tools/obs_v1_loss_check.py:162-188 | every admitted record, read from its canonical bytes, is classified OK |
| `LossCheck.AdmittedIsDocument` | src/canonical.c:342-433 | its payload is UTF-8 and is the text of its document |
| `LossCheck.Categories` | tools/obs_v1_loss_check.py:235-236 | the set of categories of the labels |
| `LossCheck.CountFindings` | tools/obs_v1_loss_check.py:227-236 | the counting loop computes the summary |
| `LossCheck.SummaryFacts` | tools/obs_v1_loss_check.py:227-240 | each category at most the defects, the defects at most their sum, no defects exactly when no record has a finding |
| `LossCheck.SummaryExact` | tools/obs_v1_loss_check.py:227-240 | the counters are the numbers of records, of those with a finding, and of those with a label of each category |
| `LossCheck.ReportExact` | tools/obs_v1_loss_check.py:214-240 | exit 3 if and only if some observation frame has a finding, 0 otherwise, an error exactly for a file that is not whole frames |
| `LossCheck.CheckFrames` | tools/obs_v1_loss_check.py:214-240 | the report on a frame file |
| `LedgerCheck.LedgerChecksClean` | tools/obs_v1_loss_check.py:214-240 | on the bytes of the ledger of any run: an error if it is torn, otherwise every observation frame counted, no defect, exit 0 |

## Left out

- The libcurl transfer, retry sleep and jitter, and URL checks (gateway/src/gw_client.c): the oracle is a nondeterministic reply.
- Sockets, the line protocol, signals, sd_notify, the log file, the fixture capture and the response to the caller: I/O only.
- Changes of the ledger, intent and export paths: every configuration of a run names the same three files.
- The configuration parser: `ConfigOk` takes what it guarantees of identifiers and sizes as given.
- SHA-256, `axilog_commit`, `ax_commit_evidence` and the chain code: uninterpreted; no statement needs that they do not collide.
- `gwj_error_message`, `ax_compute_derivation_hash`, the input setters of src/admission.c and `ax_format_q16`: only easy members.
- Read errors during replay: gateway/src/gw_ledger.c:103-109 treats them like a torn tail; the model has short reads only at the end of the file. A start whose ftruncate fails changes nothing and is not an event.
- Directory syncs: create and unlink are steps that succeed or fail; an unlink whose directory sync fails counts as removed.
- Full Unicode NFC: `ax_is_nfc` is modelled as the range test it is.
- RFC 8785 conformance of strings: the code follows its own rule.
- The 64-bit wrap of sequence numbers: sequence numbers are natural numbers, and the statements about admission, the process class and progress assume that the next one is below 2^64.
- Python's `json.loads`: `JsonReader.Loads` stands for it, with NaN, Infinity and lone surrogates as Python has them; the limits of the interpreter on nesting and on the digits of an integer are not modelled. The --jsonl input is not modelled.
- The history of a run is updated by the specification of an append, in the process class as in the state machine; it is ghost there.
