# Intake: a verified model

Intake is a client-intake platform with a hosted half (quotes, uploads, a sync API for operator devices) and a local half
(a console with a secure unlock and a file receiver). This project models the stateful services of both halves in Dafny
and proves what they keep over every run.

| files | part of the system |
|---|---|
| `PathSanitizer`, `StoragePaths` | names and paths of the local receiver's storage |
| `ReceiverModels`, `ReceiverState`, `ReceiverService`, `ReceiverInvariant`, `ReceiverCleanup`, `ReceiverRaises`, `ReceiverTheorems`, `ReceiverAnswers` | the local upload receiver: sessions, buffered and streamed uploads, completion, garbage collection |
| `JsonText`, `PyJson`, `JsonLoads` | canonical JSON text: printer, reader, Python's normal form |
| `ActionEnvelope`, `CanonicalFields`, `ActionVerification`, `ActionAnswers`, `SyncApi` | signed device actions: the signed bytes, replay-safe verification, dispatch |
| `Redaction`, `RedactedFields`, `KeyRule` | redaction of provider configurations |
| `UnlockWindow`, `SecureUnlock`, `UnlockHistory` | the authorization window and its challenges |
| `QuoteStates`, `QuoteLog`, `UploadBroker`, `BrokerAnswers`, `UploadQuota`, `HostedAnswers` | quotes with their event log, upload sessions and receipts, the upload quota |
| `CostLedger` | cost scenarios, totals and breakdowns |
| `Base64Codec`, `CryptoService` | base64url and the framing of encrypted payloads |
| `Prelude` | shared result types and sequence helpers |

Where the source changes state, the model has a class whose methods are proved to compute a function of the old state
(`Model() == F(old(Model()), ...)`); runs are folds of those functions, and the theorems are about all runs. Time is an
argument of every call, ids and random tokens are arguments that are new, the database and the disk are maps. Ed25519,
SHA-256, AES-GCM, `str.lower` and the regular-expression engine are parameters; what is assumed of them is a `requires`
of the lemma that needs it.

Where the code falls short of what its comments say, the model follows the code and proves how far the promise holds:

- An empty streamed file is rejected but stays on disk, and a file without a record makes garbage collection raise
  `KeyError`, because the counter is created under one spelling and incremented under another (storage.py, lines 342 and
  349). `CleanupExact` says exactly when a cleanup succeeds; `EmptyStreamLeavesStray` and `EmptyStreamBreaksCleanup` give
  the failing family. Each raise deletes one stray, so they run out (`StraysRunOut`).
- A cleanup that raises has already deleted the records of the session it raises at, completed or not, and keeps the
  session with its total. So totals match the records exactly in sessions without uploads and those at which no cleanup
  raised (`TotalsExact`, `TotalIsLost`), and a completed session loses records exactly that way (`SealedLosesExactly`).
- A negative declared size skips the type checks of a streamed upload: `StreamNegativeSize`.
- A session's own allowlists are never enforced: `SessionListsIgnored`.
- A non-string configuration value whose text is 33 to 40 token characters is shown by one redaction and hidden by a
  second: `SanitizeIdempotent` has the exact condition, `LongNumberSlips` an example.
- The first pass does not look at the strings of a list, so a token of 33 to 40 characters is hidden under a key and shown
  in a list: `LongTokensShown` says exactly which tokens are shown, `ListTokenShown` gives an example.
- The written paths of the field list are ambiguous when a key holds a dot or a bracket: `RenderInjective` says when they
  are not.
- `QuoteRepository.update` never stores the owner (`OwnerIsNeverStored`), and a handler that writes back a stale copy takes a
  status back (`StaleWriteExact`, `LostUpdate`).
- The broker does not hold receipts to its session's limits: `LimitsAreNotChecked`.
- The quota is checked before the new file is counted: the bound is 681574399 bytes and not 524288000 (`QuotaHolds`,
  `QuotaIsTight`).
- A scenario's overall quality never leaves UNKNOWN: `RunBalanced`. A receipt for a scenario whose totals were never
  computed raises an error: `GenerateReceipt`.
- Lone surrogates: two strings may be signed alike (`SurrogatesCollide`), and a string that spells a surrogate pair as two
  characters does not survive encryption (`DecryptUndoesEncrypt`).
- An upload root of "/" fails its own containment test for every file: `PrefixTestExact`.

## Model

| member | source | states |
|---|---|---|
| PathSanitizer.RemovePairsIsRunParity | src/intake/local_console/receiver/storage.py:81-83 | one `replace("..", "")` turns every maximal run of n dots into n mod 2 dots |
| PathSanitizer.OnePassRemovesAllPairs | src/intake/local_console/receiver/storage.py:81-83 | after one pass no ".." is left, so the loop ends after it |
| PathSanitizer.SanitizeIsClean | src/intake/local_console/receiver/storage.py:68-94 | the result is non-empty, of allowed characters, without ".." and "__", and is "_" or has no "_" or "." at either end; the letters, digits and hyphens of the input survive in order |
| PathSanitizer.GapBetweenWords | src/intake/local_console/receiver/storage.py:78-92 | between two runs of letters, digits and hyphens a separator vanishes, a dot stays, and any other character becomes one underscore |
| PathSanitizer.SanitizeFixpoints | src/intake/local_console/receiver/storage.py:68-94 | sanitizing leaves a text alone exactly when it already has that form |
| PathSanitizer.SanitizeIdempotent | src/intake/local_console/receiver/storage.py:68-94 | sanitizing twice is sanitizing once |
| PathSanitizer.SanitizeHexIdentity | src/intake/local_console/receiver/storage.py:68-104 | generated hex ids are their own sanitized form |
| PathSanitizer.SanitizePathComponent | src/intake/local_console/receiver/storage.py:68-94 | the method with the removal loop terminates and computes the sanitizing function, for every text |
| StoragePaths.PrefixTestExact | src/intake/local_console/receiver/storage.py:124-130 | the string prefix test accepts exactly the root and what lies below it component by component; below "/" it accepts nothing but the root |
| StoragePaths.GeneratedPathContained | src/intake/local_console/receiver/storage.py:62-66 | for every session id, hex file id and plain extension the generated path is strictly inside the session directory, that one strictly inside the root, and the containment test passes |
| StoragePaths.StorageNamePlain | src/intake/local_console/receiver/storage.py:106-122 | the storage name is the file id, a dot and the extension, or the file id alone |
| StoragePaths.StorageNameInjective | src/intake/local_console/receiver/storage.py:106-122 | storage names agree exactly when file id and extension agree |
| StoragePaths.GeneratedPathsDistinct | src/intake/local_console/receiver/storage.py:145-158 | paths of hex sessions and files agree exactly when session, file and extension agree |
| ReceiverModels.InvertTable | src/intake/local_console/receiver/models.py:58-62 | the nested loop fills the extension dictionary that the row-by-row definition gives |
| ReceiverModels.InvertedExact | src/intake/local_console/receiver/models.py:58-62 | when no extension is listed for two types the filled dictionary is exactly the inverse of the table |
| ReceiverModels.TableNoConflict | src/intake/local_console/receiver/models.py:45-62 | the receiver's table lists no extension for two types |
| ReceiverModels.InvertedEntry | src/intake/local_console/receiver/models.py:45-62 | an extension the dictionary assigns to a type is an entry of that type in the table, without its dot |
| ReceiverModels.CanonicalEntry | src/intake/local_console/receiver/service.py:348-353 | the fallback extension of an allowed type is an entry of that type |
| ReceiverAnswers.SplitExtExact | src/intake/local_console/receiver/service.py:315-324 | the extension found is the one that runs from the last dot to the end, in the last component, after a character that is no dot; nothing is found exactly when there is none |
| ReceiverAnswers.TypeVerdict | src/intake/local_console/receiver/service.py:308-355 | from the table alone: accepted exactly when the type is in the table and the filename has no extension or one listed for the type; DISALLOWED_CONTENT_TYPE, DISALLOWED_EXTENSION and EXTENSION_MISMATCH exactly when the type is in no row, no row lists the extension, another type's row lists it; the stored extension is the filename's own, or the first of the type's row |
| ReceiverAnswers.ValidationExact | src/intake/local_console/receiver/service.py:263-355 | in every reachable state each rejection is given exactly when its condition holds and no earlier one does; an expired session is never found as such |
| ReceiverAnswers.UploadStores | src/intake/local_console/receiver/service.py:357-445 | a buffered upload is stored exactly when the session is open, it fits the limits and its name suits its type; the record, counters and bytes are the request's own, in this session only |
| ReceiverAnswers.CreationExact | src/intake/local_console/receiver/service.py:113-182 | every creation error exactly when its condition holds; a created session is active, empty and carries the request's own data |
| ReceiverAnswers.CompletionExact | src/intake/local_console/receiver/service.py:207-257 | completed exactly when the session has not expired, was not completed before, and the request names its own quote; every error exactly when its condition holds |
| ReceiverAnswers.CollectedExactly | src/intake/local_console/receiver/service.py:596-627 | a cleanup that succeeds takes exactly the sessions whose expiry has passed, whatever their status, and counts them |
| ReceiverAnswers.LookupExact | src/intake/local_console/receiver/service.py:184-205 | a lookup finds exactly the sessions that have not expired; a late one marks the session expired, even a completed one, and changes nothing else |
| ReceiverAnswers.CleanupStatuses | src/intake/local_console/receiver/service.py:606-614 | a session that stays after a cleanup is as it was, but the one it raised at is marked expired unless it was completed |
| ReceiverService.LocalReceiverService.CreateSession | src/intake/local_console/receiver/service.py:113-182 | the new session map, directory and answer, error cases in the order of the code |
| ReceiverService.LocalReceiverService.GetSession | src/intake/local_console/receiver/service.py:184-205 | an expired session is marked before the lookup fails; nothing else changes |
| ReceiverService.LocalReceiverService.ValidateFileUpload | src/intake/local_console/receiver/service.py:263-355 | verdict and state of the validation function |
| ReceiverService.LocalReceiverService.CopyChunks | src/intake/local_console/receiver/storage.py:208-266 | for every chunk size the loop copies the whole remaining stream, and its counter and digest input are those of the whole content |
| ReceiverService.LocalReceiverService.StreamStoreFile | src/intake/local_console/receiver/storage.py:208-272 | the content ends under the storage name, size and digest are those of the content, no temporary file remains |
| ReceiverService.LocalReceiverService.ProcessFileUpload | src/intake/local_console/receiver/service.py:357-445 | the state after a buffered upload, whole, and the outcome |
| ReceiverService.LocalReceiverService.ProcessStreamedFileUpload | src/intake/local_console/receiver/service.py:447-586 | the state after a streamed upload, whole, and the outcome, for every chunk size |
| ReceiverService.LocalReceiverService.CompleteSession | src/intake/local_console/receiver/service.py:207-257 | the session is marked, the receipt gathered, all else unchanged |
| ReceiverService.LocalReceiverService.CleanupExpiredSessions | src/intake/local_console/receiver/service.py:596-627 | the loop over the expired sessions, its count, and the state in which a raised error leaves it: earlier sessions gone, the records of the one it raises at gone, one listed file of its directory deleted |
| ReceiverTheorems.RunInv | src/intake/local_console/receiver/service.py:113-627 | in every reachable state: file counts and totals within the session's limits, files distinct and owned by one session, sizes between 1 and the maximum, every record's bytes and digest on disk, and a session's records either all there and adding up to its total or all gone |
| ReceiverTheorems.TotalsExact | src/intake/local_console/receiver/service.py:113-627 | in every reachable state a session's records are all there and add up to its total exactly when it has no uploads or no cleanup of the run raised at it |
| ReceiverTheorems.LiveIsIntact | src/intake/local_console/receiver/service.py:113-627 | a session that has not expired has all its records, and they add up to its total |
| ReceiverTheorems.IntactWithoutEmptyStreams | src/intake/local_console/receiver/service.py:113-627 | in a run without empty streams every session has all its records, and they add up to its total |
| ReceiverTheorems.TotalIsLost | src/intake/local_console/receiver/service.py:606-625 | the failing run: one byte uploaded, an empty stream, a cleanup after expiry; the session stays with a total of 1 and no record |
| ReceiverTheorems.RunTyped | src/intake/local_console/receiver/service.py:308-355 | in every run without a negative declared size every record's extension is in its content type's table entry |
| ReceiverTheorems.RunWithoutEmptyStreams | src/intake/local_console/receiver/service.py:521-527 | a run that streams no empty file leaves no stray bytes, and every later cleanup succeeds |
| ReceiverTheorems.EmptyStreamLeavesStray | src/intake/local_console/receiver/service.py:521-527 | every empty stream that passes the first check is rejected and leaves a stray file |
| ReceiverTheorems.EmptyStreamBreaksCleanup | src/intake/local_console/receiver/storage.py:335-359 | after it, the next cleanup past the session's expiry raises |
| ReceiverRaises.CleanupKeepsOthers | src/intake/local_console/receiver/service.py:606-625 | a cleanup raises exactly when there is a session it raises at; that one stays with uploads and total and loses every record, and every other session that stays keeps its records, its total and its bytes |
| ReceiverRaises.RaiseRemovesOneStray | src/intake/local_console/receiver/storage.py:346-351 | a raising cleanup deletes exactly one stray file, in the session it raises at |
| ReceiverRaises.StraysRunOut | src/intake/local_console/receiver/storage.py:335-359 | with n strays in the expired sessions, the first n cleanups raise and every further one succeeds |
| ReceiverCleanup.CleanupExact | src/intake/local_console/receiver/service.py:596-627 | cleanup succeeds exactly when no expired session has stray files; it then removes exactly the expired sessions with their records and files, counts them, and leaves the rest untouched |
| ReceiverCleanup.CleanupKeepsLive | src/intake/local_console/receiver/service.py:596-627 | live sessions, their records and files survive every cleanup, even one that raises |
| ReceiverTheorems.StreamRefinesBuffered | src/intake/local_console/receiver/service.py:447-586 | with the declared size absent or right, the streamed path accepts exactly what the buffered path accepts, with the same record and the same final state |
| ReceiverTheorems.StreamMatchesBuffered | src/intake/local_console/receiver/service.py:447-586 | for any positive declared size the streamed path accepts exactly when the buffered one does and the declared size fits |
| ReceiverTheorems.StreamNegativeSize | src/intake/local_console/receiver/service.py:474-487 | with a declared size that is not positive only session state and limits decide, and what is stored has no listed extension |
| ReceiverTheorems.SessionListsIgnored | src/intake/local_console/receiver/service.py:308-340 | the verdict is the same with the session's allowlists emptied |
| ReceiverTheorems.CompletionReceiptExact | src/intake/local_console/receiver/service.py:207-257 | a completion receipt lists the session's files in order, and its counts are the session's counters |
| ReceiverTheorems.CompletesAtMostOnce | src/intake/local_console/receiver/service.py:207-257 | in any run a session completes at most once and is sealed from then on |
| ReceiverTheorems.SealedStep | src/intake/local_console/receiver/service.py:184-302 | a completed or expired session stays so; no operation changes its uploads, its total, its records (none lost, none new, none changed) or its bytes while it stays, except that a cleanup raising at it takes all its records |
| ReceiverTheorems.SealedForever | src/intake/local_console/receiver/service.py:184-302 | over any further run and until it is collected, a completed or expired session keeps uploads and total, and each record and every byte if no cleanup raised at it since; if one did, it has no record left |
| ReceiverTheorems.SealedLosesExactly | src/intake/local_console/receiver/service.py:606-625 | a sealed session that stays loses a record it had exactly when a cleanup raised at it since |
| ReceiverTheorems.NoRevival | src/intake/local_console/receiver/service.py:113-151 | a collected session id does not come back |
| JsonText.ParsePrint | src/intake/sync/models.py:162-173 | every JSON tree is read back from its compact text |
| JsonText.PrintInjective | src/intake/sync/models.py:172 | two trees have the same text exactly when they are the same tree |
| PyJson.LexExact | src/intake/sync/models.py:172 | keys are ordered by the first code point that differs, a prefix first |
| PyJson.SortFacts | src/intake/sync/models.py:172 | the sorted entries are the same entries, in strictly ascending order of keys when these are distinct |
| PyJson.NormalizeExact | src/intake/sync/models.py:162-172 | values without lone surrogates have the same normal form exactly when they are equal up to the order of keys at any depth |
| PyJson.DumpsExact | src/intake/sync/models.py:172 | such values have the same sorted `json.dumps` text exactly when they are equal up to key order |
| PyJson.SurrogatesCollide | src/intake/sync/models.py:172 | with lone surrogates two different strings are written alike |
| ActionEnvelope.IssuedAtExact | src/intake/sync/models.py:158-159 | two timestamps are written alike exactly when they agree to the millisecond |
| ActionEnvelope.CanonicalPayloadExact | src/intake/sync/models.py:155-173 | two envelopes have the same signed bytes exactly when all signed fields agree: strings as UTF-16, the aggregate type lower-cased, time to the millisecond, payload up to key order; for all envelopes |
| ActionEnvelope.CanonicalPayloadInjective | src/intake/sync/models.py:155-173 | for envelopes without lone surrogates, equal signed bytes mean equal ids, kind and nonce, equal lower-cased aggregate type, equal time to the millisecond and equal payload dictionaries, and conversely |
| CanonicalFields.SignedFields | src/intake/sync/models.py:155-173 | the signed text is JSON for a dictionary of exactly eight names, each over its own field |
| CanonicalFields.IssuedAtExactText | src/intake/sync/models.py:157-159 | the time is written as year, month, day, "T", hour, minute, second, millisecond and "Z" |
| ActionVerification.HostedActionVerificationService.VerifyAction | src/intake/services/signing_service.py:80-131 | checks in order, both inserts, tables and result; no insert fails when nothing interferes |
| ActionAnswers.AcceptedExactly | src/intake/services/signing_service.py:80-131 | accepted exactly when the device is the one named, trusted, with a key under which the signature is valid, the action is fresh, and neither its id nor its nonce is used |
| ActionAnswers.AnswerExactly | src/intake/services/signing_service.py:80-131 | every answer exactly when it is warranted, check by check; only acceptance changes the tables |
| ActionAnswers.EveryCallTold | src/intake/services/signing_service.py:80-131 | in every interleaving every call is in its phase for the reason that phase tells: who sent it, whether it was fresh at its first step, what its signature is, what was in the tables |
| ActionAnswers.DispatchedIsGenuine | src/intake/services/signing_service.py:89-125 | in every interleaving a dispatched call is from the trusted device it names, was fresh at its first step, and is validly signed |
| ActionVerification.SyncRepository.TrackAction | src/intake/storage/repositories.py:811-820 | an insert succeeds exactly when the key is free, and a failed one changes nothing |
| ActionVerification.SyncRepository.TrackNonce | src/intake/storage/repositories.py:822-830 | a nonce insert succeeds exactly when the device has not used the nonce, and a failed one changes nothing |
| ActionVerification.LocalDeviceSigningService.SignAction | src/intake/services/signing_service.py:36-69 | the envelope carries the given fields and the signature of its own canonical payload |
| ActionVerification.TamperEvident | src/intake/services/signing_service.py:107-124 | an accepted envelope that carries another one's signature agrees with it in every signed field, if a signature fits one message |
| ActionVerification.TablesAreAcceptedSet | src/intake/services/signing_service.py:80-131 | after a sequential run the tables hold exactly the ids and nonces of the accepted actions |
| ActionVerification.AcceptedOnce | src/intake/services/signing_service.py:93-105 | in a sequential run no id and no nonce is accepted twice |
| ActionVerification.DispatchedAtMostOnce | src/intake/storage/models.py:484-504 | in every interleaving of any number of calls, split at the repository calls, each id and each device nonce is dispatched at most once |
| ActionVerification.TablesInEveryInterleaving | src/intake/services/signing_service.py:93-131 | in every interleaving the action table holds exactly the ids of calls that passed their first insert, also of those the nonce key then refused, and the nonce table exactly the nonces of the dispatched calls |
| ActionVerification.SeenChecksAloneDoNotSuffice | src/intake/services/signing_service.py:93-131 | without the primary keys some interleaving dispatches an acceptable request twice |
| ActionVerification.UndisturbedCall | src/intake/services/signing_service.py:80-131 | a call whose six steps run undisturbed computes the sequential result |
| SyncApi.ActionEndpoint.ProcessLocalAction | src/intake/hosted/api/sync.py:54-84 | device lookup, verification, dispatch: tables, quotes, log and answer |
| HostedAnswers.ActionStartsExactly | src/intake/hosted/api/sync.py:54-109 | an action starts a review exactly when its device is registered, the action is warranted, it asks for a review start of a quote, and that quote is waiting; every refusal before dispatch exactly when it is warranted |
| HostedAnswers.ReviewExactly | src/intake/hosted/api/sync.py:86-130 | a review start succeeds exactly for a submitted or waiting quote, each refusal exactly when its condition holds, with the row and the event it leaves |
| SyncApi.ProcessEffect | src/intake/hosted/api/sync.py:54-139 | only a verified action touches the tables, only a successful review start touches the quotes, and it takes a waiting quote under review |
| SyncApi.ReviewsStartOnce | src/intake/hosted/api/sync.py:54-139 | in every run of actions among quote service calls, actions that start reviews differ pairwise in id, in device nonce, and in quote |
| SyncApi.VerifiedIsSpent | src/intake/hosted/api/sync.py:71-84 | a verified action is spent even if its dispatch failed: no later action of the run is verified under its id or its device nonce |
| Redaction.RedactDictKeys | src/intake/deploy/provider_redaction.py:107-142 | the loop that fills the result dictionary computes the key pass, on every dictionary |
| KeyRule.SecretKeyExact | src/intake/deploy/provider_redaction.py:122-128 | a key is secret exactly when its lower-cased text holds one of the secret names or its own text one of the local-only patterns |
| KeyRule.KeysDecidedExactly | src/intake/deploy/provider_redaction.py:107-142 | in every dict the key pass enters, at any depth, a key that hides its value holds the placeholder and is listed; any other is not listed and holds a node of the original kind |
| KeyRule.ListedIsHidingKey | src/intake/deploy/provider_redaction.py:225-256 | a listed position is a hiding key of a dict the key pass enters |
| KeyRule.SameLowerSameFate | src/intake/deploy/provider_redaction.py:122-132 | two keys that read the same in lower case, without a local-only pattern, treat every value alike |
| KeyRule.TokenLikeExact | src/intake/deploy/provider_redaction.py:101 | the long-token rule: token characters up to the end or one final newline |
| KeyRule.PathLikeExact | src/intake/deploy/provider_redaction.py:154-176 | the path rule: a path pattern, or an absolute or backslashed text with a slash before a path character |
| Redaction.PipelineIsOnePass | src/intake/deploy/provider_redaction.py:186-222 | the three passes in turn equal one recursive pass, on every configuration |
| Redaction.SanitizedIsClean | src/intake/deploy/provider_redaction.py:145-222 | every string of the result, at any depth, matches no secret pattern, no path rule and not the long-token rule of the third pass (over 40), and the second and third pass leave it as it is |
| RedactedFields.LongTokensShown | src/intake/deploy/provider_redaction.py:95-102 | a string of the result matches the secret rule of the first pass (a pattern, or a token over 32) exactly when it was a string in a list, or below one, that the key pass does not enter, or a non-string under a key, of 33 to 40 token characters that no other rule matches; it is then the original text |
| RedactedFields.ListTokenShown | src/intake/deploy/provider_redaction.py:134-140 | the same 36 characters are hidden under a key and shown in a list |
| Redaction.SanitizeIdempotent | src/intake/deploy/provider_redaction.py:186-222 | sanitizing again changes nothing, and so does the key pass, exactly when no non-string value under a shown key has a text of 33 to 40 token characters that no rule matches |
| Redaction.StringLeavedIsSlipFree | src/intake/deploy/provider_redaction.py:186-222 | a configuration with string leaves meets that condition |
| Redaction.LongNumberSlips | src/intake/deploy/provider_redaction.py:83-85 | a 36-digit number is shown by one call and hidden by the next |
| RedactedFields.EveryPosition | src/intake/deploy/provider_redaction.py:107-222 | every position of the result is absent, the placeholder, or a node of the original kind with the original keys or length, as its keys decide, and the exact value at every leaf |
| RedactedFields.ListedHoldsPlaceholder | src/intake/deploy/provider_redaction.py:225-256 | a position is listed exactly when the key rule decides it, and then the sanitized tree holds the placeholder there |
| RedactedFields.FieldsExact | src/intake/deploy/provider_redaction.py:225-256 | the lister finds exactly the decided positions, through dictionaries and lists of dictionaries |
| RedactedFields.FieldsDistinct | src/intake/deploy/provider_redaction.py:225-256 | each position is listed once |
| RedactedFields.GetRedactedFields | src/intake/deploy/provider_redaction.py:225-256 | the nested loops return the written forms of those positions, in order; pairwise distinct when all keys are plain |
| RedactedFields.RenderInjective | src/intake/deploy/provider_redaction.py:236-253 | positions through keys that are not empty and hold neither "." nor "[" are written alike only if they are the same position |
| RedactedFields.PlainNamesDistinct | src/intake/deploy/provider_redaction.py:225-256 | on a configuration with such keys the returned names are pairwise distinct |
| RedactedFields.NamesAreAmbiguous | src/intake/deploy/provider_redaction.py:238 | the condition is needed: a dotted key and a nested key have the same written form |
| UnlockWindow.LocalAuthorizationWindow.IsUnlocked | src/intake/local_console/security/unlock.py:49-59 | the answer, and the lazy lock it performs |
| UnlockWindow.LocalAuthorizationWindow.RemainingSeconds | src/intake/local_console/security/unlock.py:61-68 | the remaining time from two clock readings |
| UnlockWindow.QueryIsHistory | src/intake/local_console/security/unlock.py:33-59 | after every history of unlocks, locks and queries the window is open at t exactly when the last lock or unlock was an unlock at some u with t <= u + ttl |
| UnlockWindow.RemainingInRange | src/intake/local_console/security/unlock.py:61-68 | remaining time is between 0 and the time to live, and positive exactly while the window is open past the second reading |
| UnlockWindow.RemainingExact | src/intake/local_console/security/unlock.py:61-68 | while the window is open by an unlock at u, the remaining time runs from the second reading to u + ttl |
| SecureUnlock.SecurityApi.CleanupExpiredChallenges | src/intake/local_console/api/security.py:98-113 | exactly the expired challenges go, and they are counted |
| SecureUnlock.SecurityApi.PerformUnlock | src/intake/local_console/api/security.py:292-426 | store, window and answer, refusals in the order of the code |
| UnlockHistory.UnlockAnswers | src/intake/local_console/api/security.py:319-426 | every refusal of an unlock request exactly when it is warranted, and so every opening, with its mode and the time it sets |
| UnlockHistory.OpensIsAnswer | src/intake/local_console/api/security.py:343-426 | over every run a request opens the window exactly when it is entitled to: from this machine, with the right proof and a good token, or with neither where insecure unlocks are on |
| UnlockHistory.WindowIsHistory | src/intake/local_console/api/security.py:292-446 | after every run the window is open at t exactly when some request was entitled to open it, t is within its time to live, and no lock and no later opening came after it |
| UnlockHistory.OpenOnlyByToken | src/intake/local_console/api/security.py:409-426 | where insecure unlocks are off, the window is open only by a good token |
| UnlockHistory.StatusTells | src/intake/local_console/api/security.py:125-153 | the status tells this machine, and no other, whether the window is open by that history, and how long |
| UnlockHistory.OtherAnswers | src/intake/local_console/api/security.py:251-278 | a challenge is good from its issue to the expiry it names; a lock locks and says so; a cleanup counts the expired |
| SecureUnlock.SecurityApi.GetUnlockStatus | src/intake/local_console/api/security.py:125-153 | status with the cleanup it performs |
| SecureUnlock.SecurityApi.GetUnlockChallenge | src/intake/local_console/api/security.py:251-278 | a new challenge, then a cleanup |
| SecureUnlock.StoreIsHistory | src/intake/local_console/api/security.py:62-113 | in every reachable state the store accepts a token exactly when the history of requests, which knows nothing of cleanups, says it was issued, is not expired and opened nothing |
| SecureUnlock.OpensExactly | src/intake/local_console/api/security.py:358-405 | a request opens the window with a token exactly when it is from loopback, its proof is right, and the history says the token is good |
| SecureUnlock.OpensOnceInTime | src/intake/local_console/api/security.py:358-405 | each token opens the window at most once, and only between its issue and its expiry |
| SecureUnlock.WrongProofKeepsToken | src/intake/local_console/api/security.py:387-394 | a request with a wrong proof is refused, and after it exactly the same tokens are good |
| SecureUnlock.CollectionIsInvisible | src/intake/local_console/api/security.py:98-113 | runs that differ only in where cleanups happen give the same answers |
| QuoteLog.QuoteService.EditQuote | src/intake/services/quote_service.py:68-187 | row and log after each of the edits |
| HostedAnswers.EditExactly | src/intake/services/quote_service.py:68-187 | each edit of a stored quote sets the fields it is given and no other, and logs what it added |
| QuoteLog.QuoteService.SubmitQuote | src/intake/services/quote_service.py:190-225 | two writes and two events, or nothing |
| HostedAnswers.SubmitExactly | src/intake/services/quote_service.py:190-225 | a submission goes through exactly for a stored draft with a service lane, with a verified account where that is required; it leaves the quote waiting and logs both steps |
| HostedAnswers.CreationExactly | src/intake/services/quote_service.py:43-58 | a quote is created exactly under a new id, as an unowned draft with the given lane |
| QuoteLog.QuoteService.HandleQuoteReviewStart | src/intake/hosted/api/sync.py:86-139 | row, log and answer of a review start |
| QuoteLog.QuoteRepository.Update | src/intake/storage/repositories.py:552-583 | which columns are written and which stay |
| QuoteLog.StatusIsReplay | src/intake/services/quote_service.py:43-225 | after every run a quote's stored status is the replay of the log, its status events are the one history of that status, and it has one review start if it is under review and none otherwise |
| QuoteLog.StatusOnlyForward | src/intake/services/quote_service.py:190-225 | along a run no quote disappears or steps back |
| QuoteLog.OwnerIsNeverStored | src/intake/storage/repositories.py:552-583 | after every run no quote has an owner |
| QuoteLog.StaleWriteExact | src/intake/storage/repositories.py:552-583 | writing back a copy keeps status and log together exactly when the copy's status is still the stored one |
| QuoteLog.LostUpdate | src/intake/hosted/api/sync.py:100-130 | an edit that overlaps a review start takes the status back, and a second review start is accepted and logged |
| UploadBroker.UploadSessionBroker.CreateUploadRoute | src/intake/services/upload_session_broker.py:92-191 | sessions, index and answer |
| UploadBroker.UploadSessionBroker.ProcessUploadReceipt | src/intake/services/upload_session_broker.py:197-319 | receipts and answer, refusals in the order of the code |
| BrokerAnswers.ReceiptExactly | src/intake/services/upload_session_broker.py:235-298 | a receipt is accepted exactly when its session exists and has not expired, provider and quote are the session's, the quote is stored, and its four metadata fields are well-formed; every refusal exactly when it is warranted; what is stored is the request's own data |
| BrokerAnswers.RouteExactly | src/intake/services/upload_session_broker.py:114-181 | a route is created exactly for the quote's owner, verified or with no need to be, while the quote takes uploads; every refusal exactly when it is warranted; the session is for half an hour and at most 150 MB a file |
| BrokerAnswers.ListingIsOwners | src/intake/services/upload_session_broker.py:342-352 | the listings answer the quote's owner and nobody else |
| BrokerAnswers.RunSourced | src/intake/services/upload_session_broker.py:92-319 | after every run each session was created for the owner of a quote that took uploads, and each receipt carries its request's own fields and came no later than its session's expiry |
| BrokerAnswers.ListedByTime | src/intake/services/upload_session_broker.py:354-359 | after every run the listed sessions are exactly the quote's whose expiry has not passed |
| UploadBroker.UploadSessionBroker.ListUploadReceipts | src/intake/services/upload_session_broker.py:361-400 | the nested loops and the sort return the listing function's value |
| UploadBroker.SessionsListedExactly | src/intake/services/upload_session_broker.py:325-359 | listing through the index equals a scan over all sessions, in the same order: exactly the quote's unexpired sessions |
| UploadBroker.ReceiptsListedExactly | src/intake/services/upload_session_broker.py:361-400 | the listed receipts are exactly the quote's, each once, most recent first |
| UploadBroker.SortIsStable | src/intake/services/upload_session_broker.py:398-400 | the sort is a permutation, descending, and keeps the order within one moment |
| UploadBroker.RunInv | src/intake/services/upload_session_broker.py:177-298 | after every run ids are distinct, the index is the scan, and each receipt is well-formed and belongs to a session of its quote and provider |
| UploadBroker.ListingsAfterRun | src/intake/services/upload_session_broker.py:325-400 | after every run with fresh ids both listings equal the scans and every stored receipt is well-formed and backed by a session of its quote |
| UploadBroker.LimitsAreNotChecked | src/intake/services/upload_session_broker.py:270-278 | where one receipt is accepted, any number of any positive sizes is accepted for the same session |
| UploadQuota.UploadService.HandleUpload | src/intake/services/upload_service.py:51-138 | stored uploads and answer, refusals in the order of the code |
| HostedAnswers.UploadExactly | src/intake/services/upload_service.py:51-138 | an upload is taken exactly from the quote's owner, verified where that is required, while the quote takes uploads and has fewer than 20 files and less than 500 MB, and when its file passes; every refusal exactly when it is warranted; what is stored is the file's own data |
| HostedAnswers.FileExactly | src/intake/services/upload_validation_service.py:46-96 | a file passes exactly with a listed extension, a size within 15 MB for images, 20 MB for PDFs and 150 MB for videos, and a declared type of the extension's family (any for a PDF); every refusal exactly when it is warranted |
| HostedAnswers.SuffixExact | src/intake/services/upload_validation_service.py:71 | the suffix starts at the last dot of the final component, unless that dot is its first or last character |
| HostedAnswers.FinalNameExact | src/intake/services/upload_validation_service.py:71 | the final component is what follows the last slash, or comes before it where that is empty or "." |
| UploadQuota.ValidExactly | src/intake/services/upload_validation_service.py:46-96 | a file passes exactly when its extension is listed, its size positive and within that extension's limit, and its declared type of the listed family |
| UploadQuota.QuotaHolds | src/intake/services/upload_validation_service.py:98-121 | in every run each quote has at most 20 files and 681574399 bytes |
| UploadQuota.QuotaIsTight | src/intake/services/upload_validation_service.py:98-121 | a run of five uploads attains the bound |
| UploadQuota.FullStaysFull | src/intake/services/upload_validation_service.py:112-121 | once a quote is full its uploads never change again |
| CostLedger.CostCalculator.AddLineItem | src/intake/costs/calculator.py:276-326 | the new item with total quantity times price, and the registry |
| CostLedger.CostCalculator.UpdateLineItem | src/intake/costs/calculator.py:328-342 | the search loop replaces the first item with the id |
| CostLedger.CostCalculator.GenerateReceipt | src/intake/costs/calculator.py:541-594 | totals copied, breakdown by provider right for every provider, error when totals are missing |
| CostLedger.CostCalculator.GetCostSummaryByProvider | src/intake/costs/calculator.py:626-657 | each provider's sums and items, and no other provider |
| CostLedger.RecalculateTotals | src/intake/costs/calculator.py:357-427 | the loops compute the sums and the worst quality |
| CostLedger.FrequenciesCounted | src/intake/costs/calculator.py:362-390 | every frequency but a single payment counts as monthly, at its full amount |
| CostLedger.AddConserves | src/intake/costs/calculator.py:276-326 | an added item moves its scenario's total by its own and no other scenario's |
| CostLedger.UpdateConserves | src/intake/costs/calculator.py:328-342 | an update moves the total by the difference, and succeeds exactly when the item exists |
| CostLedger.DeleteConserves | src/intake/costs/calculator.py:344-355 | a deletion takes away the totals of the items with the id |
| CostLedger.ItemsExactly | src/intake/costs/calculator.py:320-352 | an addition goes to the end, an update replaces the first item with its id in place, a deletion drops every item with the id and keeps the order of the rest |
| CostLedger.RunBalanced | src/intake/costs/calculator.py:357-427 | after every run total = monthly + one-time = sum of the items, and quality is UNKNOWN |
| CostLedger.BreakdownTotal | src/intake/costs/calculator.py:564-568 | a breakdown by provider adds up to the sum of the items |
| CostLedger.BreakdownsAgree | src/intake/costs/calculator.py:541-657 | in every reachable scenario the receipt's breakdown adds up to the total and equals the summary, provider by provider |
| Base64Codec.Base64urlRoundTrip | src/intake/web/static/js/passkeys.js:327-352 | every byte sequence comes back; the text has no "+", "/", "=" and its length is never 1 modulo 4 |
| Base64Codec.AlphabetExact | src/intake/web/static/js/passkeys.js:348 | each value is written as its character of the standard alphabet |
| Base64Codec.GroupIsBigEndian | src/intake/web/static/js/passkeys.js:348 | three bytes and their four sextets are the same 24 bits, most significant first |
| Base64Codec.Base64urlExact | src/intake/web/static/js/passkeys.js:327-337 | a text over the url alphabet decodes exactly when its length is not 1 modulo 4, and is re-encoded to itself exactly when its unused bits are zero |
| Base64Codec.UrlsafeRoundTrip | src/intake/services/crypto_service.py:112-146 | the padded form decodes to the same bytes |
| JsonLoads.StringReadBack | src/intake/services/crypto_service.py:93-156 | a string is read back from its escapes exactly when it does not spell a surrogate pair as two characters |
| JsonLoads.LoadsDumps | src/intake/services/crypto_service.py:93-156 | what is written can always be read, and an equal value comes back exactly when every string and key is read back |
| CryptoService.FrameRoundTrip | src/intake/services/crypto_service.py:105-149 | splitting off the tag, encoding, decoding and joining returns nonce and sealed text, whatever their lengths |
| CryptoService.FrameParts | src/intake/services/crypto_service.py:105-118 | the tag is the last sixteen bytes of the sealed text, the ciphertext the rest, with nonce, algorithm and key version |
| CryptoService.DecryptUndoesEncrypt | src/intake/services/crypto_service.py:83-158 | decryption under the same key never fails, and returns an equal dictionary exactly when no string or key in it spells a surrogate pair as two characters |
| CryptoService.DecryptUndoesEncryptString | src/intake/services/crypto_service.py:120-170 | an encrypted string decrypts to itself exactly when it does not spell a surrogate pair as two characters |

## Left out

- Objects handed out by the services: sessions, records, quotes and scenarios are values in maps, so changes a caller makes to a returned object are not captured.
- The environment: a clock that does not go back and new random ids are assumptions on runs (`AdmissibleRun`, `Plausible`, `FreshIds`); after a clock that goes back, a window or a session could reopen.
- StoragePaths.GeneratedPathContained: the upload root is absolute and without symbolic links; resolving links is not modelled.
- ReceiverState: upload ids, account and token fields, storage references and the detected content type are carried along by the code and not modelled; which file of a directory `cleanup_session` meets first is left open; failing disk operations, locked files and readers that raise are not modelled.
- ReceiverState.CreateSession: an expiry equal to the current time reaches a branch that raises `AttributeError`, and the model returns that as an error.
- Letter case: extensions are lower-cased on ASCII letters only, and `strip` removes ASCII whitespace; elsewhere `str.lower` is a parameter.
- ActionEnvelope.CanonicalPayload: payloads hold null, booleans, integers, strings, lists and objects, no floats; timestamps without a time zone are not modelled.
- ActionVerification.VerifyAlone: ed25519 and its key decoding are one abstract check; a primary-key violation ends the call as a refusal that names the table, where the code raises the database's exception.
- Redaction.RedactKeys: only the recursive mode; `str()` of a nested value in the other mode is not modelled. Regular expressions are predicates that fail on the placeholders; the token and slash rules are written out.
- SecureUnlock.UnlockEffect: one clock reading a request; malformed bodies count as empty ones; the capabilities endpoint is labels only. Encoding of a proof with lone surrogates raises in the code and is not modelled.
- QuoteLog.Submitting: handlers are atomic in runs; `StaleWriteExact` and `LostUpdate` say what happens when they are not. Uploads attached to a quote are not part of its row.
- UploadBroker.UploadSessionBroker.ProcessUploadReceipt: the copy of a receipt appended to the loaded quote and the event log entries are not modelled; the route decision is an argument.
- UploadQuota.Handle: where the bytes are stored and the encrypted filename are not modelled; uploads are those of this service only.
- CostLedger.Recalculated: exact arithmetic instead of decimal rounding; assumptions, snapshots and stored receipts are not modelled.
- Base64Codec.UrlsafeDecode: texts with characters outside the alphabet, which Python skips, are refused.
- CryptoService.DecodeAscii: plaintexts with multi-byte UTF-8, which the service never writes, count as failures. JSON text is read in the compact form only.
- HTTP routing, request models, the web pages, the desktop shell, deployment adapters, passkey ceremonies, login sessions and email codes: input and output, or another single-use token.
