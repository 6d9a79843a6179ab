# A verified model of the AnonRouter confidential clients

AnonRouter's confidential SDKs decide, on the caller's machine, whether a prompt may
leave it: they open one TLS connection to a gateway, fetch attestation evidence over
that very connection, check it against an owner-signed policy, exchange an API key at
a control origin for single-use tickets, and only then send content to a second
origin. This project models that decision logic in Dafny and proves what it keeps,
whatever servers, clocks, caller threads and event orders do.

| files | what they model |
|---|---|
| `RetainedOperation`, `RetainedSafety`, `RetainedRuns`, `RetainedTerms`, `RetainedHandlers`, `RetainedState`, `RetainedWitness` | the retained TLS operation: every handler is one atomic step of a state machine; the invariant; the theorems about whole runs, among them how long evidence lasts; what each event does, said on the record; the handlers as methods that update the shared record; runs that show the theorems are not empty |
| `BoundPreparation` | the at-most-one retry of a preparation and the one-time refusal capability |
| `DeepFreeze` | freezing an object graph on the heap |
| `BoundClient` | the threaded Python client: bound operations and `close()` interleaving at lock granularity |
| `PromiseLock`, `PolicyAuthority`, `PolicyAcceptance`, `PolicySource`, `PolicyWitness` | the promise-chain mutex, signed-policy acceptance and its exact condition, the policy source over histories of calls, and an envelope that is accepted |
| `CanonicalJson`, `CanonicalRoundTrip`, `CanonicalDomain`, `JsonSpelling`, `ReleaseDigest` | the two restricted canonical JSON encoders, a reference decoder, spelling and layout of their texts, and the release digests |
| `EventLog`, `EventRegisters` | replay of measured event logs, and what each register commits to |
| `SseStream`, `SseEvents`, `SseWitness` | the incremental server-sent-event parser; what an event yields and where a stream ends; a chunk boundary that changes what it yields |
| `GatewayBinding`, `GcePzid` | the attestation binding and the GCE instance identity |
| `ClientTraces`, `ChatWire`, `MediaExchange`, `MediaWire`, `Utf16` | request histories of the two-origin exchanges, the literal requests and the replies that let them go on, and the priced count |
| `MintPacer` | the sliding-window limiter |
| `Text`, `Numbers`, `Utf8`, `JsonRecord`, `FlatJson`, `Wrappers` | shared vocabulary, among it JSON.stringify on flat objects |

How the model is set up:

- SHA-256, SHA-384, SHA-512, Ed25519, `JSON.parse`, the URL parser, evidence
  verification and encryption are parameters: arbitrary functions. A theorem about a
  digest therefore says "the inputs agree, or these two different byte strings
  collide", and never assumes that a fixed-size hash is injective.
- Code that mutates state is a class or a method whose `ensures` equates its effect
  with a function of the old state; what the source promises is proved about that
  function, and the lemmas named `...Exactly` say the function's meaning once more in
  literal terms that do not mention it. Interleavings (JavaScript callbacks, awaits, Python threads) are
  state machines over values, whose runs are arbitrary sequences of enabled steps.
- Where the code does less than its own words promise, the exact condition is proved:
  `EventLog.PayloadIsMeasured` and `EventLog.AmbiguousLogHasAnotherReading` (a colon in
  an event name moves text between name and payload), `SseStream.ChunkwiseNewlines`
  and `SseWitness.SplitCrlfMergesEvents` (CRLF is converted per chunk), `GcePzid.PrintedReadsBackExactly` (the printer does not
  bound the zone), `MintPacer.LimitKeptExactlyWhenWhole` (a fractional limit is rounded
  up), `MediaExchange.ClientsDifferExactlyOnNull` (the two SDKs read a null echo
  differently).

`dafny verify dfyconfig.toml` checks everything.

## Model

| member | source | states |
|---|---|---|
| RetainedRuns.RunKeeps | js/confidential/src/gateway/retained-operation-node.ts:190-393 | in every interleaving of connect, timeout, handshake, reuse, socket, response, cancel and close handlers, every state satisfies the invariant and later states never take back a flag, a done exchange, its failure or a released byte |
| RetainedRuns.EveryEnabledHandlerExtends | js/confidential/src/gateway/retained-operation-node.ts:217-221 | in every reachable state each enabled handler is well defined, cancel and close included, and extends the run |
| RetainedRuns.AtMostOneSocket | js/confidential/src/gateway/retained-operation-node.ts:112-127 | one operation opens at most one socket in any run |
| RetainedRuns.OneExchangeOnePaidDispatch | js/confidential/src/gateway/retained-operation-node.ts:244-275 | at most one exchange is unfinished, `busy` says exactly that, and at most one paid request is ever dispatched |
| RetainedRuns.DispatchNeedsGuard | js/confidential/src/gateway/retained-operation-node.ts:323-333 | bytes are released only at the socket event of the exchange in flight, on the operation's own socket, with the guard holding at that instant, and one dispatch at a time |
| RetainedRuns.ContentGoesToTheAttestedSocket | js/confidential/src/gateway/retained-operation-node.ts:209-214 | every dispatch of a run lies before the deadline and both expiries; content goes out only after authorization, on the socket whose observed key is the attested one, then and for ever |
| RetainedRuns.AuthorizationIsEarned | js/confidential/src/gateway/retained-operation-node.ts:378-390 | authorization appears only in the step that accepts a verdict naming the key observed on this socket |
| RetainedRuns.DeadStaysSilent | js/confidential/src/gateway/retained-operation-node.ts:209-221 | closed, lost, refusal and a destroyed socket are absorbing: no byte is released in any continuation |
| RetainedRuns.BeforeHttpIsTruthful | js/confidential/src/gateway/retained-operation-node.ts:279-284 | a failure that says before_http stays that exchange's failure, and its bytes are in no log, then or later |
| RetainedRuns.ClosingPaidResponseIsStillRead | js/confidential/src/gateway/retained-operation-node.ts:291-298 | a paid response with Connection: close leaves its exchange open for reading, marks the operation lost, and nothing is dispatched afterwards |
| RetainedRuns.MintingNeedsConnectionFailure | js/confidential/src/gateway/retained-operation-node.ts:142-151 | the refusal capability is minted only by a connect timeout or a reset, before any handshake or HTTP, by the first settlement only |
| RetainedRuns.MintedMeansNothingSent | js/confidential/src/gateway/retained-operation-node.ts:142-151 | an operation that minted it never wrote HTTP and never will |
| RetainedRuns.RefusedIsJoined | js/confidential/src/gateway/retained-operation-node.ts:394-400 | a failed preparation ends only when socket, lookups and requests have all closed |
| RetainedTerms.ContentLastsAsLongAsItsEvidence | js/confidential/src/gateway/retained-operation-node.ts:378-390 | every content dispatch of every run was granted by an earlier chain or refresh event with an accepted verdict, its evidence expiry is that verdict's issue time plus the age in force, and it lies before that and before the approval in force |
| RetainedTerms.GuardExactly | js/confidential/src/gateway/retained-operation-node.ts:209-214 | the guard passes exactly on an operation that is not closed, aborted, refused or lost, before deadline and both expiries, and what it says otherwise, first reason first |
| RetainedTerms.DecideOpensExactly | js/confidential/src/gateway/retained-operation-node.ts:378-390 | an operation opens exactly for an accepted verdict on the observed key whose issue time plus age is a safe positive time still ahead |
| RetainedTerms.ChainOpensExactly | js/confidential/src/gateway/retained-operation-node.ts:361-390 | a prepared chain opens the operation exactly when it did not fail, the guard held and the verdict is acceptable |
| RetainedTerms.RefreshOpensExactly | js/confidential/src/gateway/retained-operation-node.ts:368-377 | a refresh opens it exactly when it is well formed, sound, keeps a bound on the approval, and its verdict is acceptable under it |
| RetainedHandlers.AdmittedExactly | js/confidential/src/gateway/retained-operation-node.ts:245-273 | the exact set of requests an exchange lets through: one at a time, on a living operation, to the known targets and methods, one content request ever |
| RetainedHandlers.RefusalIsTold | js/confidential/src/gateway/retained-operation-node.ts:245-273 | what a refused caller is told, first reason first |
| RetainedHandlers.FetchExactly | js/confidential/src/gateway/retained-operation-node.ts:244-283 | a request not admissible changes nothing; an admissible one begins exactly one exchange, and a content request spends the paid attempt |
| RetainedHandlers.ConnectExactly | js/confidential/src/gateway/retained-operation-node.ts:112-127 | a socket is opened exactly while none was and the operation lives |
| RetainedHandlers.ReuseExactly | js/confidential/src/gateway/retained-operation-node.ts:163-179 | the idle socket is handed out exactly when it is this operation's, authorized and living; otherwise the refusal is recorded and the operation lost |
| RetainedHandlers.ConnectionFailsExactly | js/confidential/src/gateway/retained-operation-node.ts:142-151 | a timeout or socket error settles the connection once, loses the operation, and mints exactly before any handshake and HTTP |
| RetainedHandlers.SocketCloseExactly | js/confidential/src/gateway/retained-operation-node.ts:150-150 | a closed socket loses the operation and fails a connection not yet settled, without minting |
| RetainedHandlers.HandshakeExactly | js/confidential/src/gateway/retained-operation-node.ts:152-160 | the first handshake records the key of an authorized certificate and succeeds exactly with a key on a living operation |
| RetainedHandlers.ExchangeEndsExactly | js/confidential/src/gateway/retained-operation-node.ts:279-285 | timeout and abort each end an unfinished exchange with their own failure, and the phase says whether its bytes may have left |
| RetainedHandlers.BodyBreaksExactly | js/confidential/src/gateway/retained-operation-node.ts:308-317 | a cancelled and a broken body end it as cancelled and as transport, after the bytes have left |
| RetainedHandlers.RequestErrorExactly | js/confidential/src/gateway/retained-operation-node.ts:334-341 | a request error ends it with the recorded refusal, else with what the connection said, else as transport |
| RetainedHandlers.BodyEndsExactly | js/confidential/src/gateway/retained-operation-node.ts:304-313 | a body read to its end frees the way and leaves everything else as it was |
| RetainedHandlers.FinishedStaysFinished | js/confidential/src/gateway/retained-operation-node.ts:279-316 | late timers, aborts, cancels and ends leave a finished exchange alone; only a body that breaks after all still loses the operation |
| RetainedHandlers.ResponseExactly | js/confidential/src/gateway/retained-operation-node.ts:286-321 | redirect and foreign encoding, close on an unpaid exchange, and a head that cannot be passed on end it; a closing paid response is read on |
| RetainedHandlers.SocketEventExactly | js/confidential/src/gateway/retained-operation-node.ts:323-333 | bytes are released exactly on the own socket of a living, uncancelled operation, with one log entry; each other case ends the exchange with its own failure |
| RetainedHandlers.CloseExactly | js/confidential/src/gateway/retained-operation-node.ts:217-221 | close and abort end the exchange in flight as cancelled and destroy the socket |
| RetainedHandlers.ChallengeExactly | js/confidential/src/gateway/retained-operation-node.ts:344-350 | the preparation goes on exactly with an answer on a living operation; otherwise it closes and says why |
| RetainedHandlers.BeginExactly | js/confidential/src/gateway/retained-operation-node.ts:344-350 | a preparation begins with the challenge exchange exactly on a living, idle operation |
| RetainedHandlers.BookkeepingExactly | js/confidential/src/gateway/retained-operation-node.ts:101-140 | lookups are counted, an ended socket is gone, a closed request is remembered, and owners are joined only when all have closed |
| RetainedWitness.PaidDispatchIsReachable | js/confidential/src/gateway/retained-operation-node.ts:244-393 | some run reaches the release of a paid request |
| RetainedWitness.ConsumableRefusalIsReachable | js/confidential/src/gateway/retained-operation-node.ts:142-151 | some run ends in a consumable refusal |
| RetainedSafety.StepKeeps | js/confidential/src/gateway/retained-operation-node.ts:112-401 | every enabled handler keeps the invariant |
| RetainedState.State.Handle | js/confidential/src/gateway/retained-operation-node.ts:200-401 | each callback, run as in-place updates of the shared record, has exactly the effect of its step and re-establishes the invariant |
| RetainedState.State.Exchange | js/confidential/src/gateway/retained-operation-node.ts:244-342 | exchange, up to the point where it waits for its socket, has the effect of the specification step |
| RetainedState.State.GetSocket | js/confidential/src/gateway/retained-operation-node.ts:323-333 | the socket event: the last guard, then the release of the bytes or termination |
| RetainedState.State.TerminateExchange | js/confidential/src/gateway/retained-operation-node.ts:279-280 | ending an exchange with a failure, once, loses the operation and its socket |
| RetainedState.State.Accept | js/confidential/src/gateway/retained-operation-node.ts:378-390 | the acceptance condition; authorization is its last effect and the guard is asked once more |
| RetainedState.State.ReadChallenge | js/confidential/src/gateway/retained-operation-node.ts:344-350 | reading the challenge passes a failed exchange's failure on, reports an unusable or oversize response as untrusted, and otherwise asks the guard |
| RetainedState.State.Refresh | js/confidential/src/gateway/retained-operation-node.ts:368-377 | a refresh replaces policy and expiry only, never unbounds a bounded approval, and refuses an unsound policy as untrusted |
| BoundPreparation.Preparation.OpenBoundOperation | js/confidential/src/client.ts:705-760 | a second attempt is made exactly when the first ended in its own consumable refusal in time and unaborted; that attempt left nothing sent, shaken or open; the result is the last attempt's outcome |
| BoundPreparation.Preparation.Consume | js/confidential/src/gateway/retained-operation-node.ts:32-38 | a refusal is consumed exactly when it is registered and its owner joined without handshake or HTTP, and then it is gone; no refusal is consumed twice |
| BoundPreparation.TwoSocketsOneDeadline | js/confidential/src/client.ts:719-746 | both attempts open at most two sockets and release nothing after the one shared deadline |
| BoundPreparation.RetriedAttemptSentNothing | js/confidential/src/client.ts:747-750 | a retried attempt released nothing and saw no key at any point of its run |
| BoundPreparation.EachEndingIsTold | js/confidential/src/client.ts:719-757 | what the caller is told for each way a preparation ends, error code by error code |
| BoundPreparation.RetriesExactly | js/confidential/src/client.ts:747-750 | a second attempt is made exactly when an approved, unaborted first one ended refused, minted and unshaken, unaborted and in time |
| DeepFreeze.DeepFreeze | js/confidential/src/gateway/retained-operation-node.ts:90-98 | the worklist ends on every finite graph, cycles and sharing included; afterwards exactly the reachable objects and those already frozen are frozen, and no value changed |
| DeepFreeze.ProgressEnds | js/confidential/src/gateway/retained-operation-node.ts:90-98 | when the worklist is empty the seen objects are exactly the reachable ones |
| BoundClient.StepKeeps | python/src/anonrouter_confidential/client.py:378-476 | every step of every thread keeps the registry in line with the threads' positions |
| BoundClient.NothingIsAdmittedAfterClose | python/src/anonrouter_confidential/client.py:411-416 | once closed is set, the sets of cancellations and connections only shrink |
| BoundClient.CloseIsComplete | python/src/anonrouter_confidential/client.py:384-391 | when a close() has returned, every registered cancellation is set and every admitted connection, in use or not, is shut |
| BoundClient.LateCompletionIsRefused | python/src/anonrouter_confidential/client.py:464-467 | after close() has returned, every check sends its thread to the cleanup |
| BoundClient.AdmissionIsUncancelled | python/src/anonrouter_confidential/client.py:464-467 | in every run a connection is admitted only while the client is open and neither its operation nor its caller's event is cancelled |
| BoundClient.RegistrationIsUncancelled | python/src/anonrouter_confidential/client.py:411-416 | the same for registration |
| BoundClient.EachStageIsUncancelled | python/src/anonrouter_confidential/client.py:425-453 | policy resolution, construction, a second attempt and use are each begun only by an uncancelled operation |
| BoundClient.EveryGainHasItsCause | python/src/anonrouter_confidential/client.py:424-456 | construction follows a guard that was in time, a connection comes alive only by construction, and a second attempt only follows a failed first one that may be retried |
| BoundClient.EveryLossHasItsCause | python/src/anonrouter_confidential/client.py:388-391 | a cancellation is set only by the own cleanup or a close(), a connection is shut only by those or its death, and no cancellation is undone |
| BoundClient.OfferExactly | python/src/anonrouter_confidential/client.py:464-467 | at its admission an operation gets its connection exactly when the client is open and it is uncancelled; otherwise it goes to its cleanup and the registry stays |
| BoundClient.UseIsReachable | python/src/anonrouter_confidential/client.py:404-476 | some run retries a failed first attempt and still gets its connection into use |
| BoundClient.CallersEventIsTheirs | python/src/anonrouter_confidential/client.py:241-248 | no client step sets a caller's event, and an operation is cancelled only by close() or its own cleanup |
| BoundClient.EndedStaysForgotten | python/src/anonrouter_confidential/client.py:469-476 | an operation whose cleanup has run is in neither set and holds no live connection, in every later state |
| BoundClient.NothingIsLeftBehind | python/src/anonrouter_confidential/client.py:469-476 | when all operations have ended both sets are empty and no connection is live |
| BoundClient.LiveConnectionsAreOwned | python/src/anonrouter_confidential/client.py:421-476 | a live connection always belongs to a registered operation that has yet to close it, made in at most two attempts |
| BoundClient.CloseFinishes | python/src/anonrouter_confidential/client.py:388-391 | a thread inside close() always has a step of its own, and each leaves it strictly less to do |
| BoundClient.Client.RegisterCancellation | python/src/anonrouter_confidential/client.py:411-416 | registration under the lock |
| BoundClient.Client.AdmitConnection | python/src/anonrouter_confidential/client.py:464-467 | admission under the lock, refused once closed or cancelled |
| BoundClient.Client.DiscardBoth | python/src/anonrouter_confidential/client.py:473-476 | the cleanup removes the operation from both sets and touches no other |
| BoundClient.Client.MarkClosed | python/src/anonrouter_confidential/client.py:384-387 | close() takes its snapshot of both sets as it sets closed |
| PolicyAuthority.VerifySignedGatewayPolicy | js/confidential/src/gateway/authority.ts:99-138 | accepts exactly the acceptable envelopes and returns the approval they carry |
| PolicyAcceptance.AcceptedExactly | js/confidential/src/gateway/authority.ts:75-138 | for all inputs, an approval is given exactly when the root is sound, the envelope wraps a canonical payload that says what the approval says, threshold to sixteen distinct root keys signed domain and payload, it is in force and not rolled back, and its policy serves the asked origin |
| PolicyAcceptance.FieldsExactly | js/confidential/src/gateway/authority.ts:55-57 | comparing sorted keys as comma-joined texts comes to the same as counting fields: no key can smuggle in a comma where all names are present |
| PolicyAuthority.CheckSignatures | js/confidential/src/gateway/authority.ts:119-128 | the signature loop accepts exactly lists of valid entries with pairwise distinct known key ids, in order |
| PolicyAuthority.AcceptedBySeveralKeys | js/confidential/src/gateway/authority.ts:86-128 | an accepted envelope is signed over domain and payload under at least threshold distinct public keys of the root |
| PolicyAuthority.KeyTextsAreKeys | js/confidential/src/gateway/authority.ts:86-88 | distinct key texts of a valid root are distinct keys |
| PolicyAuthority.AcceptedTextIsUnique | js/confidential/src/gateway/authority.ts:64-109 | an accepted payload reads back as its own data, and two accepted payloads are one text exactly when they carry the same data |
| PolicyAuthority.DigestNamesPayload | js/confidential/src/gateway/authority.ts:117-118 | one payload digest means one payload, or a SHA-256 collision |
| PolicySource.Source.Resolve | js/confidential/src/gateway/authority.ts:159-199 | resolve, with its cached envelope and checkpoint as fields, has the effect of the specification step for every feed answer, clock and store |
| PolicySource.ApprovalsNeverGoBack | js/confidential/src/gateway/authority.ts:118-118 | over any history, approvals handed out never go back in sequence, one sequence means one digest, and the configured checkpoint is respected |
| PolicySource.ReturnedIsFresh | js/confidential/src/gateway/authority.ts:115-116 | each approval handed out is unexpired and not from the future at the last clock reading |
| PolicySource.ResolveKeeps | js/confidential/src/gateway/authority.ts:193-197 | the cache always matches the checkpoint, and the checkpoint only advances |
| PolicySource.CacheIsNeverRollback | js/confidential/src/gateway/authority.ts:189-193 | a cached envelope is never refused as a rollback: the checkpoint makes no difference to its verdict |
| PolicySource.JudgedExactly | js/confidential/src/gateway/authority.ts:164-188 | by its own fields a call judges the cached envelope, or the publication with the clock reading after it, or nothing; the cache exactly within the refresh time, after a failed fetch or a status of 500 and above |
| PolicySource.NothingToJudge | js/confidential/src/gateway/authority.ts:165-188 | an aborted call, a client error, an aborted fetch or an unusable body throws and leaves the memory alone |
| PolicySource.FallbackKeepsMemory | js/confidential/src/gateway/authority.ts:159-199 | a call that falls back on the cache never changes the memory |
| PolicySource.PublishedAnswerExactly | js/confidential/src/gateway/authority.ts:165-197 | a publication is remembered exactly when it is fresh enough, verifies against the checkpoint and is stored, and answered if it still verifies at the last reading |
| PolicySource.CachedAnswerExactly | js/confidential/src/gateway/authority.ts:164-197 | a call that by its own fields falls back on the cache is answered exactly while the approval lasts, is fresh enough, is stored and covers the origin |
| PolicySource.InterleavedCallsAreAHistory | js/confidential/src/gateway/authority.ts:158-198 | concurrent resolve calls, interleaved at their awaits, leave the memory and give the answers of one call after the other |
| PolicySource.InterleavedApprovalsNeverGoBack | js/confidential/src/gateway/authority.ts:158-198 | the approvals interleaved calls return never go back by order of arrival, one sequence means one digest, and each is unexpired at its own last clock reading |
| PolicyWitness.AcceptableEnvelopeExists | js/confidential/src/gateway/authority.ts:99-138 | a concrete envelope, root and origin are accepted |
| PolicyWitness.SourceAnswers | js/confidential/src/gateway/authority.ts:159-199 | a fresh source that fetches it answers with an approval |
| PromiseLock.RunIsSequential | js/confidential/src/gateway/authority.ts:158-163 | any number of critical sections, throwing or not, act on the shared variables one after the other in arrival order |
| PromiseLock.OneInsideInOrder | js/confidential/src/gateway/authority.ts:158-163 | mutual exclusion and first-in first-out entry |
| PromiseLock.NeverStuck | js/confidential/src/gateway/authority.ts:158-163 | while a call waits, some call can enter or is inside |
| PromiseLock.EntersInTime | js/confidential/src/gateway/authority.ts:158-198 | call k has entered exactly when 2k + 1 entries and exits have happened, so it enters if every section ends |
| CanonicalRoundTrip.CanonicalReadsBack | js/confidential/src/gateway/release-v3-canonical.ts:27-48 | the reference decoder returns the value and the untouched suffix for every accepted value and every suffix that cannot extend a number |
| CanonicalRoundTrip.DecodedIsCanonical | js/confidential/src/gateway/release-v3-canonical.ts:27-48 | whatever the decoder accepts is the canonical text of what it returns |
| CanonicalRoundTrip.CanonicalTextIdentifiesData | js/confidential/src/gateway/authority.ts:64-74 | two accepted values have one text exactly when they are the same data, key order aside, for both encoders |
| CanonicalRoundTrip.SuffixExactlyWhenDelimited | js/confidential/src/gateway/release-v3-canonical.ts:27-48 | the suffix is recovered exactly when no digit follows a number |
| CanonicalRoundTrip.AcceptedExactlyWhenCanonical | js/confidential/src/gateway/authority.ts:109-109 | the decoder accepts a whole text exactly when it is some value's canonical text |
| CanonicalDomain.AcceptedExactly | js/confidential/src/gateway/release-v3-canonical.ts:27-48 | a value has a canonical text exactly when its numbers, texts and objects are encodable and, for a release, it is nested at most twelve deep |
| JsonSpelling.EscapeExactly | js/confidential/src/gateway/release-v3-canonical.ts:34-37 | each character gets the shortest spelling a JSON reader takes for it, hex in lowercase, and no other text does |
| JsonSpelling.ScalarLayout | js/confidential/src/gateway/release-v3-canonical.ts:29-33 | null, booleans and safe numbers are spelled as JSON spells them |
| JsonSpelling.ArrayLayout | js/confidential/src/gateway/release-v3-canonical.ts:38-38 | an array is its items' texts between commas and square brackets |
| JsonSpelling.ObjectLayout | js/confidential/src/gateway/release-v3-canonical.ts:42-47 | an object is its members' texts in ascending order of keys, whatever order they came in |
| ReleaseDigest.ReleaseTupleDigest | js/confidential/src/gateway/release-v3-canonical.ts:92-100 | the loop that fills the unlabeled record hashes the ten registers and the rule |
| ReleaseDigest.DigestExactly | js/confidential/src/gateway/release-v3-canonical.ts:55-58 | what is hashed is the protocol and the domain, a zero byte, and the canonical text |
| ReleaseDigest.TupleListsRegisters | js/confidential/src/gateway/release-v3-canonical.ts:60-100 | the hashed record lists the ten registers under their names, in order |
| ReleaseDigest.DigestBinds | js/confidential/src/gateway/release-v3-canonical.ts:56-58 | equal digests mean one domain and the same data, or exactly these two preimages collide |
| ReleaseDigest.TupleDigestBinds | js/confidential/src/gateway/release-v3-canonical.ts:86-100 | equal tuple digests mean all ten registers and the rule agree, or exactly these two preimages collide |
| EventLog.ReplayRegister | js/confidential/src/gateway/eventLog.ts:107-119 | the loop with its padded buffer computes the extend chain |
| EventLog.ReplayBinds | js/confidential/src/gateway/eventLog.ts:107-119 | equal registers mean equal padded digest sequences, lengths included, or a collision between the two replays or a preimage of the initial value among what they hashed |
| EventRegisters.SuppliedRegisterCommits | js/confidential/src/gateway/eventLog.ts:219-226 | for registers 0 to 2, two logs that replay to one value supply the same padded digests, in order and number, at exactly that register's entries, or a collision or a preimage of the initial value is among what was hashed |
| EventRegisters.DerivedRegisterCommits | js/confidential/src/gateway/eventLog.ts:197-226 | for register 3 the same holds of the digests derived from the entries |
| EventRegisters.OneExtension | js/confidential/src/gateway/eventLog.ts:107-119 | a register starts as 48 zero bytes, and one more digest hashes it behind the value so far |
| EventRegisters.PaddingExactly | js/confidential/src/gateway/eventLog.ts:107-119 | padding appends zeros up to 48 bytes and keeps everything else |
| EventRegisters.V1BytesExactly | js/confidential/src/gateway/eventLog.ts:137-148 | the hashed bytes: the type modulo 2^32 in four little-endian bytes, a colon, the name, a colon, the payload |
| EventRegisters.HashedExactly | js/confidential/src/gateway/eventLog.ts:162-205 | what is hashed for an entry, and exactly which entries cannot be hashed |
| EventRegisters.PayloadExactly | js/confidential/src/gateway/eventLog.ts:259-269 | the one entry of a name gives its payload exactly when it is in register 3 and its digest is empty or that of the bytes hashed for it, and which refusal it is otherwise |
| EventRegisters.AbsentOrDuplicated | js/confidential/src/gateway/eventLog.ts:259-262 | no entry of a name is no payload, and two are refused whatever they say |
| EventLog.PayloadIsMeasured | js/confidential/src/gateway/eventLog.ts:137-269 | two logs that replay to one RTMR3 and both yield a payload for a name yield the same one, unless the one given log is ambiguous for the name, the hash is broken, or bytes read as both event versions |
| EventLog.AmbiguousLogHasAnotherReading | js/confidential/src/gateway/eventLog.ts:137-148 | that condition is exact: an ambiguous log has a twin with the same four registers and another payload |
| EventLog.AmbiguousLogExists | js/confidential/src/gateway/eventLog.ts:137-148 | a concrete ambiguous log that still yields its payload |
| SseStream.ParseSseStream | js/confidential/src/sse.ts:40-68 | the incremental parser yields and ends exactly as the batch parse of the whole text, for every chunking, abort and cap |
| SseEvents.EmitExactly | js/confidential/src/sse.ts:25-39 | an event yields the one frame its trimmed data parses to, unless that is nothing or [DONE] |
| SseEvents.DataExactly | js/confidential/src/sse.ts:26-29 | data lines are read one by one in order, a value each without one leading space; other lines give none |
| SseEvents.LinesExactly | js/confidential/src/sse.ts:26-27 | the lines are the one list of newline-free texts that newlines join to the event |
| SseEvents.TrimExactly | js/confidential/src/sse.ts:31-31 | there is one way to trim a text, and it is the one taken |
| SseEvents.DoneEndsStream | js/confidential/src/sse.ts:53-59 | a finished event that mentions [DONE] is the last one read, whatever follows |
| SseEvents.StreamWithoutDone | js/confidential/src/sse.ts:41-65 | without one, all finished events are read, then an abort, the 16 MiB cap, or the trimmed rest with the decoder's flush decides the end |
| SseStream.BlankSplitIsUnique | js/confidential/src/sse.ts:52-55 | the batch parse cuts at first blank lines, and no other cut does |
| SseStream.ChunkwiseNewlines | js/confidential/src/sse.ts:50-50 | converting newlines chunk by chunk equals converting the whole text exactly when no CRLF is split |
| SseStream.ChunkingDoesNotMatter | js/confidential/src/sse.ts:40-64 | two chunkings of one text that split no CRLF yield the same frames and outcome |
| SseWitness.SplitCrlfMergesEvents | js/confidential/src/sse.ts:50-63 | for any two data events, one text yields both frames whole, and one frame of the joined data at most when a chunk ends inside its second CRLF |
| GatewayBinding.NormalizedIsNormal | js/confidential/src/gateway/binding.ts:186-258 | every result is in canonical form, with an SPKI exactly when the transport is in-tee-tls |
| GatewayBinding.NormalExactlyWhenFixed | js/confidential/src/gateway/binding.ts:134-258 | a binding normalizes to itself exactly when it is in canonical form |
| GatewayBinding.NormalizeIsIdempotent | js/confidential/src/gateway/binding.ts:186-258 | normalizing a result again changes nothing |
| GatewayBinding.NormalizesExactly | js/confidential/src/gateway/binding.ts:134-258 | a record normalizes to a binding exactly when it is a version 1 record whose fields spell the binding: hex in any case, one 0x where allowed, the parsed origin, and the SPKI digest or null the transport calls for |
| GatewayBinding.JsonFollowsFieldOrder | js/confidential/src/gateway/binding.ts:110-122 | the hashed text lists exactly the eleven fields by name, in the fixed order, each with its value |
| GatewayBinding.JsonIdentifiesBinding | js/confidential/src/gateway/binding.ts:265-271 | equal canonical JSON means equal bindings in all eleven fields |
| GatewayBinding.DigestIdentifiesBinding | js/confidential/src/gateway/binding.ts:274-281 | equal binding hashes mean equal bindings, or a SHA-512 collision |
| GcePzid.Uint64TextsExactly | js/confidential/src/gateway/gce-pzid.ts:39-64 | the string comparison accepts exactly the canonical decimals of 0 to 2^64 - 1 |
| GcePzid.ParseInvertsPrint | js/confidential/src/gateway/gce-pzid.ts:113-138 | a payload parses to an instance exactly when the instance is proper and prints as that payload |
| GcePzid.PrintedReadsBackExactly | js/confidential/src/gateway/gce-pzid.ts:113-138 | what the printer accepts reads back exactly when the numbers are nonzero and the zone has at most 63 characters |
| GcePzid.ShapeIsShort | js/confidential/src/gateway/gce-pzid.ts:36-37 | every proper payload fits the bound |
| GcePzid.RegisterNamesOneInstance | js/confidential/src/gateway/gce-pzid.ts:145-151 | one MR_OWNER names one instance, or two payloads collide under SHA-384 |
| GcePzid.AdmittedInstanceIsMeasured | js/confidential/src/gateway/gce-pzid.ts:140-157 | an instance a rule admits is proper, is the one whose payload the register digests, and any other payload for that register shows the same instance or collides |
| GcePzid.ZonesAscend | js/confidential/src/gateway/gce-pzid.ts:99-108 | comparing neighbours makes all zones of a rule sorted and distinct |
| GcePzid.InstanceExactly | js/confidential/src/gateway/gce-pzid.ts:113-151 | an instance is read exactly from the one text of positive 64-bit numbers and a zone whose digest the register spells in any case |
| GcePzid.RuleExactly | js/confidential/src/gateway/gce-pzid.ts:84-111 | a rule is valid exactly with a positive project number and one to eight zones in strictly ascending order |
| ClientTraces.Wire.ChatOperation | js/confidential/src/client.ts:1486-1653 | the chat, request by request, sends exactly its specified history against any server |
| ClientTraces.Wire.FetchAttestationEvidence | js/confidential/src/client.ts:795-904 | the evidence fetch with its fallback sends exactly its specified history |
| ClientTraces.ChatIsSafe | js/confidential/src/client.ts:1517-1641 | for every server: key to the control origin only and never beside a ticket; each kind of request at most once and in order; the paid ticket only after echo, verdict and evidence gates passed; content last and only on the paid ticket as issued |
| ChatWire.PaidOnlyWhenVouched | js/confidential/src/client.ts:1517-1600 | anything after the redemption is sent only if its reply holds an ok, client-opaque verdict at an accepted level on our nonce, evidence, and no differing echo, and opens a session; and such a reply lets the chat go on |
| ChatWire.GatesExactly | js/confidential/src/client.ts:555-629 | the gates pass exactly on such a reply |
| ChatWire.VerdictExactly | js/confidential/src/client.ts:589-629 | the verdict part of it, field by field |
| ChatWire.HexEqualExactly | js/confidential/src/client.ts:617-629 | nonces agree exactly when both spell one nonempty hex value, case and 0x prefix aside |
| ChatWire.LowerNoncesMustBeEqual | js/confidential/src/client.ts:617-629 | on lowercase hex texts without prefix that agreement is equality |
| ChatWire.ChatSendsExactly | js/confidential/src/client.ts:1486-1653 | every chat sends a prefix of one list of literal requests, each on the ticket the reply before it carried |
| ChatWire.EachRequestExactly | js/confidential/src/client.ts:1486-1653 | each of them is sent exactly when all it waits for is there: valid messages, the ticket in the reply before, the vouching reply, the ceiling, the sealed text, and no stop on the way |
| ChatWire.CeilingIsAdvertised | js/confidential/src/client.ts:1448-1477 | the reserved ceiling is the positive limit of the first catalog entry of the model, its provider's route first |
| ChatWire.FetchSendsExactly | js/confidential/src/client.ts:795-904 | an evidence fetch sends only these literal requests, each ticket as issued |
| ChatWire.KeyPathExactly | js/confidential/src/client.ts:815-873 | the key path is taken exactly on a single origin, after a redemption answered 401 or 404, or without a ticket when the mint answered well or the caller did not cancel |
| ChatWire.MessagesExactly | js/confidential/src/transport/validation.ts:34-68 | message lists are valid exactly with known roles, 1 to 131072 UTF-16 units each, 262144 in all, and a user message |
| ClientTraces.KeyStaysOnControl | js/confidential/src/client.ts:815-873 | when the origins differ no request to the inference origin carries the key |
| ClientTraces.KeySharedExactlyOnOneOrigin | js/confidential/src/client.ts:795-904 | an evidence fetch shows the key to the inference origin exactly when the two origins are one and it sends anything |
| ClientTraces.FetchRedeemsOnce | js/confidential/src/client.ts:815-873 | an attestation ticket is minted and redeemed at most once, as issued |
| ClientTraces.ValidateE2eeMessages | js/confidential/src/transport/validation.ts:34-68 | the loop with its running total accepts exactly lists of sized text messages of known roles, within the total, with a user message |
| ClientTraces.MessagesReachOnlyTheContent | js/confidential/src/client.ts:1486-1641 | a chat with invalid messages sends nothing, and two chats that differ in valid messages send the same requests up to the sealed one |
| MediaExchange.MediaClient.Exchange | js/confidential/src/media.ts:517-635 | mint then post, with no retry, sends exactly the specified history |
| MediaWire.SendsExactly | js/confidential/src/media.ts:760-840 | a call sends nothing exactly when refused or stopped, else the ticket request with the key, and the content request exactly after an answer that issues a ticket, all with literal paths and bodies |
| MediaWire.EntitlesExactly | js/confidential/src/media.ts:401-440 | an answer entitles to content exactly when it is 2xx with a ticket and every echo, by name, is absent or what was asked for |
| MediaWire.ImageShapeExactly | js/confidential/src/media.ts:270-335 | an image call is accepted exactly when model and prompt fit and the size spells two dimensions from 128 to 2048, and is told as those |
| MediaWire.SpeechShapeExactly | js/confidential/src/media.ts:336-373 | a speech call is accepted exactly when its texts fit, and is told as its length and voice |
| MediaExchange.AssertTicketBinding | js/confidential/src/media.ts:401-440 | the field loop returns the ticket exactly when every echo is absent or equal, and absent where nothing was asked for |
| MediaExchange.ContentOnlyOnItsTicket | js/confidential/src/media.ts:760-840 | content is posted at most once, without the key, and only on the ticket just issued whose present echoes all match |
| MediaExchange.ControlLearnsExactlyTheShape | js/confidential/src/media.ts:761-825 | the serialized control requests of two accepted calls are one text exactly when their content-free shapes agree |
| MediaExchange.ContentSaysTheCall | js/confidential/src/media.ts:776-839 | the serialized content requests of two accepted calls are one text exactly when shape and text agree |
| MediaExchange.ContentIsInvisibleToControl | js/confidential/src/media.ts:299-373 | calls that differ only in the prompt look alike to control, and spoken texts do exactly when their UTF-16 lengths agree |
| MediaExchange.SizesAgreeExactly | js/confidential/src/media.ts:270-286 | canonical sizes are fixed points, and equal exactly for equal dimensions |
| MediaExchange.ClientsDifferExactlyOnNull | python/src/anonrouter_confidential/media.py:527-575 | the Python echo check accepts more than the JavaScript one exactly on a null echo, or true for 1 |
| FlatJson.StringifyInjective | js/confidential/src/gateway/binding.ts:265-271 | the text of a flat object identifies its fields and their order |
| Text.HexDigitsInOrder | js/confidential/src/bytes.ts:8-10 | the printed hex digits are 0 to 9 and a to f, in order |
| Utf16.LengthCountsAstralTwice | python/src/anonrouter_confidential/media.py:166-180 | the priced count is code points plus astral characters, and the Python byte count computes the JavaScript length |
| Utf16.LengthIsAdditive | js/confidential/src/media.ts:218-230 | the priced count is additive |
| Utf16.CodePointsSufficeExactly | python/src/anonrouter_confidential/media.py:166-180 | counting code points instead is right exactly when no character is astral |
| MintPacer.Pacer.Attempt | js/confidential/examples/route-matrix.ts:105-116 | one turn of the pacer: drop old entries, then mint or compute the wait |
| MintPacer.AtMostLimitPerMinute | js/confidential/examples/route-matrix.ts:105-116 | over the whole history of any non-decreasing clock, no closed minute holds more mints than the limit rounded up |
| MintPacer.MintsExactly | js/confidential/examples/route-matrix.ts:105-112 | over any history, a reading mints exactly when fewer than limit mints of the whole history lie within the minute before it |
| MintPacer.LimitKeptExactlyWhenWhole | js/confidential/examples/route-matrix.ts:103-112 | the limit itself is kept exactly when it is a whole number |
| MintPacer.AfterKeeps | js/confidential/examples/route-matrix.ts:104-112 | the queue is always the suffix of the history that is not yet out of the window |
| MintPacer.WaitingAlwaysHelps | js/confidential/examples/route-matrix.ts:113-114 | after the computed wait the oldest entry is gone, and a caller alone mints |

## Left out

- Real TLS, DNS, HTTP, `fetch`, timers and streams: they appear as events, replies and clock readings; order guarantees the Node runtime gives (no response before a request's socket event, callbacks of one kind once) are the enabling conditions in `RetainedOperation.Enabled`.
- Certificate and hostname checking, evidence and quote verification, policy loading, provider encryption and session key derivation: arbitrary verdicts, predicates or functions.
- The retained connection of the Python SDK (`retained_sync`) is not part of this model: `BoundClient` treats it as an object that opens, may die, and closes; `BoundClient` lets a failed constructor decide freely whether its failure may be retried.
- `boundedPreparation` and `AbortSignal` timeouts appear only as the failure codes they produce.
- The socket, terms and traffic of the retained operation are grouped into value records inside `RetainedState.State`; the individual closure variables of one exchange are one record in a sequence.
- `joinClosed` waits for the owners it knows when it is called; `RetainedOperation.OwnersJoined` waits for all of them, so a DNS lookup that starts after that call is not modelled as escaping the join.
- A second socket event of one request, a promise settled twice and other effects that the runtime makes idempotent are single steps that do nothing the second time.
- Lone surrogates, sparse arrays, getters, `toJSON`, prototype properties and engine recursion limits: strings are sequences of Unicode scalar values and objects are lists of own enumerable fields.
- `CanonicalRoundTrip` stands for both encoders; the Policy profile has no depth bound, as in the source.
- `parseEventLog`, release-policy feed handling, route-verdict assembly, withheld-route lookup, response parsing of media, status-code mapping, redaction and CLI code: straightforward members that no property here needs.
- `SseStream.ParseSseStream`: the generator is run to its end; a consumer that stops reading early sees a prefix of the same events.
- `ClientTraces` covers the chat and the evidence fetch over either transport; the optional gateway-hop check before a chat is one of the local checks that may stop it.
- `MediaExchange` follows the JavaScript client; of the Python client it models the echo comparison and the count. Python treats statuses below 400 as success and its size pattern also matches non-ASCII digits and a final newline.
- `MintPacer`: a limit that is not a number never mints in the source and is not a value here.
- `EventLog.PayloadIsMeasured` keeps one disjunct for bytes that are at once a V1 preimage and V2 JSON, since decoding is a parameter.
