# Verified model of the SDPN protocols and stores

This project models the protocols and stores whose correctness depends on whole runs, and proves what they keep:

- **Native peer session** (`NativeSession`, `SessionRuns`, `SessionPolicy`, `SessionAuthority`): signed offer and accept, direction-bound keys, numbered sealed frames, and the bounded replay map. `SessionRuns` puts any number of honest ports on a network that drops, duplicates, reorders, alters and invents messages.
- **Two-host proof** (`Transcripts`, `Timestamps`, `ProofReceiver`, `ProofRuns`, `ReceiptInspector`, `ProofAuthority`): the receiver's handlers cut at every `await`, the sender, the pipe-joined transcripts, and the Python inspector as a second reader of the same receipts.
- **Worker transfer** (`WorkerTransfer`, `WorkerFailure`): the request table, the worker, and who owns each buffer.
- **Canonical JSON, names and directories** (`Json`, `Utf8`, `CanonicalJson`, `Text`, `Letters`, `PortUri`, `PortGrammar`, `SignedDirectories`, `Identity`): printer and parser, the two `port://` implementations, and the two signed directories.
- **Control plane** (`HashChain`, `Lifecycle`, `LifecycleHistory`, `CommunicationLedger`, `DurableState`, `DurableOutcomes`, `PortDispatch`, `DispatchOutcomes`, `RouteExecution`, `RouteOutcomes`): hash-chained logs, transactional accounting, idempotent dispatch, effects at most once, routes with retries.
- **Browser package** (`Base64`, `BrowserPackage`, `BrowserOutcomes`): base64, framing, sealing and opening.

Code that updates an object is a class whose methods are proved equal to a function of the old state; runs, invariants and main results are lemmas about those functions. The `Authority`, `Failure`, `History` and `Outcomes` modules say when each operation succeeds and what it leaves, over runs and in terms of the fields of its inputs, independently of the predicates that the methods share. Loops of the original (eviction, table scans, retries, buffer filling, row checks) are loops here.

`dafny verify dfyconfig.toml` checks everything.

## Modelling decisions

- Cryptography is symbolic where only its idealised meaning counts: a digest, MAC, signature, key or ciphertext is a constructor applied to its inputs, so equal outputs have equal inputs, and only the owner of a key or secret can make a term under it. `BrowserPackage` works on real bytes and takes the cipher as a parameter with its round-trip law.
- Clocks, random identifiers, transport answers and adapter answers are parameters. Nothing assumes a clock moves forward unless a lemma says so.
- JavaScript strings are sequences of 16-bit code units, so unpaired surrogates are inside the model.
- An exception is a value of a result type, and the state it leaves behind is stated.

## What the code does that its description does not say

- A port that its own policy authorizes can hold a session with itself; then both direction keys are one key and a (key, nonce) pair is sealed twice (`SessionRuns.SelfSessionReusesKeyAndNonce`). All secrecy results need two different ports.
- A clock that steps back lets the same offer in again (`SessionPolicy.BackwardClockReadmits`); `SessionPolicy.AdmittedExactlyWhen` says exactly when, for every clock.
- Rollback protection of a directory ends when the record is evicted (`SignedDirectories.EvictionForgetsRevision`).
- A state identity with unpaired surrogates is encoded with replacement characters, so different identities share their transcript bytes (`Transcripts.IllFormedStateIdsCollide`). The bytes determine it exactly when it is well formed and has no replacement character itself (`Transcripts.ProofFixesExactlyUniqueStateIds`, `Transcripts.ReceiptFixesExactlyUniqueStateIds`).
- The Python inspector cannot encode an ill-formed state identity, and counts the secret's characters differently. `ReceiptInspector.InspectorAcceptsIssuedReceipts` gives the exact condition.
- The challenge handler can be parked any number of times (`ProofReceiver.HandlersParkWithoutBound`); only its second capacity test keeps the bound.
- `create` commits before its first event, and `verify` refuses in between (`Lifecycle.CreateHasAGap`). An `extra` that overrides `event_hash`, or `sequence` with another number, spoils its transaction for good (`Lifecycle.HarmfulExtraSpoilsForGood`, `Lifecycle.EventHashInExtraSpoils`).
- Receipts with an evidence hash that is already stored are lost in the durable mode, although the transport delivered (`PortDispatch.DeliveredReceiptsCanBeLost`); `PortDispatch.RecordsExactlyWhen` gives the exact condition.
- A retry sends a signature that covers another attempt number (`RouteExecution.OnlyTheSignedAttemptVerifies`).
- `sealFile` seals metadata that `openPackage` refuses (`BrowserPackage.SealedButNeverOpened`); `BrowserPackage.OpenOfSeal` gives the exact condition.

## Model

| member | source | states |
|---|---|---|
| `SessionPolicy.NativeSessionPolicy.Authorize` | src/native-session.mjs:33-38 | a peer, scope and adapter pass exactly when the owner listed all three, they are well formed and the peer is not revoked |
| `SessionPolicy.NativeSessionPolicy.ConsumeId` | src/native-session.mjs:40-44 | the eviction loop followed by the replay and capacity test leaves exactly the map the specification function gives |
| `SessionPolicy.RunsAreFaithful` | src/native-session.mjs:40-44 | after any run with a non-decreasing clock the map holds every unexpired accepted id with its expiry, nothing that was not accepted, and stays within capacity |
| `SessionPolicy.ReplayMapRefinesUnboundedSet` | src/native-session.mjs:40-44 | the bounded, self-evicting map decides as an unbounded set of unexpired accepted ids would, plus a limit on how many are outstanding |
| `SessionPolicy.NoOfferAcceptedTwice` | src/native-session.mjs:50-58 | under one policy no signed offer is ever accepted twice, even after its id was evicted |
| `SessionPolicy.BackwardClockReadmits` | src/native-session.mjs:40-44 | without a non-decreasing clock it can be: a run that accepts one offer twice |
| `SessionPolicy.UsedIsRemembered` | src/native-session.mjs:40-44 | for every clock the map holds exactly the ids admitted and not since passed by a live attempt whose clock reached their expiry |
| `SessionPolicy.AdmittedExactlyWhen` | src/native-session.mjs:40-44 | for every clock an offer is admitted exactly when it is live, there is room, and its id is not remembered until later than now |
| `SessionPolicy.ReadmissionNeedsTheClockToGoBack` | src/native-session.mjs:40-44 | an offer is admitted twice only if a live attempt in between read a clock at or after its expiry and the clock then went back |
| `NativeSession.NonceInjective` | src/native-session.mjs:78 | different frame numbers below 2^64 give different 12-byte nonces |
| `NativeSession.NativeEndpoint.Seal` | src/native-session.mjs:83-89 | seals under the send key, the next nonce and the header of this direction, or refuses and changes nothing |
| `NativeSession.NativeEndpoint.Open` | src/native-session.mjs:90-100 | refuses without change on any early check, closes for good on a failed tag, otherwise returns the plaintext and advances |
| `NativeSession.NativeEndpoint.Close` | src/native-session.mjs:101 | closes and changes nothing else |
| `NativeSession.NativeOffer.Finish` | src/native-session.mjs:115-124 | yields a grant at most once, and only for an accept bound to exactly this offer and allowed by policy at that time |
| `NativeSession.NativeOffer.Cancel` | src/native-session.mjs:125 | a cancelled offer can no longer finish |
| `SessionRuns.RunKeepsInv` | src/native-session.mjs:63-139 | every event of every run keeps the invariant that ties offers, sessions, secrets and delivered plaintexts together |
| `SessionRuns.ReceivedIsPrefixOfSent` | src/native-session.mjs:63-102 | over any such network what each side of a session between two different honest ports has opened is a prefix of what the other was given to seal, both directions at once |
| `SessionRuns.NothingFromNobody` | src/native-session.mjs:90-100 | an endpoint that returned a plaintext has a partner endpoint with the same handshake |
| `SessionRuns.FinishMeansAgreement` | src/native-session.mjs:115-138 | if finish succeeded with an honest peer, the peer accepted this very offer with the same id, scope, adapter and expiry, each send key is the other's receive key, and the two keys differ exactly when the ports do |
| `SessionRuns.NoKeyNonceReuse` | src/native-session.mjs:65-88 | in no run do two seals of endpoints between different ports use the same key and nonce |
| `SessionRuns.ClosedStaysClosed` | src/native-session.mjs:99-101 | a closed endpoint never changes again |
| `SessionRuns.OneFailureEndsTheEndpoint` | src/native-session.mjs:96-101 | one frame that fails authentication freezes the endpoint: whatever follows, it seals and opens nothing more |
| `SessionRuns.InOrderFrameOpens` | src/native-session.mjs:83-98 | the next frame of an active partner opens to exactly the sealed bytes |
| `SessionRuns.SelfSessionReusesKeyAndNonce` | src/native-session.mjs:69-71 | a possible run in which a port talking to itself seals twice under one key and nonce |
| `SessionAuthority.RevokedPeerIsCutOff` | src/native-session.mjs:33-39 | after a policy revokes a peer, or for a peer it never listed, whatever follows: no session under it with that peer seals or opens another byte, and none is made |
| `SessionAuthority.RevokingOnlyRevokes` | src/native-session.mjs:39 | revoking adds a listed peer to the revoked ones, ignores any other name, and touches nothing else |
| `SessionAuthority.ClosingIsFinal` | src/native-session.mjs:101 | closing is the last thing that happens to a session, whatever follows |
| `SessionAuthority.CancelledOffersMakeNoSession` | src/native-session.mjs:116-125 | a cancelled offer makes no session, whatever follows |
| `SessionAuthority.ScopesAndAdaptersFitTheirPatterns` | src/native-session.mjs:7-15 | scopes and adapters pass exactly when they fit the written patterns, letter by letter |
| `SessionAuthority.SealsExactlyWhen` | src/native-session.mjs:74-89 | sealing appends the bytes exactly for an open session, both controls unexpired, peer, state and adapter listed and well formed, peer unrevoked, within size and count; otherwise nothing changes |
| `SessionAuthority.OpensExactlyWhen` | src/native-session.mjs:74-100 | opening returns bytes exactly for the next frame of such a session sealed under the peer's direction key, nonce and header; a next frame with any other box closes the session; anything else changes nothing |
| `SessionAuthority.OffersExactlyWhen` | src/native-session.mjs:105-114 | an offer is made exactly for a signed, current record of a permitted peer that advertises the capability; it is signed for that peer, lasts thirty seconds and carries a new secret |
| `SessionAuthority.AcceptsExactlyWhen` | src/native-session.mjs:128-139 | a session is accepted exactly for a current signed offer from the record's port to this one that the policy permits and whose id is unused; the answer repeats its terms and names its digest |
| `SessionAuthority.FinishesExactlyWhen` | src/native-session.mjs:115-124 | finishing makes one session and uses the offer up exactly for a current answer of its peer with the same session, digest, expiry, scope and adapter that the policy still permits |
| `SignedDirectories.SignedDirectory.IngestRecord` | src/native-port-identity.mjs:95-105 | verification, revocation, rollback test, eviction loop and capacity test leave exactly the specified directory, eviction included when capacity then refuses |
| `SignedDirectories.SignedDirectory.RevokeSigner` | src/native-port-identity.mjs:113-116 | adds the signer and drops its record, or refuses at the revocation limit |
| `SignedDirectories.SignedDirectory.GetRecord` | src/native-port-identity.mjs:106-112 | returns a record exactly when its signer is not revoked and it still verifies under the identity asked for |
| `SignedDirectories.RunsAreSound` | src/native-port-identity.mjs:88-117 | every run of ingests and revocations stays within capacity, keys each record by its own signer and holds no revoked signer |
| `SignedDirectories.RevocationIsPermanent` | src/port-names.mjs:137-141 | once revoked, a signer never has a record again |
| `SignedDirectories.NoRollbackWhileRetained` | src/port-names.mjs:119-124 | while a signer's record is retained it is only replaced by a higher revision or an identical record |
| `SignedDirectories.RecordsLeaveByExpiryOrRevocation` | src/port-names.mjs:125-127 | no other signer's activity removes a record that has not expired |
| `SignedDirectories.CapacityTestsAgree` | src/port-names.mjs:125-126 | testing capacity against presence before eviction or after it gives the same result on every directory within capacity |
| `SignedDirectories.EvictionForgetsRevision` | src/port-names.mjs:120-127 | after eviction a still-live older revision is accepted, which before was refused exactly when it conflicted |
| `SignedDirectories.RetainedRecordsAreWellSigned` | src/native-port-identity.mjs:47-71 | whatever a run retains was signed by the port it is filed under, with a positive revision, a window within the longest lifetime and acceptable content |
| `SignedDirectories.FoundExactlyWhileCurrent` | src/native-port-identity.mjs:106-112 | after every run a signer's record is returned exactly while it is retained, the signer is unrevoked and the time lies in the record's own window |
| `SignedDirectories.OutsideItsWindowNothingChanges` | src/native-port-identity.mjs:61 | a record before its window or at its expiry and after never changes the directory |
| `SignedDirectories.TakenExactlyWhen` | src/native-port-identity.mjs:95-105 | after every run a record is taken exactly when it is well signed, current, of an unrevoked signer, newer than the retained one or that very record, and fits; taking it drops exactly what has expired |
| `SignedDirectories.RevokedExactlyWhen` | src/native-port-identity.mjs:113-116 | revoking fails exactly for a new signer beyond the limit; otherwise it adds the signer and drops its record only |
| `SignedDirectories.RevocationsStayWithinTheirLimit` | src/native-port-identity.mjs:114 | no run revokes more signers than the limit |
| `SignedDirectories.PeerContentsFitTheirPattern` | src/native-port-identity.mjs:63-69 | the content of a peer record passes exactly when it fits the written patterns |
| `Json.ParseOfPrint` | src/native-port-identity.mjs:14 | parsing printed JSON gives the value back, all string escapes and unpaired surrogates included |
| `Json.ConcatenationInjective` | src/native-session.mjs:67 | two printed objects in a row, as the session binding hashes them, can be cut in only one place |
| `Json.PrintIsWellFormed` | src/native-port-identity.mjs:14 | printed text has no unpaired surrogate, so its UTF-8 form loses nothing |
| `Utf8.DecodeOfEncode` | public/app-core.mjs:5-6 | a fatal decoder reads back what the encoder wrote for every well-formed text |
| `CanonicalJson.CanonicalTextIsTheValue` | src/native-port-identity.mjs:4-15 | canonical bytes are equal exactly when two values are equal up to key order |
| `CanonicalJson.ParseAndReprintIsStable` | src/native-port-identity.mjs:42-53 | parsing canonical bytes and canonicalising again changes nothing, integer-like keys included |
| `CanonicalJson.SignedBodyIsOneValue` | src/native-port-identity.mjs:40-54 | the body signed, returned by verification and stored is one value, and a signature verifies exactly the bodies that mean the same |
| `PortUri.MakersAgree` | community/src/index.mjs:87-95 | both makers accept the same arguments and write the same URI |
| `PortUri.ParseOfMake` | src/port-names.mjs:30-57 | parsing a made URI returns exactly the owner, name and path, an empty path as a slash |
| `PortUri.ParseWithoutSlash` | src/port-names.mjs:52 | a made URI also parses without its final slash |
| `PortUri.MakeInjective` | src/port-names.mjs:30-34 | different owner, name or path give different URIs, also when name labels look like namespace halves |
| `PortUri.ReparseIsStable` | src/port-names.mjs:55-56 | the canonical URI of an address parses to that address and differs from what was parsed by a final slash at most |
| `PortUri.AcceptedExactlyWhenMade` | src/port-names.mjs:35-57 | the parser accepts exactly the made URIs, with or without a final slash |
| `PortUri.ParsersAgree` | community/src/index.mjs:96-119 | both parsers accept the same URIs with the same owner and name, and the same path but for empty versus slash |
| `PortUri.AtomsAgree` | community/src/index.mjs:14 | the two name patterns describe the same labels |
| `PortUri.CheckEntries` | src/port-names.mjs:65-75 | the loop over a set of seen names accepts exactly one to 128 acceptable entries without a repeated name |
| `PortUri.EntryChecksAgree` | community/src/index.mjs:127-137 | both implementations accept the same entries |
| `PortUri.ResolvesExactlyWhatIsSigned` | src/port-names.mjs:94-108 | a made URI resolves to a target exactly when its owner signed that pair, and the community resolver answers alike |
| `PortUri.DirectoryResolvesSignedNames` | src/port-names.mjs:130-136 | in every run of a name directory a made URI resolves exactly to what its owner's retained, unrevoked, unexpired record signs |
| `PortGrammar.MadeExactlyWhenWritten` | src/port-names.mjs:15-34 | exactly the written owners, names and paths have a URI, and it is the labels, the two halves of the owner's hash, the suffix and the path |
| `PortGrammar.EntriesFit` | src/port-names.mjs:65-75 | a list of entries passes exactly when it has 1 to 128, different written names and written owners as targets |
| `PortGrammar.RetainedNamesAreBindings` | src/port-names.mjs:58-77 | whatever a name directory retains after a run was signed for an hour at most and binds different written names to written owners |
| `Transcripts.ReceiptTranscriptInjective` | src/two-machine-proof.mjs:113-138 | receipts with the same encoded transcript agree on every encoded field |
| `Transcripts.ProofTranscriptInjective` | src/two-machine-proof.mjs:88-111 | proofs with the same encoded transcript agree on every encoded field |
| `Transcripts.ProofIsNoReceipt` | src/two-machine-proof.mjs:88-138 | no proof transcript is a receipt transcript |
| `Transcripts.WellFormedReceiptsAreDetermined` | src/two-machine-proof.mjs:113-138 | receipts with well-formed text fields have the same bytes under the MAC exactly when they are equal |
| `Transcripts.WellFormedProofsAreDetermined` | src/two-machine-proof.mjs:88-111 | proofs with well-formed text fields have the same bytes under the MAC exactly when they are equal |
| `Transcripts.ProofFixesExactlyUniqueStateIds` | src/two-machine-proof.mjs:88-111 | the bytes under a proof's MAC determine its state identity exactly when that is well formed and has no replacement character |
| `Transcripts.ReceiptFixesExactlyUniqueStateIds` | src/two-machine-proof.mjs:113-138 | the bytes under a receipt's MAC determine its state identity exactly when that is well formed and has no replacement character |
| `Transcripts.IllFormedStateIdsCollide` | src/two-machine-proof.mjs:24-26 | three different state identities, one of them well formed, whose proofs share their bytes |
| `Timestamps.IsoTextParses` | interconnect/evidence.py:66-68 | Python reads every timestamp that toISOString writes for an instant from 1970 to the year 9999 |
| `Timestamps.ParsesExactlyWhatIsWritten` | interconnect/evidence.py:66-68 | of the texts in toISOString's layout Python accepts exactly those that name an instant on the calendar |
| `ProofReceiver.ReadBody` | src/two-machine-proof.mjs:150-161 | the chunk loop returns the whole body exactly when it is within the limit |
| `ProofReceiver.Receiver.ExpireSessions` | src/two-machine-proof.mjs:191-196 | the loop drops exactly the expired sessions |
| `ProofReceiver.Receiver.OnChallenge` | src/two-machine-proof.mjs:202-207 | expiry and first capacity test, up to the await |
| `ProofReceiver.Receiver.OnHello` | src/two-machine-proof.mjs:208-261 | the checks after the await, second capacity test included, and the one session they may add |
| `ProofReceiver.Receiver.OnTransfer` | src/two-machine-proof.mjs:263-290 | unknown or expired sessions are dropped, a wrong authorization changes nothing, a right one consumes the session before the await |
| `ProofReceiver.Receiver.OnBody` | src/two-machine-proof.mjs:292-349 | decrypts, classifies and signs exactly the receipt for the consumed session, or reports why not |
| `ProofReceiver.Receiver.OnSink` | src/two-machine-proof.mjs:350-357 | a receipt is returned only after the sink stored it |
| `ProofReceiver.RunKeepsInv` | src/two-machine-proof.mjs:200-367 | every handler step, tick and shutdown in every interleaving keeps the receiver's invariant |
| `ProofReceiver.SessionsAreBoundedAndOneShot` | src/two-machine-proof.mjs:191-291 | in every interleaving the session map stays within maxSessions, each session is consumed once at most, and gives one receipt at most |
| `ProofReceiver.SecondAttemptIsRefused` | src/two-machine-proof.mjs:277-281 | a second transfer on a consumed session gets 401 whatever it carries |
| `ProofReceiver.HandlersParkWithoutBound` | src/two-machine-proof.mjs:203-207 | the first capacity test alone does not bound parked handlers |
| `ProofRuns.ReceiptsReportSentPayloads` | src/two-machine-proof.mjs:283-357 | every receipt ever signed is about bytes an honest sender sealed for that session, so the 422 integrity receipt is unreachable |
| `ProofRuns.SenderSuccessMeansDelivery` | src/two-machine-proof.mjs:486-522 | if the sender returns, the receiver decrypted exactly its payload for exactly that session, and the two-host flag says fingerprints differ and no loopback |
| `ProofAuthority.OnlySendingsConsume` | src/two-machine-proof.mjs:277-290 | in every run each consumed session was consumed for a sending with that session's id, challenge, ports, state hash, generation, payload digest and size, and a state identity of the same bytes |
| `ProofAuthority.TransferConsumesExactlyWhenSent` | src/two-machine-proof.mjs:277-290 | after every run: 401 when the session is gone or too old; 403 and nothing changed when no sending about that session made the authorization; otherwise the session is consumed |
| `ProofAuthority.BodySignsExactlyWhenSealed` | src/two-machine-proof.mjs:292-349 | a waiting handler signs one receipt, which says exactly what arrived, when a sending about its session sealed the body under its iv; otherwise 400 or 422 and no receipt |
| `ProofAuthority.OnlyYoungSessionsCount` | src/two-machine-proof.mjs:191-206 | the timer keeps exactly the sessions younger than the lifetime, and a challenge is admitted exactly while those leave room |
| `ProofAuthority.ChallengeBeginsExactlyWhen` | src/two-machine-proof.mjs:207-260 | a read challenge begins a session exactly when it keeps every limit, a handler was waiting and the young sessions leave room; the session holds what was asked |
| `ProofAuthority.ReceiptsAreSentOnceStored` | src/two-machine-proof.mjs:350-357 | in every run a receipt is sent, with status 200, exactly when its own sink reports it stored |
| `ProofAuthority.SenderAcceptsExactlyWhen` | src/two-machine-proof.mjs:491-520 | for every receipt and MAC a sender accepts exactly under its own MAC, when the receipt says what one for its payload says, apart from the announced digest, which it does not compare |
| `ProofAuthority.SendersAcceptExactlyTheirOwn` | src/two-machine-proof.mjs:491-520 | a sender accepts an issued receipt exactly when it is about its own session, ports, state, generation and payload |
| `ReceiptInspector.TranscriptsAgree` | interconnect/evidence.py:73 | the Python and JavaScript transcripts of every receipt are the same text |
| `ReceiptInspector.CheckPayload` | interconnect/evidence.py:78-89 | the chunk loop accepts exactly a payload of the stated size and digest |
| `ReceiptInspector.UniquePairs` | interconnect/evidence.py:20-26 | the loop gives exactly the dictionary of the pairs, or an error when a field repeats |
| `ReceiptInspector.ReadsExactlyWhatIsWritten` | interconnect/evidence.py:38-52 | the field-set and type tests accept exactly the objects the receiver writes for some receipt, and read that receipt |
| `ReceiptInspector.InspectReceipt` | interconnect/evidence.py:37-95 | the field-set and type tests and the chain of checks give the specified verdict for every JSON object |
| `ReceiptInspector.InspectorAcceptsIssuedReceipts` | interconnect/evidence.py:37-95 | every success receipt of every run is accepted with MAC and payload verified exactly when state identity and secret are well-formed text and the secret has 32 characters as Python counts; without a secret its payload always verifies |
| `ProofAuthority.InspectedExactlyWhenAuthentic` | interconnect/evidence.py:37-95 | for every object, secret and payload: verified exactly when the object is the written form of a receipt with proper claims, its MAC is the secret's over that receipt, and the payload has its size and digest; otherwise rejected |
| `ProofAuthority.VerifiedReceiptWasIssued` | interconnect/evidence.py:70-89 | over every run a verified object whose MAC the network can show agrees with an issued receipt on every encoded field, and its payload is the one the receiver decrypted |
| `ProofAuthority.PairedSecretsAreTooShort` | interconnect/evidence.py:71 | sixteen characters outside the basic plane satisfy the receiver's length test, and the inspector rejects everything under them |
| `WorkerTransfer.DirectPipeWorkerTransfer.TransferBuffer` | src/direct-pipe-worker-transfer.mjs:41-73 | admission tests, the new table entry, and the failure of the whole pipe when posting throws or does not detach |
| `WorkerTransfer.DirectPipeWorkerTransfer.ReceiveReply` | src/direct-pipe-worker-transfer.mjs:75-112 | unknown ids are dropped, an intact reply resolves its request, any other rejects it and fails the pipe |
| `WorkerTransfer.DirectPipeWorkerTransfer.FailAll` | src/direct-pipe-worker-transfer.mjs:114-123 | the loop rejects every pending request once and closes |
| `WorkerTransfer.DirectPipeWorkerTransfer.Close` | src/direct-pipe-worker-transfer.mjs:125-128 | closing is failing, once |
| `WorkerTransfer.EveryTransferSettlesOnce` | src/direct-pipe-worker-transfer.mjs:41-128 | in every interleaving, with any worker, an id is pending or settled exactly when it was admitted, never both and settled once at most; pending is bounded and empty once closed; every buffer has exactly one owner; a resolved output equals its input |
| `WorkerTransfer.ClosedIsPermanent` | src/direct-pipe-worker-transfer.mjs:114-128 | a closed pipe admits and settles nothing more |
| `WorkerTransfer.QueueResolves` | src/direct-pipe-worker-transfer.mjs:75-112 | in a queue of honest replies the first one that names a pending request resolves it with its input and returns its buffer |
| `WorkerTransfer.EchoResolves` | src/direct-pipe-worker.mjs:8-25 | an honest answer to a pending request, behind any number of honest replies, resolves it with the bytes transferred once all have arrived, and hands the buffer back |
| `WorkerFailure.ReplySettlesOneOrEndsAll` | src/direct-pipe-worker-transfer.mjs:75-123 | in every run a reply that names no pending request changes nothing, one that returns the input of its request resolves that one alone, and any other ends the pipe and rejects every request |
| `WorkerFailure.OpenExactlyAfterGoodReplies` | src/direct-pipe-worker-transfer.mjs:75-112 | a delivered reply leaves an open pipe open exactly when it names no pending request or equals that request's input with its length and digest |
| `WorkerFailure.FailuresEndThePipe` | src/direct-pipe-worker-transfer.mjs:114-128 | a timeout of a request in flight, a worker error, its exit and a close end an open pipe and reject exactly what was pending; the timeout of a settled request does nothing |
| `WorkerFailure.TransferAdmitsExactlyWhen` | src/direct-pipe-worker-transfer.mjs:41-73 | in every run a transfer is admitted exactly when the pipe is open, the size fits and there is room; a post that throws or does not detach ends the pipe and rejects its request with the others |
| `HashChain.SameTailSameChain` | candidates/python-network/src/kindred_superstructure/strata_network.py:82-86 | two linked chains with the same last hash are the same chain, lengths included |
| `Lifecycle.LifecycleStore.Move` | candidates/python-network/src/kindred_superstructure/strata_network.py:68-78 | a transition appends one event and moves the projection, or changes nothing |
| `Lifecycle.LifecycleStore.Create` | candidates/python-network/src/kindred_superstructure/strata_network.py:64-67 | two transactions; a failure of the second leaves the first |
| `Lifecycle.LifecycleStore.VerifyTransaction` | candidates/python-network/src/kindred_superstructure/strata_network.py:79-88 | the loop accepts, refuses or raises exactly as the first bad row decides |
| `Lifecycle.VerifyAcceptsExactlyCleanRuns` | candidates/python-network/src/kindred_superstructure/strata_network.py:61-88 | after every interleaved run version is the event count and the last hash the tail, and verify accepts exactly the transactions that have an event and no committed extra that overrides event_hash or sequence |
| `Lifecycle.HarmfulExtraSpoilsForGood` | candidates/python-network/src/kindred_superstructure/strata_network.py:74-88 | one committed event with a harmful extra makes verify refuse its transaction after every continuation |
| `Lifecycle.EventHashInExtraSpoils` | candidates/python-network/src/kindred_superstructure/strata_network.py:74 | runs from the empty store that do so: a first transition whose extra names event_hash |
| `Lifecycle.CreateHasAGap` | candidates/python-network/src/kindred_superstructure/strata_network.py:66-67 | verify refuses between the two transactions of create and accepts after the second |
| `Lifecycle.AcceptedTablesAgree` | candidates/python-network/src/kindred_superstructure/strata_network.py:79-88 | with the projection row intact, any altered event table that verify accepts has exactly the original decoded events, hashes and links |
| `LifecycleHistory.RowsTellTheCommits` | candidates/python-network/src/kindred_superstructure/strata_network.py:68-78 | after every run the rows of a transaction tell its committed transitions in order, entry by entry, each starting in the state the one before left; the projection holds their number, last hash, state, blocker and reconciliation, and the sum of the retries |
| `LifecycleHistory.StatesFormAChain` | candidates/python-network/src/kindred_superstructure/strata_network.py:72-76 | wherever extra leaves the two states alone, every event starts where its predecessor ended, from "received" to the projection's status |
| `LifecycleHistory.TransitionCommitsExactlyWhen` | candidates/python-network/src/kindred_superstructure/strata_network.py:69-77 | a transition commits exactly when its transaction exists, at the expected version if one is named, and its event id can be stored and is unused; otherwise nothing changes |
| `LifecycleHistory.ColumnKeeps` | candidates/python-network/src/kindred_superstructure/strata_network.py:75 | what the event id column keeps of a value |
| `LifecycleHistory.InsertsOnce` | candidates/python-network/src/kindred_superstructure/strata_network.py:66 | an insertion adds a fresh projection exactly for an unknown transaction |
| `LifecycleHistory.VerifiesExactlyWhen` | candidates/python-network/src/kindred_superstructure/strata_network.py:79-88 | on any tables verify accepts exactly when every row stores its own number and hash and hashes its event onto its predecessor and the projection agrees; it raises exactly at a row that is no object behind rows that verify |
| `LifecycleHistory.AcceptedRowsAreTheRunsRows` | candidates/python-network/src/kindred_superstructure/strata_network.py:79-88 | an accepted altered table holds the run's rows, whole events included, apart from the event id column |
| `CommunicationLedger.Ledger.AppendEvent` | candidates/python-network/src/kindred_superstructure/communications.py:61-74 | validation, unique keys and the fallback to the first event of a callback id |
| `CommunicationLedger.Ledger.Verify` | candidates/python-network/src/kindred_superstructure/communications.py:76-84 | the loop accepts exactly self-consistent rows that form one chain |
| `CommunicationLedger.ValidMeansTruthful` | candidates/python-network/src/kindred_superstructure/communications.py:87-92 | a transition validates exactly when the recorded event obeys the truth-promotion rules |
| `CommunicationLedger.EveryChainVerifies` | candidates/python-network/src/kindred_superstructure/communications.py:61-92 | after every run of appends each message verifies, each event starts in its predecessor's new state and every stored state obeys the rules |
| `CommunicationLedger.CallbacksAreUnique` | candidates/python-network/src/kindred_superstructure/communications.py:60 | no two events of a run share an event id or a callback id |
| `CommunicationLedger.AppendedExactlyWhen` | candidates/python-network/src/kindred_superstructure/communications.py:61-74 | after every run an event is appended exactly when it is truthful after its message's state and its ids are unused; its row holds both states hashed onto the last hash; otherwise the log stays and the outcome says why |
| `CommunicationLedger.RepeatedCallbackChangesNothing` | candidates/python-network/src/kindred_superstructure/communications.py:67-74 | a repeated callback id never changes the log; it returns the first event unless validation rejects it or the id is empty |
| `CommunicationLedger.SameFinalHashSameHistory` | candidates/python-network/src/kindred_superstructure/communications.py:76-84 | two verifying histories with the same final hash are identical, lengths included |
| `DurableState.SQLiteState.Post` | candidates/python-network/src/kindred_superstructure/persistence.py:101-107 | inserts line by line and rolls back as a whole at the first line that fails |
| `DurableState.SQLiteState.Reserve` | candidates/python-network/src/kindred_superstructure/persistence.py:109-121 | raises the reservation within the limit and records the obligation, or takes everything back |
| `DurableState.SQLiteState.Admit` | candidates/python-network/src/kindred_superstructure/persistence.py:123-131 | adds identity and capability together or neither |
| `DurableState.SQLiteState.Agree` | candidates/python-network/src/kindred_superstructure/persistence.py:133-145 | creates the contract when the join counts two, or changes nothing |
| `DurableState.FailureChangesNothing` | candidates/python-network/src/kindred_superstructure/persistence.py:46-55 | a failed operation leaves every table as it was |
| `DurableState.InvariantsHold` | candidates/python-network/src/kindred_superstructure/persistence.py:101-145 | every run from empty tables keeps the books, the capabilities and the contracts in order |
| `DurableState.ReservedEqualsObligations` | candidates/python-network/src/kindred_superstructure/persistence.py:109-121 | each budget's reserved amount is the sum of its obligations and lies between zero and its limit |
| `DurableState.JournalsBalance` | candidates/python-network/src/kindred_superstructure/persistence.py:101-107 | the lines of every journal, of any selection and of all together sum to zero |
| `DurableState.LinesAreThePostings` | candidates/python-network/src/kindred_superstructure/persistence.py:106-107 | a posted journal has one line for each posting, in order and numbered from 1 |
| `DurableState.CountIsTwoForTwoAgents` | candidates/python-network/src/kindred_superstructure/persistence.py:136-142 | the join counts two exactly for two different admitted agents |
| `DurableState.ContractsJoinTwoAgents` | candidates/python-network/src/kindred_superstructure/persistence.py:133-145 | after every run a contract is created exactly between two different admitted agents over a known obligation, and every contract stands between such agents |
| `DurableState.OneCapabilityEach` | candidates/python-network/src/kindred_superstructure/persistence.py:123-131 | no identity ever owns two capabilities |
| `DurableOutcomes.DoneExactlyWhenLawful` | candidates/python-network/src/kindred_superstructure/persistence.py:101-145 | after every run each operation is done exactly when its arguments and the tables allow it, room in a budget counted against its obligations; otherwise nothing changes |
| `DurableOutcomes.LawfulOperationsAdd` | candidates/python-network/src/kindred_superstructure/persistence.py:101-145 | and what it adds is exactly this, with nothing taken away |
| `DurableOutcomes.ReferencesHold` | candidates/python-network/src/kindred_superstructure/persistence.py:63-74 | in every run each row refers to rows that are there, and obligation ids are unique |
| `DurableOutcomes.RefusedForCause` | candidates/python-network/src/kindred_superstructure/persistence.py:101-142 | which refusals are a ValueError and which a PermissionError |
| `DurableOutcomes.RevokedAgentsAgreeToNothing` | candidates/python-network/src/kindred_superstructure/persistence.py:136-142 | on any tables with one capability each, a contract is created only between two different agents in force |
| `PortDispatch.PortZero.DispatchEnvelope` | candidates/python-network/src/kindred_superstructure/ports.py:92-121 | authentication, expiry, the recorded outcome, and the retry loop with its record |
| `PortDispatch.ExternalPort.ClaimNonce` | candidates/python-network/src/kindred_superstructure/persistence.py:77-83 | succeeds exactly for a nonce this port has not claimed, and claims it |
| `PortDispatch.ExternalPort.ReceiveEnvelope` | candidates/python-network/src/kindred_superstructure/ports.py:32-46 | turns envelopes away in order, and claims the nonce before the adapter acts |
| `PortDispatch.CallsAreBounded` | candidates/python-network/src/kindred_superstructure/ports.py:104-121 | at most max_attempts transport calls, all but the last unavailable, and the receipts are those of the last |
| `PortDispatch.RecordsExactlyWhen` | candidates/python-network/src/kindred_superstructure/persistence.py:91-96 | a new outcome is recorded exactly when the dispatch is authentic and unexpired, a call delivers, and in the durable mode every evidence hash is new |
| `PortDispatch.DeliveredReceiptsCanBeLost` | candidates/python-network/src/kindred_superstructure/ports.py:107-116 | a lawful run after which a delivered dispatch of another key raises and records nothing, because the port's replay receipt has an evidence hash already stored |
| `PortDispatch.MemoryAlwaysHolds` | candidates/python-network/src/kindred_superstructure/persistence.py:91-99 | in every run evidence and outcomes belong together, and durable evidence has no duplicates |
| `PortDispatch.RecordedOutcomeIsFinal` | candidates/python-network/src/kindred_superstructure/ports.py:99-101 | in every run every later authentic, unexpired dispatch of a recorded key returns those receipts with no transport call and no new evidence |
| `PortDispatch.EffectsHappenAtMostOnce` | candidates/python-network/src/kindred_superstructure/ports.py:32-46 | however often the transport redelivers and whatever it forges, a port runs its adapter at most once for each nonce, on a payload Port Zero signed for it |
| `PortDispatch.RedeliveryIsQuarantined` | candidates/python-network/src/kindred_superstructure/ports.py:41-43 | the same envelope delivered again has no effect, even after the adapter raised |
| `DispatchOutcomes.ReachesTransportExactlyWhen` | candidates/python-network/src/kindred_superstructure/ports.py:92-104 | the transport is called exactly for an internal, unexpired envelope whose key has no recorded outcome, when any attempt is allowed; what each other dispatch gets |
| `DispatchOutcomes.RemembersExactlyWhatEndsIt` | candidates/python-network/src/kindred_superstructure/ports.py:105-121 | what a dispatch remembers of the answer that ends its retries |
| `DispatchOutcomes.RunsAdapterExactlyWhen` | candidates/python-network/src/kindred_superstructure/ports.py:32-54 | a port runs its adapter exactly for a genuine envelope with an unused nonce, which it claims; what it answers to any other |
| `DispatchOutcomes.SentCopiesAreGenuine` | candidates/python-network/src/kindred_superstructure/ports.py:102-103 | what Port Zero sends is genuine for each destination it names |
| `DispatchOutcomes.AdapterRanExactlyWhenHanded` | candidates/python-network/src/kindred_superstructure/ports.py:32-46 | in every run, whatever is repeated or forged, a port has run its adapter for a nonce exactly when a genuine envelope with it was handed to that port |
| `RouteExecution.RouteExecutionEngine.DispatchTarget` | candidates/python-network/src/kindred_superstructure/strata_network.py:178-185 | the retry loop and the dead letter at exhaustion |
| `RouteExecution.RouteExecutionEngine.ExecuteRoute` | candidates/python-network/src/kindred_superstructure/strata_network.py:187-203 | the loop over targets, from the count test to the result |
| `RouteExecution.RouteTriesAPrefix` | candidates/python-network/src/kindred_superstructure/strata_network.py:178-203 | a route tries a prefix of its targets in order, each between one and max_attempts times; exhaustion leaves exactly one new dead letter, for the last target tried; a result has one receipt for each target and is never both complete and partial |
| `RouteExecution.ReceiptsMatchTargets` | candidates/python-network/src/kindred_superstructure/strata_network.py:191-200 | receipts and delivering calls match one to one: the k-th receipt answers a call to the k-th target, calls in order and none shared, every other call raised; a result has one receipt for every target |
| `RouteExecution.ChildDisclosesExactly` | candidates/python-network/src/kindred_superstructure/strata_network.py:194-199 | under split each child carries exactly the parent's entries its policy entry names, none without an entry, and its hash matches |
| `RouteExecution.OnlyTheSignedAttemptVerifies` | candidates/python-network/src/kindred_superstructure/strata_network.py:181 | the attempt a child is sent with verifies exactly when it is the attempt it was signed with |
| `RouteOutcomes.ResolvesExactlyWhenOpen` | candidates/python-network/src/kindred_superstructure/strata_network.py:48-53 | a port resolves exactly when it is registered, ready, up, out of maintenance and offers what is asked to a named tenant; which failure each other one is |
| `RouteOutcomes.RoutesReachOpenPortsOnly` | candidates/python-network/src/kindred_superstructure/strata_network.py:187-203 | in every route each call goes to an open target and carries exactly what that target is to be sent; a wrong number of targets sends nothing; a resolution failure is that of the first target that is not open |
| `RouteOutcomes.OpenTargetsAreServed` | candidates/python-network/src/kindred_superstructure/strata_network.py:187-203 | open targets whose calls deliver get one call and one receipt each, in order |
| `RouteOutcomes.CompleteAndPartialExactlyWhen` | candidates/python-network/src/kindred_superstructure/strata_network.py:201-203 | complete exactly when all receipts are completed and reconciled, partial exactly when not complete and some receipt is completed |
| `Base64.DecodeOfEncode` | public/app-core.mjs:8-26 | base64 text matches the pattern and decodes to the bytes encoded |
| `Base64.ReadsBackWithinMaximum` | public/app-core.mjs:16-26 | encoded bytes are read back exactly when they fit the reader's maximum |
| `Base64.BytesToBase64` | public/app-core.mjs:8-14 | encoding in chunks of 8192 equals encoding at once |
| `Base64.Base64ToBytes` | public/app-core.mjs:16-26 | the filled array is the decoded text, or the text is rejected |
| `BrowserPackage.SetBytes` | public/app-core.mjs:65-66 | copies the source into its place and leaves the rest of the buffer alone |
| `BrowserPackage.FillFrame` | public/app-core.mjs:63-66 | the buffer holds the metadata length in four big-endian bytes, the metadata and the data |
| `BrowserPackage.MetaLengthIsExact` | public/app-core.mjs:62 | the metadata takes exactly as many bytes as a caller can compute beforehand |
| `BrowserPackage.OrdinaryMetadataFits` | public/app-core.mjs:62-64 | a well-formed name and a plain printable type never take more than 1006 bytes |
| `BrowserPackage.UnframeOfFrame` | public/app-core.mjs:94-105 | a framed file is unframed to its name, truncated type and bytes exactly when its metadata is within 1024 bytes |
| `BrowserPackage.PackageTextFits` | public/app-core.mjs:78 | the text of a package with a ciphertext openPackage reads is never too long for it |
| `BrowserPackage.OpenOfSeal` | public/app-core.mjs:47-106 | opening a sealed package with its passphrase succeeds exactly when the metadata takes at most 1024 bytes, and returns the exact name, truncated type and bytes |
| `BrowserPackage.OpenedContentsAreChecked` | public/app-core.mjs:94-105 | whatever text is opened, what comes out has a safe name, a bounded type and size, and the announced digest |
| `BrowserPackage.OrdinaryFilesReopen` | public/app-core.mjs:47-106 | every file up to 16 MiB with a well-formed name and a plain type can be opened again |
| `BrowserPackage.SealedButNeverOpened` | public/app-core.mjs:62-96 | a well-formed file with a long name and type that sealFile accepts and whose package openPackage refuses |
| `BrowserOutcomes.SealsExactlyWhen` | public/app-core.mjs:36-60 | a file is sealed exactly when it has the size it claims up to 16 MiB, an allowed name and a passphrase of 12 to 1024 characters |
| `BrowserOutcomes.OpensExactlyWhen` | public/app-core.mjs:77-106 | for every text, passphrase and cipher: contents are returned exactly when the text is a package whose ciphertext decrypts to a frame that holds them |
| `BrowserOutcomes.MetaIsRefused` | public/app-core.mjs:100-104 | which refused metadata fails for its name and which fails the integrity check |
| `BrowserOutcomes.Base64Fits` | public/app-core.mjs:18 | the pattern for base64 text, as whole groups of symbols with at most two pads |
| `BrowserOutcomes.LastValueCounts` | public/app-core.mjs:80-83 | of a repeated key the last value counts |

## Left out

- Key encodings, random sources, DER and PEM parsing, HTTP, sockets, files, timers, SQLite internals and child processes: platform code behind the parameters above.
- `Json.Parse`: reads compact text with integers, the only text these programs print; whitespace, fractions and exponents are not part of this model. Negative zero is identified with zero.
- `SignedDirectories.SignedDirectory.constructor`: range errors of constructor options are preconditions, here and for the other classes with validated options.
- `PortUri.NameRules`: the 32 KiB limit on a canonical names body is a parameter; its signature, owner and lifetime rules are in full.
- `ProofReceiver.Receiver.OnHello`: each handler step reads the clock once; a field of another JSON type than payloadBytes counts as an unreadable hello, which gets the same 400.
- `ReceiptInspector.InspectReceipt`: which of its errors a refused receipt raises, and reading the receipt file with its size limit.
- `Timestamps.IsoTextParses`: fromisoformat is modelled on the 24-character layout that toISOString writes.
- `Lifecycle.LifecycleStore.Move`: SQLite's text for a fractional event_id is not part of this model; the entries copied from an envelope are one map, and text that UTF-8 cannot encode is not part of this model.
- `CommunicationLedger.Ledger.AppendEvent`: the constant and copied entries of an event are one map.
- `PortDispatch.PortZero.DispatchEnvelope`: circuit breakers, which the code updates but never consults, and the signatures on receipts.
- `DurableState.SQLiteState.Post`: currencies, manifests beyond their required keys, disputes, routes, backup and restore.
- `RouteExecution.RouteExecutionEngine.ExecuteRoute`: the fields of a receipt other than its status, and the identifier and time of a dead letter.
- `WorkerTransfer.DirectPipeWorkerTransfer.TransferBuffer`: the latency measurement that accompanies a result.
- `BrowserPackage.OpenOfSeal`: what happens with a wrong passphrase is a property of the cipher and is not stated.
- The tenancy, intelligence, partner, portal, external-proof and access modules: single checks and filters with nothing that spans a run.
