/** Senders and the receiver together, over a network that shows either side anything it can make:
    sendTwoHostProof against startProofReceiver. */
module ProofRuns {
  import opened Identity
  import opened Transcripts
  import opened Timestamps
  import opened ProofReceiver

  /** One call of sendTwoHostProof from the moment its challenge response arrived. */
  datatype Sending = Sending(
    source: Txt, payload: Bytes, stateId: Txt, stateHash: Txt, generation: nat,
    sessionId: Txt, challenge: Txt, destination: Txt, iv: Bytes)

  /** The argument checks of sendTwoHostProof and its checks on the challenge response. */
  predicate MaySend(s: Sending) {
    && HashText(s.source) && StateIdText(s.stateId) && HashText(s.stateHash) && SafeInteger(s.generation)
    && |s.payload| >= 1 && Lower(s.stateHash) == Sha256Text(s.payload)
    && SessionIdText(s.sessionId) && HashText(s.challenge) && HashText(s.destination) && |s.iv| == 12
  }

  function SentProof(s: Sending): Proof {
    Proof(s.sessionId, s.challenge, s.source, s.destination, s.stateId, Lower(s.stateHash), s.generation,
      Sha256Text(s.payload), |s.payload|)
  }

  function SentCipher(secret: Txt, s: Sending): Cipher {
    SealedPayload(secret, Lower(s.challenge), s.sessionId, s.iv, Scrub(ProofTranscript(SentProof(s))), s.payload)
  }

  function SentAuthorization(secret: Txt, s: Sending): Mac { HmacSha256(secret, Scrub(ProofTranscript(SentProof(s)))) }

  /** The check that lets sendTwoHostProof return the receipt it was handed. */
  predicate SenderAccepts(secret: Txt, s: Sending, r: Receipt, mac: Mac) {
    && mac == HmacSha256(secret, Scrub(ReceiptTranscript(r)))
    && r.schemaVersion == Lit(PROOF_SCHEMA) && r.sessionId == s.sessionId
    && r.source == s.source && r.destination == s.destination
    && r.payloadBytes == |s.payload| && r.ciphertextBytes == |s.payload|
    && r.authenticated && r.integrity && r.encrypted && !r.physical && !r.production
    && r.transport == Lit("HTTP_TCP_AES_256_GCM_BUFFERED")
    && r.distinctHosts == (s.source != s.destination)
    && r.twoHost == (r.distinctHosts && !r.loopback)
    && r.cipher == Lit("AES-256-GCM") && r.receivedSha256 == Sha256Text(s.payload)
    && r.stateId == s.stateId && r.stateHash == Lower(s.stateHash) && r.generation == s.generation
  }

  // ---------------------------------------------------------------- runs

  datatype World = World(receiver: State, sendings: seq<Sending>)

  datatype WorldEvent = AtReceiver(event: Event) | Send(sending: Sending)

  function Next(cfg: Settings, w: World, e: WorldEvent): World {
    match e
    case AtReceiver(event) => w.(receiver := Step(cfg, w.receiver, event).0)
    case Send(s) => w.(sendings := w.sendings + [s])
  }

  /** A MAC under the shared secret exists only if a sender or the receiver computed it. */
  ghost predicate CanShowMac(cfg: Settings, w: World, mac: Mac) {
    mac.HmacSha256? && mac.secret == cfg.secret ==>
      || (exists i :: 0 <= i < |w.sendings| && mac == SentAuthorization(cfg.secret, w.sendings[i]))
      || (exists k :: 0 <= k < |w.receiver.receipts| && mac == w.receiver.receipts[k].mac)
  }

  ghost predicate CanShowCipher(cfg: Settings, w: World, c: Cipher) {
    c.SealedPayload? && c.secret == cfg.secret ==>
      exists i :: 0 <= i < |w.sendings| && c == SentCipher(cfg.secret, w.sendings[i])
  }

  ghost predicate Possible(cfg: Settings, w: World, e: WorldEvent) {
    match e
    case Send(s) => MaySend(s)
    case AtReceiver(event) =>
      && Admissible(w.receiver, event)
      && (event.TransferArrives? ==> CanShowMac(cfg, w, event.auth))
      && (event.BodyRead? && event.body.Some? ==> CanShowCipher(cfg, w, event.body.value))
  }

  function WorldRun(cfg: Settings, events: seq<WorldEvent>): World
    decreases |events|
  {
    if events == [] then World(EMPTY, []) else Next(cfg, WorldRun(cfg, events[..|events| - 1]), events[|events| - 1])
  }

  ghost predicate PossibleRun(cfg: Settings, events: seq<WorldEvent>) {
    HashText(cfg.destination) && forall n :: 0 <= n < |events| ==> Possible(cfg, WorldRun(cfg, events[..n]), events[n])
  }

  // ---------------------------------------------------------------- unambiguous fields

  lemma HashHasNoPipe(t: Txt)
    requires HashText(t) || SessionIdText(t)
    ensures PIPE !in t && WellFormed(t)
  {
    PlainIsWellFormed(t);
  }

  lemma NumberHasNoPipe(n: nat)
    ensures PIPE !in Number(n)
  {
  }

  lemma ProofFieldsAreUnambiguous(p: Proof)
    requires SessionIdText(p.sessionId) && HashText(p.challenge) && HashText(p.source) && HashText(p.destination)
    requires StateIdText(p.stateId) && HashText(p.stateHash) && HashText(p.payloadSha256)
    ensures Unambiguous(ProofFields(p))
  {
    HashHasNoPipe(p.sessionId); HashHasNoPipe(p.challenge); HashHasNoPipe(p.source); HashHasNoPipe(p.destination);
    HashHasNoPipe(p.stateHash); HashHasNoPipe(p.payloadSha256);
    NumberHasNoPipe(p.generation);
    NumberHasNoPipe(p.payloadBytes);
    assert PIPE !in Lit(PROOF_SCHEMA);
  }

  /** Fields of the receipts the receiver makes. */
  ghost predicate PlainReceipt(r: Receipt) {
    && r.schemaVersion == Lit(PROOF_SCHEMA) && SessionIdText(r.sessionId) && StateIdText(r.stateId)
       && HashText(r.stateHash)
    && HashText(r.payloadSha256) && HashText(r.receivedSha256) && HashText(r.source) && HashText(r.destination)
    && r.cipher == Lit("AES-256-GCM") && r.transport == Lit("HTTP_TCP_AES_256_GCM_BUFFERED")
    && PIPE !in r.observedAt && WellFormed(r.observedAt)
  }

  lemma BoolTextHasNoPipe(b: bool)
    ensures PIPE !in BoolText(b)
  {
  }

  lemma ReceiptFieldsAreUnambiguous(r: Receipt)
    requires PlainReceipt(r)
    ensures Unambiguous(ReceiptFields(r))
  {
    HashHasNoPipe(r.sessionId); HashHasNoPipe(r.stateHash);
    HashHasNoPipe(r.payloadSha256); HashHasNoPipe(r.receivedSha256);
    HashHasNoPipe(r.source); HashHasNoPipe(r.destination);
    NumberHasNoPipe(r.generation); NumberHasNoPipe(r.payloadBytes); NumberHasNoPipe(r.ciphertextBytes);
    BoolTextHasNoPipe(true); BoolTextHasNoPipe(false);
    LiteralsHaveNoPipe();
  }

  lemma LiteralsHaveNoPipe()
    ensures PIPE !in Lit(PROOF_SCHEMA) && PIPE !in Lit("AES-256-GCM") && PIPE !in Lit("HTTP_TCP_AES_256_GCM_BUFFERED")
  {
  }

  lemma IssuedReceiptsArePlain(cfg: Settings, s: State, i: Issued)
    requires BegunOk(cfg, s.begun) && GoodIssued(cfg, s, i) && HashText(cfg.destination)
    ensures PlainReceipt(i.receipt)
  {
    assert GoodSession(cfg, i.receipt.sessionId, s.begun[i.receipt.sessionId]);
    var t :| ValidInstant(t) && i.receipt.observedAt == IsoText(t);
    IsoTextIsPlain(t);
  }

  // ---------------------------------------------------------------- invariant and results

  /** The receipt is about a payload some sender sealed for that very session. */
  ghost predicate FromSender(w: World, i: Issued) {
    exists j :: 0 <= j < |w.sendings| && w.sendings[j].payload == i.payload
      && w.sendings[j].sessionId == i.receipt.sessionId
      && w.sendings[j].generation == i.receipt.generation && Scrub(w.sendings[j].stateId) == Scrub(i.receipt.stateId)
  }

  ghost predicate WorldInv(cfg: Settings, w: World) {
    && Inv(cfg, w.receiver)
    && (forall i :: 0 <= i < |w.sendings| ==> MaySend(w.sendings[i]))
    && SendersOk(w)
  }

  lemma SealedPayloadMatchesSession(cfg: Settings, w: World, t: Transfer, c: Cipher) returns (j: nat)
    requires WorldInv(cfg, w) && HashText(cfg.destination) && t in w.receiver.transfers && Decrypts(cfg, t, c)
             && CanShowCipher(cfg, w, c)
    ensures j < |w.sendings| && w.sendings[j].payload == c.plain && w.sendings[j].sessionId == t.sessionId
    ensures w.sendings[j].generation == t.session.generation && Scrub(w.sendings[j].stateId) == Scrub(t.session.stateId)
    ensures |c.plain| == t.session.payloadBytes && Sha256Text(c.plain) == t.session.payloadSha256
  {
    var i :| 0 <= i < |w.sendings| && c == SentCipher(cfg.secret, w.sendings[i]);
    j := i;
    assert GoodSession(cfg, t.sessionId, w.receiver.begun[t.sessionId]);
    var sent, held := SentProof(w.sendings[j]), ProofOf(t.sessionId, t.session);
    ProofFieldsAreUnambiguous(held);
    ProofTranscriptInjective(sent, held);
    HashHasNoPipe(sent.payloadSha256);
    HashHasNoPipe(held.payloadSha256);
    ScrubFixesExactlyWellFormed(sent.payloadSha256);
    ScrubFixesExactlyWellFormed(held.payloadSha256);
  }

  ghost predicate SendersOk(w: World) {
    forall k :: 0 <= k < |w.receiver.receipts| ==>
      FromSender(w, w.receiver.receipts[k]) && w.receiver.receipts[k].receipt.integrity
  }

  /** The only step that signs is the one that reads a body that decrypts. */
  lemma WhoSigns(cfg: Settings, s: State, e: Event)
    ensures var s' := Step(cfg, s, e).0;
            || s'.receipts == s.receipts
            || (e.BodyRead? && e.transfer in s.transfers && e.body.Some? && Decrypts(cfg, e.transfer, e.body.value)
                && |s'.receipts| == |s.receipts| + 1 && s'.receipts[..|s.receipts|] == s.receipts
                && s'.receipts[|s.receipts|].payload == e.body.value.plain
                && s'.receipts[|s.receipts|].receipt
                   == MakeReceipt(e.transfer, e.body.value.plain, CipherSize(e.body.value), e.loopback, e.observedAt))
  {
  }

  lemma FromSenderGrows(w: World, w': World, i: Issued)
    requires FromSender(w, i) && w.sendings <= w'.sendings
    ensures FromSender(w', i)
  {
    var j :| 0 <= j < |w.sendings| && w.sendings[j].payload == i.payload
      && w.sendings[j].sessionId == i.receipt.sessionId
      && w.sendings[j].generation == i.receipt.generation && Scrub(w.sendings[j].stateId) == Scrub(i.receipt.stateId);
    assert w'.sendings[j] == w.sendings[j];
  }

  lemma SigningIsFromSender(cfg: Settings, w: World, t: Transfer, c: Cipher, i: Issued, loopback: bool, at: Txt)
    requires WorldInv(cfg, w) && HashText(cfg.destination) && t in w.receiver.transfers && Decrypts(cfg, t, c)
             && CanShowCipher(cfg, w, c)
    requires i.payload == c.plain && i.receipt == MakeReceipt(t, c.plain, CipherSize(c), loopback, at)
    ensures FromSender(w, i) && i.receipt.integrity
  {
    var j := SealedPayloadMatchesSession(cfg, w, t, c);
    assert w.sendings[j].payload == i.payload;
  }

  lemma NewReceiptIsFromSender(cfg: Settings, w: World, e: Event)
    requires WorldInv(cfg, w) && HashText(cfg.destination) && Possible(cfg, w, AtReceiver(e))
    requires Step(cfg, w.receiver, e).0.receipts != w.receiver.receipts
    ensures var receipts := Step(cfg, w.receiver, e).0.receipts;
            |receipts| == |w.receiver.receipts| + 1 && FromSender(w, receipts[|w.receiver.receipts|])
              && receipts[|w.receiver.receipts|].receipt.integrity
  {
    WhoSigns(cfg, w.receiver, e);
    var i := Step(cfg, w.receiver, e).0.receipts[|w.receiver.receipts|];
    SigningIsFromSender(cfg, w, e.transfer, e.body.value, i, e.loopback, e.observedAt);
  }

  lemma SendersCarry(w: World, w': World)
    requires SendersOk(w) && w'.sendings == w.sendings
    requires w'.receiver.receipts == w.receiver.receipts
             || (&& |w'.receiver.receipts| == |w.receiver.receipts| + 1
                 && w'.receiver.receipts[..|w.receiver.receipts|] == w.receiver.receipts
                 && FromSender(w, w'.receiver.receipts[|w.receiver.receipts|])
                    && w'.receiver.receipts[|w.receiver.receipts|].receipt.integrity)
    ensures SendersOk(w')
  {
    var before, after := w.receiver.receipts, w'.receiver.receipts;
    forall k | 0 <= k < |after|
      ensures FromSender(w', after[k]) && after[k].receipt.integrity
    {
      assert k < |before| ==> after[k] == before[k];
      FromSenderGrows(w, w', after[k]);
    }
  }

  lemma ReceiverStepKeepsSenders(cfg: Settings, w: World, e: Event)
    requires WorldInv(cfg, w) && HashText(cfg.destination) && Possible(cfg, w, AtReceiver(e))
    ensures SendersOk(Next(cfg, w, AtReceiver(e)))
  {
    WhoSigns(cfg, w.receiver, e);
    if Step(cfg, w.receiver, e).0.receipts != w.receiver.receipts { NewReceiptIsFromSender(cfg, w, e); }
    SendersCarry(w, Next(cfg, w, AtReceiver(e)));
  }

  lemma NextKeepsInv(cfg: Settings, w: World, e: WorldEvent)
    requires WorldInv(cfg, w) && HashText(cfg.destination) && Possible(cfg, w, e)
    ensures WorldInv(cfg, Next(cfg, w, e))
  {
    match e
    case AtReceiver(event) =>
      StepKeepsInv(cfg, w.receiver, event);
      ReceiverStepKeepsSenders(cfg, w, event);
    case Send(s) =>
      var w' := w.(sendings := w.sendings + [s]);
      forall k | 0 <= k < |w.receiver.receipts|
        ensures FromSender(w', w.receiver.receipts[k])
      {
        FromSenderGrows(w, w', w.receiver.receipts[k]);
      }
  }

  lemma {:induction false} WorldRunKeepsInv(cfg: Settings, events: seq<WorldEvent>)
    requires PossibleRun(cfg, events)
    ensures WorldInv(cfg, WorldRun(cfg, events))
    decreases |events|
  {
    if events != [] {
      var n := |events| - 1;
      assert forall m :: 0 <= m < n ==> events[..n][..m] == events[..m];
      WorldRunKeepsInv(cfg, events[..n]);
      NextKeepsInv(cfg, WorldRun(cfg, events[..n]), events[n]);
    }
  }

  /** Every receipt the receiver ever signs is about bytes an honest sender sealed for that session,
      and its integrity flag is true: the 422 integrity receipt is unreachable. */
  lemma ReceiptsReportSentPayloads(cfg: Settings, events: seq<WorldEvent>, k: nat)
    requires PossibleRun(cfg, events) && k < |WorldRun(cfg, events).receiver.receipts|
    ensures var w := WorldRun(cfg, events);
            FromSender(w, w.receiver.receipts[k]) && w.receiver.receipts[k].receipt.integrity
  {
    WorldRunKeepsInv(cfg, events);
  }

  /** What the sender's return value means. */
  ghost predicate DeliveredAs(w: World, s: Sending, r: Receipt, i: Issued) {
    && i.payload == s.payload && i.receipt.sessionId == s.sessionId && SameEncodedReceipt(r, i.receipt)
    && (WellFormed(s.stateId) && WellFormed(i.receipt.stateId) ==> i.receipt.stateId == s.stateId)
    && (r.twoHost <==> s.source != s.destination && !i.receipt.loopback)
  }

  lemma AgreedFields(s: Sending, r: Receipt, i: Issued)
    requires MaySend(s) && PlainReceipt(i.receipt) && SameEncodedReceipt(r, i.receipt)
             && i.receipt.receivedSha256 == Sha256Text(i.payload)
    requires r.sessionId == s.sessionId && r.receivedSha256 == Sha256Text(s.payload) && r.stateId == s.stateId
    ensures i.payload == s.payload && i.receipt.sessionId == s.sessionId
    ensures WellFormed(s.stateId) && WellFormed(i.receipt.stateId) ==> i.receipt.stateId == s.stateId
  {
    HashHasNoPipe(s.sessionId);
    HashHasNoPipe(i.receipt.sessionId);
    ScrubFixesExactlyWellFormed(s.sessionId);
    ScrubFixesExactlyWellFormed(i.receipt.sessionId);
    ScrubFixesExactlyWellFormed(s.stateId);
    ScrubFixesExactlyWellFormed(i.receipt.stateId);
    HashHasNoPipe(r.receivedSha256);
    HashHasNoPipe(i.receipt.receivedSha256);
    ScrubFixesExactlyWellFormed(r.receivedSha256);
    ScrubFixesExactlyWellFormed(i.receipt.receivedSha256);
    assert Sha256Text(s.payload)[0] == Sha256Text(i.payload)[0];
  }

  /** A MAC the sender accepts as a receipt's is one the receiver issued: no sender's authorization
      can pass for it. */
  lemma AcceptedMacWasIssued(cfg: Settings, w: World, i: nat, r: Receipt, mac: Mac) returns (k: nat)
    requires WorldInv(cfg, w) && i < |w.sendings| && CanShowMac(cfg, w, mac)
             && SenderAccepts(cfg.secret, w.sendings[i], r, mac)
    ensures k < |w.receiver.receipts| && mac == w.receiver.receipts[k].mac
  {
    forall j | 0 <= j < |w.sendings|
      ensures mac != SentAuthorization(cfg.secret, w.sendings[j])
    {
      ProofFieldsAreUnambiguous(SentProof(w.sendings[j]));
      ProofIsNoReceipt(SentProof(w.sendings[j]), r);
    }
    var n :| 0 <= n < |w.receiver.receipts| && mac == w.receiver.receipts[n].mac;
    k := n;
  }

  lemma IssuedMacMeansDelivery(cfg: Settings, w: World, i: nat, r: Receipt, k: nat)
    requires WorldInv(cfg, w) && HashText(cfg.destination) && i < |w.sendings| && k < |w.receiver.receipts|
    requires SenderAccepts(cfg.secret, w.sendings[i], r, w.receiver.receipts[k].mac)
    ensures DeliveredAs(w, w.sendings[i], r, w.receiver.receipts[k])
  {
    var issued := w.receiver.receipts[k];
    assert GoodIssued(cfg, w.receiver, issued);
    IssuedReceiptsArePlain(cfg, w.receiver, issued);
    ReceiptFieldsAreUnambiguous(issued.receipt);
    ReceiptTranscriptInjective(r, issued.receipt);
    AgreedFields(w.sendings[i], r, issued);
  }

  /** If sendTwoHostProof returns, the receiver signed that receipt for that session, it decrypted
      exactly the sender's payload, and the two-host flag says "fingerprints differ and the receiver
      saw no loopback". The receipt may have come from anywhere. */
  lemma SenderSuccessMeansDelivery(cfg: Settings, events: seq<WorldEvent>, i: nat, r: Receipt, mac: Mac)
    requires PossibleRun(cfg, events) && i < |WorldRun(cfg, events).sendings|
    requires CanShowMac(cfg, WorldRun(cfg, events), mac)
             && SenderAccepts(cfg.secret, WorldRun(cfg, events).sendings[i], r, mac)
    ensures var w := WorldRun(cfg, events);
            exists k :: 0 <= k < |w.receiver.receipts| && DeliveredAs(w, w.sendings[i], r, w.receiver.receipts[k])
  {
    WorldRunKeepsInv(cfg, events);
    var w := WorldRun(cfg, events);
    var k := AcceptedMacWasIssued(cfg, w, i, r, mac);
    IssuedMacMeansDelivery(cfg, w, i, r, k);
  }
}
