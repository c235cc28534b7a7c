/** startProofReceiver of two-machine-proof.mjs. Handlers share the session map and interleave only
    where they await, so each handler is two or three atomic steps. */
module ProofReceiver {
  import opened Identity
  import opened Transcripts
  import opened Timestamps

  const DEFAULT_MAX_BYTES: nat := 32 * 1024 * 1024

  datatype Mac = HmacSha256(secret: Txt, text: Txt) | NotAMac

  /** AES-GCM output under the session key derived from secret, challenge (decoded from hex, so in
      either case of letters) and session id. */
  datatype Cipher = SealedPayload(secret: Txt, challenge: Txt, sessionId: Txt, iv: Bytes, aad: Txt, plain: Bytes)
    | Noise(size: nat)

  function CipherSize(c: Cipher): nat { if c.SealedPayload? then |c.plain| else c.size }

  function Sha256Text(b: Bytes): Txt { [DigestHex(b)] }

  /** What the receiver remembers under a session id. */
  datatype Session = Session(
    challenge: Txt, createdAt: int, source: Txt, destination: Txt, stateId: Txt, stateHash: Txt,
    generation: nat, payloadSha256: Txt, payloadBytes: nat)

  /** A challenge request body; payloadBytes is None when it is no number. A body that is too large or
      unparsable, or has another field of the wrong type, is no Hello; each of these ends in 400. */
  datatype Hello = Hello(
    schema: Txt, source: Txt, stateId: Txt, stateHash: Txt, generation: int, payloadSha256: Txt,
    payloadBytes: Option<int>)

  /** A safe integer of at least one and at most maxBytes. */
  predicate SizeOk(payloadBytes: Option<int>, maxBytes: nat) {
    payloadBytes.Some? && SafeInteger(payloadBytes.value) && 1 <= payloadBytes.value <= maxBytes
  }

  function NewSession(h: Hello, destination: Txt, challenge: Txt, now: int): Session
    requires h.generation >= 0 && h.payloadBytes.Some? && h.payloadBytes.value >= 0
  {
    Session(challenge, now, h.source, destination, h.stateId, Lower(h.stateHash), h.generation, Lower(h.payloadSha256),
            h.payloadBytes.value)
  }

  function ProofOf(sessionId: Txt, s: Session): Proof {
    Proof(sessionId, s.challenge, s.source, s.destination, s.stateId, s.stateHash, s.generation, s.payloadSha256,
      s.payloadBytes)
  }

  /** A transfer handler parked on its request body: its session is already consumed. */
  datatype Transfer = Transfer(sessionId: Txt, session: Session, iv: Bytes, tagBytes: nat)

  /** A finished receipt together with the payload it is about. */
  datatype Issued = Issued(receipt: Receipt, mac: Mac, payload: Bytes)

  datatype Reply = Status(code: nat) | Challenged(sessionId: Txt, challenge: Txt, destination: Txt)
    | Receipted(code: nat, issued: Issued) | Waiting

  datatype Settings = Settings(secret: Txt, maxBytes: nat, maxSessions: nat, ttl: nat, destination: Txt)

  /** `sessions` and the parked handlers are what the code holds; `begun`, `attempts` and `receipts`
      record every session begun, every session consumed and every receipt signed. */
  datatype State = State(
    sessions: map<Txt, Session>, parkedHellos: nat, transfers: set<Transfer>, sinks: set<Issued>,
    begun: map<Txt, Session>, attempts: seq<Txt>, receipts: seq<Issued>)

  const EMPTY := State(map[], 0, {}, {}, map[], [], [])

  function Expire(sessions: map<Txt, Session>, ttl: nat, now: int): map<Txt, Session> {
    map id | id in sessions && now - sessions[id].createdAt < ttl :: sessions[id]
  }

  // ---------------------------------------------------------------- atomic steps

  /** POST /proof/challenge up to `await readBody`. */
  function BeginChallenge(cfg: Settings, s: State, now: int): (r: (State, Reply)) {
    var live := Expire(s.sessions, cfg.ttl, now);
    if |live| >= cfg.maxSessions then (s.(sessions := live), Status(429))
    else (s.(sessions := live, parkedHellos := s.parkedHellos + 1), Waiting)
  }

  /** The rest of the challenge handler, with the id and challenge the random source gave. */
  function FinishChallenge(cfg: Settings, s: State, hello: Option<Hello>, sessionId: Txt, challenge: Txt,
      now: int): (r: (State, Reply)) {
    if s.parkedHellos == 0 then (s, Status(404)) else
    var s1 := s.(parkedHellos := s.parkedHellos - 1);
    if hello.None? then (s1, Status(400)) else
    var h := hello.value;
    if h.schema != Lit(PROOF_SCHEMA) then (s1, Status(400))
    else if !HashText(h.source) || !StateIdText(h.stateId) || !HashText(h.stateHash)
            || !SafeInteger(h.generation) || h.generation < 0 || !HashText(h.payloadSha256) then (s1, Status(400))
    else if Lower(h.stateHash) != Lower(h.payloadSha256) then (s1, Status(400))
    else if !SizeOk(h.payloadBytes, cfg.maxBytes) then (s1, Status(413))
    else
      var live := Expire(s.sessions, cfg.ttl, now);
      if |live| >= cfg.maxSessions then (s1.(sessions := live), Status(429)) else
      var session := NewSession(h, cfg.destination, challenge, now);
      (s1.(sessions := live[sessionId := session], begun := s.begun[sessionId := session]),
       Challenged(sessionId, challenge, cfg.destination))
  }

  /** POST /proof/transfer up to `await readBody`: authenticate, then consume the session. */
  function BeginTransfer(cfg: Settings, s: State, sessionId: Txt, auth: Mac, iv: Bytes, tagBytes: nat,
      now: int): (r: (State, Reply)) {
    if sessionId !in s.sessions || now - s.sessions[sessionId].createdAt >= cfg.ttl
    then (s.(sessions := s.sessions - {sessionId}), Status(401))
    else
      var session := s.sessions[sessionId];
      if auth != HmacSha256(cfg.secret, Scrub(ProofTranscript(ProofOf(sessionId, session)))) then (s, Status(403))
      else (s.(sessions := s.sessions - {sessionId},
               transfers := s.transfers + {Transfer(sessionId, session, iv, tagBytes)},
               attempts := s.attempts + [sessionId]), Waiting)
  }

  predicate Decrypts(cfg: Settings, t: Transfer, c: Cipher) {
    && |t.iv| == 12 && t.tagBytes == 16 && c.SealedPayload?
    && c.secret == cfg.secret && c.challenge == Lower(t.session.challenge) && c.sessionId == t.sessionId
    && c.iv == t.iv && c.aad == Scrub(ProofTranscript(ProofOf(t.sessionId, t.session)))
  }

  function MakeReceipt(t: Transfer, payload: Bytes, ciphertextBytes: nat, loopback: bool, observedAt: Txt): Receipt {
    var s := t.session;
    var received := Sha256Text(payload);
    var integrity := |payload| == s.payloadBytes && received == s.payloadSha256;
    var distinctHosts := s.source != s.destination;
    Receipt(Lit(PROOF_SCHEMA), t.sessionId, s.stateId, s.stateHash, s.generation, s.payloadSha256, received,
            |payload|, ciphertextBytes, s.source, s.destination, distinctHosts, loopback, true, integrity, true,
            Lit("AES-256-GCM"), Lit("HTTP_TCP_AES_256_GCM_BUFFERED"),
            integrity && distinctHosts && !loopback, false, false, observedAt)
  }

  /** The body arrived (`None`: longer than maxBytes or broken off); decrypt, sign, hand to the sink. */
  function FinishTransfer(cfg: Settings, s: State, t: Transfer, body: Option<Cipher>, loopback: bool,
      observedAt: Txt): (r: (State, Reply)) {
    if t !in s.transfers then (s, Status(404)) else
    var s1 := s.(transfers := s.transfers - {t});
    if body.None? || CipherSize(body.value) > cfg.maxBytes then (s1, Status(400))
    else if !Decrypts(cfg, t, body.value) then (s1.(sessions := s.sessions - {t.sessionId}), Status(422))
    else
      var receipt := MakeReceipt(t, body.value.plain, CipherSize(body.value), loopback, observedAt);
      var issued := Issued(receipt, HmacSha256(cfg.secret, Scrub(ReceiptTranscript(receipt))), body.value.plain);
      (s1.(sessions := s.sessions - {t.sessionId}, sinks := s.sinks + {issued}, receipts := s.receipts + [issued]),
        Waiting)
  }

  /** The audit sink resolved or rejected. */
  function FinishSink(s: State, issued: Issued, stored: bool): (r: (State, Reply)) {
    if issued !in s.sinks then (s, Status(404))
    else (s.(sinks := s.sinks - {issued}),
          if !stored then Status(503) else Receipted(if issued.receipt.integrity then 200 else 422, issued))
  }

  // ---------------------------------------------------------------- the server object

  /** readBody: accumulate chunks until the limit is passed. */
  method ReadBody(chunks: seq<Bytes>, maxBytes: nat) returns (body: Option<Bytes>)
    ensures body == if |Concat(chunks)| <= maxBytes then Some(Concat(chunks)) else None
  {
    var total, i, buffer := 0, 0, [];
    while i < |chunks|
      invariant 0 <= i <= |chunks| && total == |buffer| <= maxBytes
      invariant buffer == Concat(chunks[..i])
    {
      total := total + |chunks[i]|;
      assert chunks[..i + 1][..i] == chunks[..i];
      if total > maxBytes {
        ConcatGrows(chunks, i + 1);
        return None;
      }
      buffer := buffer + chunks[i];
      i := i + 1;
    }
    assert chunks[..i] == chunks;
    body := Some(buffer);
  }

  function Concat(chunks: seq<Bytes>): Bytes {
    if chunks == [] then [] else Concat(chunks[..|chunks| - 1]) + chunks[|chunks| - 1]
  }

  lemma {:induction false} ConcatGrows(chunks: seq<Bytes>, n: nat)
    requires n <= |chunks|
    ensures |Concat(chunks[..n])| <= |Concat(chunks)|
    decreases |chunks|
  {
    if n < |chunks| {
      var front := chunks[..|chunks| - 1];
      assert front[..n] == chunks[..n];
      ConcatGrows(front, n);
    } else {
      assert chunks[..n] == chunks;
    }
  }

  class Receiver {
    const cfg: Settings
    var sessions: map<Txt, Session>
    var parkedHellos: nat
    var transfers: set<Transfer>
    var sinks: set<Issued>
    ghost var begun: map<Txt, Session>
    ghost var attempts: seq<Txt>
    ghost var receipts: seq<Issued>

    ghost function View(): State
      reads this
    {
      State(sessions, parkedHellos, transfers, sinks, begun, attempts, receipts)
    }

    constructor (cfg: Settings)
      ensures this.cfg == cfg && View() == EMPTY
    {
      this.cfg := cfg;
      sessions, parkedHellos, transfers, sinks := map[], 0, {}, {};
      begun, attempts, receipts := map[], [], [];
    }

    /** The loop of expireSessions. */
    method ExpireSessions(now: int)
      modifies this`sessions
      ensures View() == old(View()).(sessions := Expire(old(sessions), cfg.ttl, now))
    {
      var pending := sessions.Keys;
      while pending != {}
        invariant pending <= old(sessions).Keys
        invariant sessions.Keys == set k
                  | k in old(sessions) && (k in pending || now - old(sessions)[k].createdAt < cfg.ttl)
        invariant forall k :: k in sessions ==> sessions[k] == old(sessions)[k]
        decreases |pending|
      {
        var id :| id in pending;
        if now - sessions[id].createdAt >= cfg.ttl { sessions := sessions - {id}; }
        pending := pending - {id};
      }
      assert sessions == Expire(old(sessions), cfg.ttl, now);
    }

    method OnChallenge(now: int) returns (reply: Reply)
      modifies this
      ensures (View(), reply) == BeginChallenge(cfg, old(View()), now)
    {
      ExpireSessions(now);
      if |sessions| >= cfg.maxSessions { return Status(429); }
      parkedHellos := parkedHellos + 1;
      reply := Waiting;
    }

    method OnHello(hello: Option<Hello>, sessionId: Txt, challenge: Txt, now: int) returns (reply: Reply)
      modifies this
      ensures (View(), reply) == FinishChallenge(cfg, old(View()), hello, sessionId, challenge, now)
    {
      if parkedHellos == 0 { return Status(404); }
      parkedHellos := parkedHellos - 1;
      if hello.None? { return Status(400); }
      var h := hello.value;
      if h.schema != Lit(PROOF_SCHEMA) { return Status(400); }
      if !HashText(h.source) || !StateIdText(h.stateId) || !HashText(h.stateHash)
         || !SafeInteger(h.generation) || h.generation < 0 || !HashText(h.payloadSha256) { return Status(400); }
      if Lower(h.stateHash) != Lower(h.payloadSha256) { return Status(400); }
      if !SizeOk(h.payloadBytes, cfg.maxBytes) { return Status(413); }
      ExpireSessions(now);
      if |sessions| >= cfg.maxSessions { return Status(429); }
      var session := NewSession(h, cfg.destination, challenge, now);
      sessions := sessions[sessionId := session];
      begun := begun[sessionId := session];
      reply := Challenged(sessionId, challenge, cfg.destination);
    }

    method OnTransfer(sessionId: Txt, auth: Mac, iv: Bytes, tagBytes: nat, now: int) returns (reply: Reply)
      modifies this
      ensures (View(), reply) == BeginTransfer(cfg, old(View()), sessionId, auth, iv, tagBytes, now)
      ensures reply == Waiting ==>
                sessionId in old(sessions)
                && auth == HmacSha256(cfg.secret, Scrub(ProofTranscript(ProofOf(sessionId, old(sessions)[sessionId]))))
    {
      if sessionId !in sessions || now - sessions[sessionId].createdAt >= cfg.ttl {
        sessions := sessions - {sessionId};
        return Status(401);
      }
      var session := sessions[sessionId];
      if auth != HmacSha256(cfg.secret, Scrub(ProofTranscript(ProofOf(sessionId, session)))) { return Status(403); }
      sessions := sessions - {sessionId};
      transfers := transfers + {Transfer(sessionId, session, iv, tagBytes)};
      attempts := attempts + [sessionId];
      reply := Waiting;
    }

    method OnBody(t: Transfer, body: Option<Cipher>, loopback: bool, observedAt: Txt) returns (reply: Reply)
      modifies this
      ensures (View(), reply) == FinishTransfer(cfg, old(View()), t, body, loopback, observedAt)
    {
      if t !in transfers { return Status(404); }
      transfers := transfers - {t};
      if body.None? || CipherSize(body.value) > cfg.maxBytes { return Status(400); }
      sessions := sessions - {t.sessionId};
      if !Decrypts(cfg, t, body.value) { return Status(422); }
      var receipt := MakeReceipt(t, body.value.plain, CipherSize(body.value), loopback, observedAt);
      var issued := Issued(receipt, HmacSha256(cfg.secret, Scrub(ReceiptTranscript(receipt))), body.value.plain);
      sinks := sinks + {issued};
      receipts := receipts + [issued];
      reply := Waiting;
    }

    method OnSink(issued: Issued, stored: bool) returns (reply: Reply)
      modifies this
      ensures (View(), reply) == FinishSink(old(View()), issued, stored)
    {
      if issued !in sinks { return Status(404); }
      sinks := sinks - {issued};
      if !stored { return Status(503); }
      reply := Receipted(if issued.receipt.integrity then 200 else 422, issued);
    }

    method Close()
      modifies this`sessions
      ensures View() == old(View()).(sessions := map[])
    {
      sessions := map[];
    }
  }

  // ---------------------------------------------------------------- every interleaving

  datatype Event =
    | ChallengeArrives(now: int)
    | HelloRead(hello: Option<Hello>, sessionId: Txt, challenge: Txt, now: int)
    | TransferArrives(sessionId: Txt, auth: Mac, iv: Bytes, tagBytes: nat, now: int)
    | BodyRead(transfer: Transfer, body: Option<Cipher>, loopback: bool, observedAt: Txt)
    | SinkDone(issued: Issued, stored: bool)
    | Tick(now: int)
    | Shutdown

  function Step(cfg: Settings, s: State, e: Event): (r: (State, Reply)) {
    match e
    case ChallengeArrives(now) => BeginChallenge(cfg, s, now)
    case HelloRead(hello, id, challenge, now) => FinishChallenge(cfg, s, hello, id, challenge, now)
    case TransferArrives(id, auth, iv, tagBytes, now) => BeginTransfer(cfg, s, id, auth, iv, tagBytes, now)
    case BodyRead(t, body, loopback, at) => FinishTransfer(cfg, s, t, body, loopback, at)
    case SinkDone(issued, stored) => FinishSink(s, issued, stored)
    case Tick(now) => (s.(sessions := Expire(s.sessions, cfg.ttl, now)), Waiting)
    case Shutdown => (s.(sessions := map[]), Waiting)
  }

  ghost predicate IsTimestamp(t: Txt) { exists i :: ValidInstant(i) && t == IsoText(i) }

  /** What the environment guarantees: a random session id is new and has its textual form, a random
      challenge is 64 hex characters, and observedAt is what toISOString made of some instant. */
  ghost predicate Admissible(s: State, e: Event) {
    match e
    case HelloRead(_, id, challenge, _) => id !in s.begun && SessionIdText(id) && HashText(challenge)
    case BodyRead(_, _, _, at) => IsTimestamp(at)
    case _ => true
  }

  /** A session as the challenge handler makes them. */
  ghost predicate GoodSession(cfg: Settings, id: Txt, s: Session) {
    && SessionIdText(id) && HashText(s.challenge) && HashText(s.source) && s.destination == cfg.destination
       && StateIdText(s.stateId)
    && HashText(s.stateHash) && HashText(s.payloadSha256) && s.stateHash == s.payloadSha256
    && SafeInteger(s.generation) && 1 <= s.payloadBytes <= cfg.maxBytes
  }

  /** A receipt as the transfer handler makes them, for the session begun under its id. */
  ghost predicate GoodIssued(cfg: Settings, s: State, i: Issued) {
    && i.receipt.sessionId in s.begun
    && i.mac == HmacSha256(cfg.secret, Scrub(ReceiptTranscript(i.receipt)))
    && IsTimestamp(i.receipt.observedAt)
    && (exists iv, tagBytes ::
          i.receipt == MakeReceipt(Transfer(i.receipt.sessionId, s.begun[i.receipt.sessionId], iv, tagBytes),
                                   i.payload, |i.payload|, i.receipt.loopback, i.receipt.observedAt))
  }

  ghost predicate BegunOk(cfg: Settings, begun: map<Txt, Session>) {
    forall id :: id in begun ==> GoodSession(cfg, id, begun[id])
  }

  ghost predicate SessionsOk(cfg: Settings, s: State) {
    && |s.sessions| <= cfg.maxSessions
    && (forall id :: id in s.sessions ==> id in s.begun && s.begun[id] == s.sessions[id] && id !in s.attempts)
  }

  ghost predicate AttemptsOk(s: State) {
    NoDuplicates(s.attempts) && forall id :: id in s.attempts ==> id in s.begun
  }

  ghost predicate TransfersOk(s: State) {
    && (forall t :: t in s.transfers ==>
       t.sessionId in s.attempts && t.sessionId in s.begun && t.session == s.begun[t.sessionId])
    && (forall t, u :: t in s.transfers && u in s.transfers && t.sessionId == u.sessionId ==> t == u)
  }

  ghost predicate ReceiptsGood(cfg: Settings, s: State) {
    forall k :: 0 <= k < |s.receipts| ==> GoodIssued(cfg, s, s.receipts[k])
  }

  ghost predicate ReceiptsOneShot(s: State) {
    && (forall k :: 0 <= k < |s.receipts| ==> s.receipts[k].receipt.sessionId in s.attempts)
    && (forall j, k :: 0 <= j < k < |s.receipts| ==> s.receipts[j].receipt.sessionId != s.receipts[k].receipt.sessionId)
    && (forall k, t :: 0 <= k < |s.receipts| && t in s.transfers ==> s.receipts[k].receipt.sessionId != t.sessionId)
    && (forall i :: i in s.sinks ==> i in s.receipts)
  }

  ghost predicate ReceiptsOk(cfg: Settings, s: State) { ReceiptsGood(cfg, s) && ReceiptsOneShot(s) }

  ghost predicate Inv(cfg: Settings, s: State) {
    BegunOk(cfg, s.begun) && SessionsOk(cfg, s) && AttemptsOk(s) && TransfersOk(s) && ReceiptsOk(cfg, s)
  }

  lemma FewerSessions(a: map<Txt, Session>, b: map<Txt, Session>)
    requires a.Keys <= b.Keys
    ensures |a| <= |b|
  {
    assert b.Keys == a.Keys + (b.Keys - a.Keys);
    assert |a| == |a.Keys| && |b| == |b.Keys|;
  }

  /** Receipts already signed stay good while `begun` and `attempts` only grow. */
  lemma ReceiptsCarryOver(cfg: Settings, s: State, s': State)
    requires ReceiptsOk(cfg, s)
    requires s'.receipts == s.receipts && s'.sinks <= s.sinks && s'.transfers <= s.transfers
    requires forall id :: id in s.begun ==> id in s'.begun && s'.begun[id] == s.begun[id]
    requires forall id :: id in s.attempts ==> id in s'.attempts
    ensures ReceiptsOk(cfg, s')
  {
    forall k | 0 <= k < |s'.receipts|
      ensures GoodIssued(cfg, s', s'.receipts[k])
    {
      assert GoodIssued(cfg, s, s.receipts[k]);
    }
  }

  /** Steps that only drop sessions and change nothing the records depend on. */
  lemma DroppingKeepsInv(cfg: Settings, s: State, s': State)
    requires Inv(cfg, s) && s' == s.(sessions := s'.sessions, parkedHellos := s'.parkedHellos)
    requires s'.sessions.Keys <= s.sessions.Keys && forall id :: id in s'.sessions ==> s'.sessions[id] == s.sessions[id]
    ensures Inv(cfg, s')
  {
    FewerSessions(s'.sessions, s.sessions);
    ReceiptsCarryOver(cfg, s, s');
  }

  lemma BeginningKeepsBegun(cfg: Settings, begun: map<Txt, Session>, id: Txt, session: Session)
    requires BegunOk(cfg, begun) && GoodSession(cfg, id, session)
    ensures BegunOk(cfg, begun[id := session])
  {
  }

  lemma BeginningKeepsSessions(cfg: Settings, s: State, s': State, live: map<Txt, Session>, id: Txt, session: Session)
    requires SessionsOk(cfg, s) && AttemptsOk(s) && id !in s.begun
    requires live.Keys <= s.sessions.Keys && (forall k :: k in live ==> live[k] == s.sessions[k])
             && |live| < cfg.maxSessions
    requires s' == s.(sessions := live[id := session], begun := s.begun[id := session], parkedHellos := s'.parkedHellos)
    ensures SessionsOk(cfg, s')
  {
    assert id !in live;
    assert s'.sessions.Keys == live.Keys + {id};
    assert |s'.sessions| == |s'.sessions.Keys| == |live| + 1;
  }

  lemma BeginningKeepsTransfers(s: State, s': State, id: Txt, session: Session)
    requires AttemptsOk(s) && TransfersOk(s) && id !in s.begun
    requires s' == s.(sessions := s'.sessions, begun := s.begun[id := session], parkedHellos := s'.parkedHellos)
    ensures AttemptsOk(s') && TransfersOk(s')
  {
  }

  lemma BeginningKeepsInv(cfg: Settings, s: State, s': State, live: map<Txt, Session>, id: Txt, session: Session)
    requires Inv(cfg, s) && id !in s.begun && GoodSession(cfg, id, session)
    requires live.Keys <= s.sessions.Keys && (forall k :: k in live ==> live[k] == s.sessions[k])
             && |live| < cfg.maxSessions
    requires s' == s.(sessions := live[id := session], begun := s.begun[id := session], parkedHellos := s'.parkedHellos)
    ensures Inv(cfg, s')
  {
    BeginningKeepsBegun(cfg, s.begun, id, session);
    BeginningKeepsSessions(cfg, s, s', live, id, session);
    BeginningKeepsTransfers(s, s', id, session);
    ReceiptsCarryOver(cfg, s, s');
  }

  lemma HelloKeepsInv(cfg: Settings, s: State, e: Event)
    requires Inv(cfg, s) && e.HelloRead? && Admissible(s, e)
    ensures Inv(cfg, Step(cfg, s, e).0)
  {
    var (s', reply) := Step(cfg, s, e);
    var live := Expire(s.sessions, cfg.ttl, e.now);
    FewerSessions(live, s.sessions);
    if reply.Challenged? {
      BeginningKeepsInv(cfg, s, s', live, e.sessionId, NewSession(e.hello.value, cfg.destination, e.challenge, e.now));
    } else {
      DroppingKeepsInv(cfg, s, s');
    }
  }

  lemma ConsumingKeepsSessions(cfg: Settings, s: State, s': State, t: Transfer)
    requires SessionsOk(cfg, s) && AttemptsOk(s) && t.sessionId in s.sessions
    requires s' == s.(sessions := s.sessions - {t.sessionId}, transfers := s.transfers + {t},
             attempts := s.attempts + [t.sessionId])
    ensures SessionsOk(cfg, s') && AttemptsOk(s')
  {
    FewerSessions(s'.sessions, s.sessions);
  }

  lemma ConsumingKeepsTransfers(s: State, s': State, t: Transfer)
    requires TransfersOk(s) && t.sessionId !in s.attempts && t.sessionId in s.begun && t.session == s.begun[t.sessionId]
    requires s' == s.(sessions := s'.sessions, transfers := s.transfers + {t}, attempts := s.attempts + [t.sessionId])
    ensures TransfersOk(s')
  {
    forall u | u in s.transfers
      ensures u.sessionId != t.sessionId
    {
      assert u.sessionId in s.attempts;
    }
    forall u, v | u in s'.transfers && v in s'.transfers && u.sessionId == v.sessionId
      ensures u == v
    {
      assert u != t && v != t ==> u in s.transfers && v in s.transfers;
    }
  }

  lemma ConsumingKeepsReceipts(cfg: Settings, s: State, s': State, t: Transfer)
    requires ReceiptsOk(cfg, s) && t.sessionId !in s.attempts
    requires s' == s.(sessions := s'.sessions, transfers := s.transfers + {t}, attempts := s.attempts + [t.sessionId])
    ensures ReceiptsOk(cfg, s')
  {
    forall k | 0 <= k < |s'.receipts|
      ensures GoodIssued(cfg, s', s'.receipts[k])
    {
      GoodIssuedDependsOnBegun(cfg, s, s', s.receipts[k]);
    }
  }

  lemma ConsumingKeepsInv(cfg: Settings, s: State, s': State, t: Transfer)
    requires Inv(cfg, s) && t.sessionId in s.sessions && t.session == s.sessions[t.sessionId]
    requires s' == s.(sessions := s.sessions - {t.sessionId}, transfers := s.transfers + {t},
             attempts := s.attempts + [t.sessionId])
    ensures Inv(cfg, s')
  {
    ConsumingKeepsSessions(cfg, s, s', t);
    ConsumingKeepsTransfers(s, s', t);
    ConsumingKeepsReceipts(cfg, s, s', t);
  }

  /** What the first half of the transfer handler can do to the state. */
  lemma TransferEffect(cfg: Settings, s: State, id: Txt, auth: Mac, iv: Bytes, tagBytes: nat, now: int)
    ensures var s' := BeginTransfer(cfg, s, id, auth, iv, tagBytes, now).0;
            || s' == s.(sessions := s.sessions - {id}) || s' == s
            || (id in s.sessions
                && var t := Transfer(id, s.sessions[id], iv, tagBytes);
                   s' == s.(sessions := s.sessions - {id}, transfers := s.transfers + {t},
                     attempts := s.attempts + [id]))
  {
  }

  lemma TransferKeepsInv(cfg: Settings, s: State, e: Event)
    requires Inv(cfg, s) && e.TransferArrives?
    ensures Inv(cfg, Step(cfg, s, e).0)
  {
    var s' := BeginTransfer(cfg, s, e.sessionId, e.auth, e.iv, e.tagBytes, e.now).0;
    TransferEffect(cfg, s, e.sessionId, e.auth, e.iv, e.tagBytes, e.now);
    if |s'.attempts| == |s.attempts| {
      DroppingKeepsInv(cfg, s, s');
    } else {
      ConsumingKeepsInv(cfg, s, s', Transfer(e.sessionId, s.sessions[e.sessionId], e.iv, e.tagBytes));
    }
  }

  lemma DroppingTransferKeepsInv(cfg: Settings, s: State, s': State, t: Transfer)
    requires Inv(cfg, s) && s' == s.(transfers := s.transfers - {t}, sessions := s'.sessions)
    requires s'.sessions.Keys <= s.sessions.Keys && forall id :: id in s'.sessions ==> s'.sessions[id] == s.sessions[id]
    ensures Inv(cfg, s')
  {
    FewerSessions(s'.sessions, s.sessions);
    ReceiptsCarryOver(cfg, s, s');
  }

  lemma GoodIssuedDependsOnBegun(cfg: Settings, s: State, s': State, i: Issued)
    requires GoodIssued(cfg, s, i) && s'.begun == s.begun
    ensures GoodIssued(cfg, s', i)
  {
  }

  lemma SigningKeepsGood(cfg: Settings, s: State, s': State, i: Issued)
    requires ReceiptsGood(cfg, s) && GoodIssued(cfg, s, i)
             && s' == s.(sinks := s.sinks + {i}, receipts := s.receipts + [i])
    ensures ReceiptsGood(cfg, s')
  {
    forall k | 0 <= k < |s'.receipts|
      ensures GoodIssued(cfg, s', s'.receipts[k])
    {
      GoodIssuedDependsOnBegun(cfg, s, s', s'.receipts[k]);
    }
  }

  lemma SigningKeepsOneShot(s: State, s': State, i: Issued)
    requires ReceiptsOneShot(s) && i.receipt.sessionId in s.attempts
    requires forall u :: u in s.transfers ==> u.sessionId != i.receipt.sessionId
    requires forall k :: 0 <= k < |s.receipts| ==> s.receipts[k].receipt.sessionId != i.receipt.sessionId
    requires s' == s.(sinks := s.sinks + {i}, receipts := s.receipts + [i])
    ensures ReceiptsOneShot(s')
  {
    assert s'.receipts[|s.receipts|] == i;
    assert forall x :: x in s.receipts ==> x in s'.receipts;
  }

  lemma SigningKeepsInv(cfg: Settings, s: State, s': State, t: Transfer, i: Issued)
    requires Inv(cfg, s) && GoodIssued(cfg, s, i) && i.receipt.sessionId == t.sessionId && t.sessionId in s.attempts
    requires forall u :: u in s.transfers ==> u.sessionId != t.sessionId
    requires forall k :: 0 <= k < |s.receipts| ==> s.receipts[k].receipt.sessionId != t.sessionId
    requires s' == s.(sinks := s.sinks + {i}, receipts := s.receipts + [i])
    ensures Inv(cfg, s')
  {
    SigningKeepsGood(cfg, s, s', i);
    SigningKeepsOneShot(s, s', i);
  }

  /** What FinishTransfer signs is good in a state that began the session. */
  lemma MadeReceiptIsGood(cfg: Settings, s: State, t: Transfer, i: Issued, loopback: bool, at: Txt)
    requires t.sessionId in s.begun && t.session == s.begun[t.sessionId] && IsTimestamp(at)
    requires i.receipt == MakeReceipt(t, i.payload, |i.payload|, loopback, at)
    requires i.mac == HmacSha256(cfg.secret, Scrub(ReceiptTranscript(i.receipt)))
    ensures GoodIssued(cfg, s, i) && i.receipt.sessionId == t.sessionId
  {
    assert i.receipt == MakeReceipt(Transfer(t.sessionId, s.begun[t.sessionId], t.iv, t.tagBytes),
                                    i.payload, |i.payload|, i.receipt.loopback, i.receipt.observedAt);
  }

  /** What the second half can do: nothing but dropping the transfer, or also signing one receipt. */
  lemma BodyEffect(cfg: Settings, s: State, t: Transfer, body: Option<Cipher>, loopback: bool, at: Txt)
      returns (mid: State)
    requires t in s.transfers
    ensures mid == s.(transfers := s.transfers - {t}, sessions := mid.sessions)
            && (mid.sessions == s.sessions || mid.sessions == s.sessions - {t.sessionId})
    ensures var s' := FinishTransfer(cfg, s, t, body, loopback, at).0;
            s' == mid || exists i: Issued ::
              && s' == mid.(sinks := mid.sinks + {i}, receipts := mid.receipts + [i])
              && i.receipt == MakeReceipt(t, i.payload, |i.payload|, loopback, at)
              && i.mac == HmacSha256(cfg.secret, Scrub(ReceiptTranscript(i.receipt)))
  {
    var s' := FinishTransfer(cfg, s, t, body, loopback, at).0;
    mid := s.(transfers := s.transfers - {t}, sessions := s'.sessions);
    if s' != mid {
      var i := s'.receipts[|s.receipts|];
      assert s' == mid.(sinks := mid.sinks + {i}, receipts := mid.receipts + [i]);
    }
  }

  lemma BodyKeepsInv(cfg: Settings, s: State, e: Event)
    requires Inv(cfg, s) && e.BodyRead? && Admissible(s, e)
    ensures Inv(cfg, Step(cfg, s, e).0)
  {
    var t := e.transfer;
    if t in s.transfers {
      var s' := FinishTransfer(cfg, s, t, e.body, e.loopback, e.observedAt).0;
      var mid := BodyEffect(cfg, s, t, e.body, e.loopback, e.observedAt);
      DroppingTransferKeepsInv(cfg, s, mid, t);
      if s' != mid {
        var i: Issued :| s' == mid.(sinks := mid.sinks + {i}, receipts := mid.receipts + [i])
          && i.receipt == MakeReceipt(t, i.payload, |i.payload|, e.loopback, e.observedAt)
          && i.mac == HmacSha256(cfg.secret, Scrub(ReceiptTranscript(i.receipt)));
        MadeReceiptIsGood(cfg, mid, t, i, e.loopback, e.observedAt);
        SigningKeepsInv(cfg, mid, s', t, i);
      }
    }
  }

  lemma SinkKeepsInv(cfg: Settings, s: State, e: Event)
    requires Inv(cfg, s) && e.SinkDone?
    ensures Inv(cfg, Step(cfg, s, e).0)
  {
    ReceiptsCarryOver(cfg, s, Step(cfg, s, e).0);
  }

  lemma StepKeepsInv(cfg: Settings, s: State, e: Event)
    requires Inv(cfg, s) && Admissible(s, e)
    ensures Inv(cfg, Step(cfg, s, e).0)
  {
    match e
    case ChallengeArrives(_) => DroppingKeepsInv(cfg, s, Step(cfg, s, e).0);
    case HelloRead(_, _, _, _) => HelloKeepsInv(cfg, s, e);
    case TransferArrives(_, _, _, _, _) => TransferKeepsInv(cfg, s, e);
    case BodyRead(_, _, _, _) => BodyKeepsInv(cfg, s, e);
    case SinkDone(_, _) => SinkKeepsInv(cfg, s, e);
    case Tick(_) => DroppingKeepsInv(cfg, s, Step(cfg, s, e).0);
    case Shutdown => DroppingKeepsInv(cfg, s, Step(cfg, s, e).0);
  }

  function Run(cfg: Settings, events: seq<Event>): State
    decreases |events|
  {
    if events == [] then EMPTY else Step(cfg, Run(cfg, events[..|events| - 1]), events[|events| - 1]).0
  }

  ghost predicate AdmissibleRun(cfg: Settings, events: seq<Event>) {
    forall n :: 0 <= n < |events| ==> Admissible(Run(cfg, events[..n]), events[n])
  }

  lemma {:induction false} RunKeepsInv(cfg: Settings, events: seq<Event>)
    requires AdmissibleRun(cfg, events)
    ensures Inv(cfg, Run(cfg, events))
    decreases |events|
  {
    if events != [] {
      var n := |events| - 1;
      assert forall m :: 0 <= m < n ==> events[..n][..m] == events[..m];
      RunKeepsInv(cfg, events[..n]);
      StepKeepsInv(cfg, Run(cfg, events[..n]), events[n]);
    }
  }

  /** In every interleaving of challenge handlers, transfer handlers, sinks, ticks and shutdown the
      session map stays within its bound, no session is consumed twice, no two receipts share a
      session, and every receipt belongs to a consumed session. */
  lemma SessionsAreBoundedAndOneShot(cfg: Settings, events: seq<Event>)
    requires AdmissibleRun(cfg, events)
    ensures var s := Run(cfg, events);
            && |s.sessions| <= cfg.maxSessions && NoDuplicates(s.attempts)
            && (forall j, k :: 0 <= j < k < |s.receipts| ==>
               s.receipts[j].receipt.sessionId != s.receipts[k].receipt.sessionId)
            && (forall k :: 0 <= k < |s.receipts| ==> s.receipts[k].receipt.sessionId in s.attempts)
            && (forall id :: id in s.sessions ==> id !in s.attempts)
  {
    RunKeepsInv(cfg, events);
  }

  /** Once consumed, a session id is refused: a second transfer gets 401 whatever it carries. */
  lemma SecondAttemptIsRefused(cfg: Settings, events: seq<Event>, id: Txt, auth: Mac, iv: Bytes, tagBytes: nat,
      now: int)
    requires AdmissibleRun(cfg, events) && id in Run(cfg, events).attempts
    ensures Step(cfg, Run(cfg, events), TransferArrives(id, auth, iv, tagBytes, now)).1 == Status(401)
  {
    RunKeepsInv(cfg, events);
  }

  lemma OneMoreEvent(cfg: Settings, events: seq<Event>, e: Event)
    requires AdmissibleRun(cfg, events) && Admissible(Run(cfg, events), e)
    ensures AdmissibleRun(cfg, events + [e]) && Run(cfg, events + [e]) == Step(cfg, Run(cfg, events), e).0
  {
    var more := events + [e];
    assert more[..|events|] == events;
    forall m | 0 <= m < |more|
      ensures Admissible(Run(cfg, more[..m]), more[m])
    {
      if m < |events| { assert more[..m] == events[..m]; }
    }
  }

  lemma ArrivalParks(cfg: Settings, s: State)
    requires cfg.maxSessions >= 1 && s.sessions == map[]
    ensures Step(cfg, s, ChallengeArrives(0)).0 == s.(parkedHellos := s.parkedHellos + 1)
  {
    assert Expire(map[], cfg.ttl, 0) == map[];
  }

  /** Without the second expiry-and-capacity test after `await`, parked handlers would overrun the
      bound: any number of them can be waiting at once. */
  lemma {:induction false} HandlersParkWithoutBound(cfg: Settings, n: nat)
    requires cfg.maxSessions >= 1
    ensures exists events ::
              AdmissibleRun(cfg, events) && Run(cfg, events).parkedHellos == n && Run(cfg, events).sessions == map[]
  {
    if n == 0 {
      assert AdmissibleRun(cfg, []) && Run(cfg, []).parkedHellos == 0;
    } else {
      HandlersParkWithoutBound(cfg, n - 1);
      var events :| AdmissibleRun(cfg, events) && Run(cfg, events).parkedHellos == n - 1
        && Run(cfg, events).sessions == map[];
      OneMoreEvent(cfg, events, ChallengeArrives(0));
      ArrivalParks(cfg, Run(cfg, events));
    }
  }
}
