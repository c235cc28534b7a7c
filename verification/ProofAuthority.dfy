/** Who can consume a proof session, and what an accepted receipt is worth: over every run of senders,
    receiver and inspector, with the compared fields written out. */
module ProofAuthority {
  import opened Identity
  import opened Transcripts
  import opened Timestamps
  import opened ProofReceiver
  import opened ProofRuns
  import opened ReceiptInspector

  // ---------------------------------------------------------------- authorizations

  /** The sending is about this very session: same id, challenge, ports, state hash, generation,
      payload digest and size; its state identity has the same bytes. */
  ghost predicate SentFor(x: Sending, id: Txt, s: Session) {
    && x.sessionId == id && x.challenge == s.challenge && x.source == s.source && x.destination == s.destination
    && Lower(x.stateHash) == s.stateHash && x.generation == s.generation
    && [DigestHex(x.payload)] == s.payloadSha256 && |x.payload| == s.payloadBytes
    && Scrub(x.stateId) == Scrub(s.stateId)
  }

  lemma HashBytes(a: Txt, b: Txt)
    requires HashText(a) || SessionIdText(a)
    requires HashText(b) || SessionIdText(b)
    ensures Scrub(a) == Scrub(b) <==> a == b
  {
    HashHasNoPipe(a);
    HashHasNoPipe(b);
    ScrubInjective(a, b);
  }

  lemma SameProofMeansSentFor(x: Sending, id: Txt, s: Session)
    requires MaySend(x) && SessionIdText(id) && HashText(s.challenge) && HashText(s.source) && HashText(s.destination)
    requires HashText(s.stateHash) && HashText(s.payloadSha256)
    ensures SameEncodedProof(SentProof(x), ProofOf(id, s)) <==> SentFor(x, id, s)
  {
    HashBytes(x.sessionId, id);
    HashBytes(x.challenge, s.challenge);
    HashBytes(x.source, s.source);
    HashBytes(x.destination, s.destination);
    HashBytes(Lower(x.stateHash), s.stateHash);
    HashBytes(Sha256Text(x.payload), s.payloadSha256);
  }

  lemma SentForMeansSameBytes(x: Sending, id: Txt, s: Session)
    requires SentFor(x, id, s)
    ensures Scrub(ProofTranscript(SentProof(x))) == Scrub(ProofTranscript(ProofOf(id, s)))
  {
    var held := ProofOf(id, s);
    SameBytesSameProofBytes(held, x.stateId);
    assert SentProof(x) == held.(stateId := x.stateId);
  }

  /** A sender's proof has the bytes the receiver computes for a session exactly when it is about
      that session. */
  lemma ProofBytesExactlyWhenSentFor(cfg: Settings, x: Sending, id: Txt, s: Session)
    requires MaySend(x) && GoodSession(cfg, id, s) && HashText(cfg.destination)
    ensures Scrub(ProofTranscript(SentProof(x))) == Scrub(ProofTranscript(ProofOf(id, s))) <==> SentFor(x, id, s)
  {
    if Scrub(ProofTranscript(SentProof(x))) == Scrub(ProofTranscript(ProofOf(id, s))) {
      ProofFieldsAreUnambiguous(ProofOf(id, s));
      ProofTranscriptInjective(SentProof(x), ProofOf(id, s));
      SameProofMeansSentFor(x, id, s);
    }
    if SentFor(x, id, s) { SentForMeansSameBytes(x, id, s); }
  }

  /** Some sending about this session computed this authorization. */
  ghost predicate AuthorizedBySending(cfg: Settings, w: World, id: Txt, s: Session, auth: Mac) {
    exists j :: 0 <= j < |w.sendings| && SentFor(w.sendings[j], id, s)
      && auth == HmacSha256(cfg.secret, Scrub(ProofTranscript(SentProof(w.sendings[j]))))
  }

  lemma ReceiptMacIsNoAuthorization(cfg: Settings, w: World, k: nat, id: Txt, s: Session)
    requires Inv(cfg, w.receiver) && HashText(cfg.destination) && GoodSession(cfg, id, s)
    requires k < |w.receiver.receipts|
    ensures w.receiver.receipts[k].mac != HmacSha256(cfg.secret, Scrub(ProofTranscript(ProofOf(id, s))))
  {
    assert GoodIssued(cfg, w.receiver, w.receiver.receipts[k]);
    ProofFieldsAreUnambiguous(ProofOf(id, s));
    ProofIsNoReceipt(ProofOf(id, s), w.receiver.receipts[k].receipt);
  }

  lemma SendersMakeIt(cfg: Settings, w: World, id: Txt, s: Session, expected: Txt, auth: Mac)
    requires WorldInv(cfg, w) && HashText(cfg.destination) && GoodSession(cfg, id, s)
    requires expected == Scrub(ProofTranscript(ProofOf(id, s)))
    ensures AuthorizedBySending(cfg, w, id, s, auth) <==>
              auth == HmacSha256(cfg.secret, expected)
              && exists j :: 0 <= j < |w.sendings| && auth == SentAuthorization(cfg.secret, w.sendings[j])
  {
    forall j | 0 <= j < |w.sendings|
      ensures Scrub(ProofTranscript(SentProof(w.sendings[j]))) == expected <==> SentFor(w.sendings[j], id, s)
    {
      ProofBytesExactlyWhenSentFor(cfg, w.sendings[j], id, s);
    }
  }

  lemma ShownMacAuthorizesExactlyWhenSent(cfg: Settings, w: World, id: Txt, s: Session, auth: Mac)
    requires WorldInv(cfg, w) && HashText(cfg.destination) && GoodSession(cfg, id, s) && CanShowMac(cfg, w, auth)
    ensures auth == HmacSha256(cfg.secret, Scrub(ProofTranscript(ProofOf(id, s)))) <==>
              AuthorizedBySending(cfg, w, id, s, auth)
  {
    var expected := Scrub(ProofTranscript(ProofOf(id, s)));
    SendersMakeIt(cfg, w, id, s, expected, auth);
    forall k | 0 <= k < |w.receiver.receipts|
      ensures w.receiver.receipts[k].mac != HmacSha256(cfg.secret, expected)
    {
      ReceiptMacIsNoAuthorization(cfg, w, k, id, s);
    }
  }

  lemma TransferByRule(cfg: Settings, s: State, id: Txt, auth: Mac, iv: Bytes, tagBytes: nat, now: int, sent: bool)
    requires id in s.sessions ==>
               (auth == HmacSha256(cfg.secret, Scrub(ProofTranscript(ProofOf(id, s.sessions[id])))) <==> sent)
    ensures Step(cfg, s, TransferArrives(id, auth, iv, tagBytes, now))
            == if !(id in s.sessions && now - s.sessions[id].createdAt < cfg.ttl)
                 then (s.(sessions := s.sessions - {id}), Status(401))
              else if !sent then (s, Status(403))
              else (s.(sessions := s.sessions - {id}, attempts := s.attempts + [id],
                       transfers := s.transfers + {Transfer(id, s.sessions[id], iv, tagBytes)}), Waiting)
  {
  }

  /** After every possible run a transfer is answered by one rule: 401 when its session is gone or too
      old, 403 and nothing changed when no sending about that session made its authorization, and
      otherwise the session is consumed and the handler waits for the body. */
  lemma TransferConsumesExactlyWhenSent(cfg: Settings, events: seq<WorldEvent>, id: Txt, auth: Mac, iv: Bytes,
      tagBytes: nat, now: int)
    requires PossibleRun(cfg, events) && CanShowMac(cfg, WorldRun(cfg, events), auth)
    ensures var w := WorldRun(cfg, events);
            var s := w.receiver;
            var live := id in s.sessions && now - s.sessions[id].createdAt < cfg.ttl;
            Step(cfg, s, TransferArrives(id, auth, iv, tagBytes, now))
            == if !live then (s.(sessions := s.sessions - {id}), Status(401))
              else if !AuthorizedBySending(cfg, w, id, s.sessions[id], auth) then (s, Status(403))
              else (s.(sessions := s.sessions - {id}, attempts := s.attempts + [id],
                       transfers := s.transfers + {Transfer(id, s.sessions[id], iv, tagBytes)}), Waiting)
  {
    WorldRunKeepsInv(cfg, events);
    var w := WorldRun(cfg, events);
    if id in w.receiver.sessions {
      ShownMacAuthorizesExactlyWhenSent(cfg, w, id, w.receiver.sessions[id], auth);
      TransferByRule(cfg, w.receiver, id, auth, iv, tagBytes, now,
        AuthorizedBySending(cfg, w, id, w.receiver.sessions[id], auth));
    }
  }

  // ---------------------------------------------------------------- who consumed each session

  ghost predicate ConsumedBySending(w: World, id: Txt) {
    id in w.receiver.begun && exists j :: 0 <= j < |w.sendings| && SentFor(w.sendings[j], id, w.receiver.begun[id])
  }

  ghost predicate AllConsumedBySendings(w: World) {
    forall id :: id in w.receiver.attempts ==> ConsumedBySending(w, id)
  }

  /** What a receiver step adds to the consumed sessions, and that it forgets no begun one. */
  lemma WhoConsumes(cfg: Settings, s: State, e: Event)
    requires Admissible(s, e)
    ensures var s' := Step(cfg, s, e).0;
            && (forall id :: id in s.begun ==> id in s'.begun && s'.begun[id] == s.begun[id])
            && (s'.attempts == s.attempts
                || (e.TransferArrives? && s'.attempts == s.attempts + [e.sessionId] && e.sessionId in s.sessions
                    && e.auth == HmacSha256(cfg.secret,
                         Scrub(ProofTranscript(ProofOf(e.sessionId, s.sessions[e.sessionId]))))))
  {
  }

  lemma ConsumptionCarries(w: World, w': World, id: Txt)
    requires ConsumedBySending(w, id) && w.sendings <= w'.sendings
    requires id in w'.receiver.begun && w'.receiver.begun[id] == w.receiver.begun[id]
    ensures ConsumedBySending(w', id)
  {
    var j :| 0 <= j < |w.sendings| && SentFor(w.sendings[j], id, w.receiver.begun[id]);
    assert w'.sendings[j] == w.sendings[j];
  }

  lemma ReceiverKeepsConsumers(cfg: Settings, w: World, e: Event)
    requires WorldInv(cfg, w) && HashText(cfg.destination) && Possible(cfg, w, AtReceiver(e))
    requires AllConsumedBySendings(w)
    ensures AllConsumedBySendings(Next(cfg, w, AtReceiver(e)))
  {
    var w' := Next(cfg, w, AtReceiver(e));
    WhoConsumes(cfg, w.receiver, e);
    forall id | id in w'.receiver.attempts
      ensures ConsumedBySending(w', id)
    {
      if id in w.receiver.attempts {
        ConsumptionCarries(w, w', id);
      } else {
        assert w.receiver.begun[id] == w.receiver.sessions[id];
        ShownMacAuthorizesExactlyWhenSent(cfg, w, id, w.receiver.begun[id], e.auth);
      }
    }
  }

  /** Every consumed session of every possible run was consumed for a sending about that session. */
  lemma {:induction false} OnlySendingsConsume(cfg: Settings, events: seq<WorldEvent>)
    requires PossibleRun(cfg, events)
    ensures AllConsumedBySendings(WorldRun(cfg, events))
    decreases |events|
  {
    if events != [] {
      var n := |events| - 1;
      assert forall m :: 0 <= m < n ==> events[..n][..m] == events[..m];
      OnlySendingsConsume(cfg, events[..n]);
      WorldRunKeepsInv(cfg, events[..n]);
      var w := WorldRun(cfg, events[..n]);
      if events[n].AtReceiver? {
        ReceiverKeepsConsumers(cfg, w, events[n].event);
      } else {
        forall id | id in w.receiver.attempts
          ensures ConsumedBySending(Next(cfg, w, events[n]), id)
        {
          ConsumptionCarries(w, Next(cfg, w, events[n]), id);
        }
      }
    }
  }

  // ---------------------------------------------------------------- bodies and receipts

  /** The body is what a sending about this session sealed, under the handler's own iv. */
  ghost predicate SealedBySending(cfg: Settings, w: World, t: Transfer, c: Cipher) {
    exists j :: 0 <= j < |w.sendings| && SentFor(w.sendings[j], t.sessionId, t.session)
      && w.sendings[j].iv == t.iv && t.tagBytes == 16
      && c == SealedPayload(cfg.secret, Lower(w.sendings[j].challenge), w.sendings[j].sessionId, w.sendings[j].iv,
           Scrub(ProofTranscript(SentProof(w.sendings[j]))), w.sendings[j].payload)
  }

  lemma DecryptsExactlyWhenSealed(cfg: Settings, w: World, t: Transfer, c: Cipher)
    requires WorldInv(cfg, w) && HashText(cfg.destination) && GoodSession(cfg, t.sessionId, t.session)
    requires CanShowCipher(cfg, w, c)
    ensures Decrypts(cfg, t, c) <==> SealedBySending(cfg, w, t, c)
  {
    var expected := Scrub(ProofTranscript(ProofOf(t.sessionId, t.session)));
    forall j | 0 <= j < |w.sendings|
      ensures Scrub(ProofTranscript(SentProof(w.sendings[j]))) == expected <==>
                SentFor(w.sendings[j], t.sessionId, t.session)
    {
      ProofBytesExactlyWhenSentFor(cfg, w.sendings[j], t.sessionId, t.session);
    }
  }

  /** Every field of a receipt for a payload of this session. */
  ghost predicate ReceiptSays(r: Receipt, id: Txt, s: Session, payload: Bytes, loopback: bool, at: Txt) {
    && r.schemaVersion == Lit("kindred.sdpn.two-host-proof.v2") && r.sessionId == id && r.stateId == s.stateId
    && r.stateHash == s.stateHash && r.generation == s.generation
    && r.payloadSha256 == r.receivedSha256 == [DigestHex(payload)] == s.payloadSha256
    && r.payloadBytes == r.ciphertextBytes == |payload| == s.payloadBytes
    && r.source == s.source && r.destination == s.destination && r.loopback == loopback
    && r.distinctHosts == (s.source != s.destination) && r.twoHost == (s.source != s.destination && !loopback)
    && r.authenticated && r.integrity && r.encrypted && !r.physical && !r.production
    && r.cipher == Lit("AES-256-GCM") && r.transport == Lit("HTTP_TCP_AES_256_GCM_BUFFERED") && r.observedAt == at
  }

  lemma MadeReceiptSays(t: Transfer, payload: Bytes, loopback: bool, at: Txt)
    requires [DigestHex(payload)] == t.session.payloadSha256 && |payload| == t.session.payloadBytes
    ensures ReceiptSays(MakeReceipt(t, payload, |payload|, loopback, at), t.sessionId, t.session, payload, loopback, at)
  {
  }

  lemma BodyByRule(cfg: Settings, s: State, t: Transfer, body: Option<Cipher>, loopback: bool, at: Txt, sealed: bool)
    requires t in s.transfers && t.sessionId !in s.sessions
    requires body.Some? ==> (Decrypts(cfg, t, body.value) <==> sealed)
    ensures var (s', reply) := Step(cfg, s, BodyRead(t, body, loopback, at));
            var rest := s.(transfers := s.transfers - {t});
            if body.None? || CipherSize(body.value) > cfg.maxBytes then s' == rest && reply == Status(400)
            else if !sealed then s' == rest && reply == Status(422)
            else
              var r := MakeReceipt(t, body.value.plain, |body.value.plain|, loopback, at);
              var i := Issued(r, HmacSha256(cfg.secret, Scrub(ReceiptTranscript(r))), body.value.plain);
              s' == rest.(sinks := s.sinks + {i}, receipts := s.receipts + [i]) && reply == Waiting
  {
    assert s.sessions - {t.sessionId} == s.sessions;
  }

  /** What a body read for a waiting handler does after a possible run. */
  ghost predicate BodyAnswer(cfg: Settings, w: World, t: Transfer, body: Option<Cipher>, loopback: bool, at: Txt,
      s': State, reply: Reply) {
    var rest := w.receiver.(transfers := w.receiver.transfers - {t});
    if body.None? || CipherSize(body.value) > cfg.maxBytes then s' == rest && reply == Status(400)
    else if !SealedBySending(cfg, w, t, body.value) then s' == rest && reply == Status(422)
    else
      reply == Waiting && exists i: Issued ::
        && s' == rest.(sinks := rest.sinks + {i}, receipts := rest.receipts + [i])
        && i.payload == body.value.plain && ReceiptSays(i.receipt, t.sessionId, t.session, i.payload, loopback, at)
        && i.mac == HmacSha256(cfg.secret, Scrub(ReceiptTranscript(i.receipt)))
  }

  /** A waiting handler answers 400 to a body that broke off or is too long, 422 to one that no sending
      about its session sealed, and otherwise signs one receipt that says exactly what arrived. The
      handler is gone in each case. */
  lemma BodySignsExactlyWhenSealed(cfg: Settings, events: seq<WorldEvent>, t: Transfer, body: Option<Cipher>,
      loopback: bool, at: Txt)
    requires PossibleRun(cfg, events) && t in WorldRun(cfg, events).receiver.transfers
    requires body.Some? ==> CanShowCipher(cfg, WorldRun(cfg, events), body.value)
    ensures var w := WorldRun(cfg, events);
            var (s', reply) := Step(cfg, w.receiver, BodyRead(t, body, loopback, at));
            BodyAnswer(cfg, w, t, body, loopback, at, s', reply)
  {
    WorldRunKeepsInv(cfg, events);
    BodyAnswered(cfg, WorldRun(cfg, events), t, body, loopback, at);
  }

  lemma Answered(cfg: Settings, w: World, t: Transfer, c: Cipher, loopback: bool, at: Txt, s': State, i: Issued)
    requires CipherSize(c) <= cfg.maxBytes && SealedBySending(cfg, w, t, c)
    requires i.receipt == MakeReceipt(t, c.plain, |c.plain|, loopback, at) && i.payload == c.plain
    requires i.mac == HmacSha256(cfg.secret, Scrub(ReceiptTranscript(i.receipt)))
    requires s' == w.receiver.(transfers := w.receiver.transfers - {t}, sinks := w.receiver.sinks + {i},
             receipts := w.receiver.receipts + [i])
    ensures BodyAnswer(cfg, w, t, Some(c), loopback, at, s', Waiting)
  {
    MadeReceiptSays(t, c.plain, loopback, at);
  }

  lemma BodyAnswered(cfg: Settings, w: World, t: Transfer, body: Option<Cipher>, loopback: bool, at: Txt)
    requires WorldInv(cfg, w) && HashText(cfg.destination) && t in w.receiver.transfers
    requires body.Some? ==> CanShowCipher(cfg, w, body.value)
    ensures var (s', reply) := Step(cfg, w.receiver, BodyRead(t, body, loopback, at));
            BodyAnswer(cfg, w, t, body, loopback, at, s', reply)
  {
    assert GoodSession(cfg, t.sessionId, t.session) && t.sessionId !in w.receiver.sessions;
    var sealed := body.Some? && SealedBySending(cfg, w, t, body.value);
    if body.Some? { DecryptsExactlyWhenSealed(cfg, w, t, body.value); }
    BodyByRule(cfg, w.receiver, t, body, loopback, at, sealed);
    if sealed && CipherSize(body.value) <= cfg.maxBytes {
      var r := MakeReceipt(t, body.value.plain, |body.value.plain|, loopback, at);
      var i := Issued(r, HmacSha256(cfg.secret, Scrub(ReceiptTranscript(r))), body.value.plain);
      Answered(cfg, w, t, body.value, loopback, at, Step(cfg, w.receiver, BodyRead(t, body, loopback, at)).0, i);
    }
  }

  // ---------------------------------------------------------------- challenges, expiry and answers

  ghost function Young(s: State, ttl: nat, now: int): map<Txt, Session> {
    map id | id in s.sessions && now < s.sessions[id].createdAt + ttl :: s.sessions[id]
  }

  /** The timer keeps exactly the sessions younger than the lifetime, shutdown keeps none, and a challenge is
      admitted exactly while the young ones leave room. */
  lemma OnlyYoungSessionsCount(cfg: Settings, s: State, now: int)
    ensures Step(cfg, s, Tick(now)).0 == s.(sessions := Young(s, cfg.ttl, now))
    ensures Step(cfg, s, Shutdown).0 == s.(sessions := map[])
    ensures Step(cfg, s, ChallengeArrives(now))
            == if |Young(s, cfg.ttl, now)| < cfg.maxSessions
                 then (s.(sessions := Young(s, cfg.ttl, now), parkedHellos := s.parkedHellos + 1), Waiting)
               else (s.(sessions := Young(s, cfg.ttl, now)), Status(429))
  {
    assert Expire(s.sessions, cfg.ttl, now) == Young(s, cfg.ttl, now);
  }

  ghost predicate HexOfEitherCase(x: Symbol) { exists c :: c in "0123456789abcdefABCDEF" && x == Unit(c as int) }

  /** A digest, or 64 hex characters. */
  ghost predicate Digest64(t: Txt) {
    (|t| == 1 && t[0].DigestHex?) || (|t| == 64 && forall x :: x in t ==> HexOfEitherCase(x))
  }

  lemma HexSymbols(x: Symbol)
    ensures HexSymbol(x) <==> HexOfEitherCase(x)
  {
    var all := "0123456789abcdefABCDEF";
    if HexSymbol(x) {
      var i := if x.u <= 57 then x.u - 48 else if x.u >= 97 then x.u - 97 + 10 else x.u - 65 + 16;
      assert all[i] in all && x == Unit(all[i] as int);
    }
  }

  lemma HashTextIsDigest(t: Txt)
    ensures HashText(t) <==> Digest64(t)
  {
    forall x: Symbol
      ensures HexSymbol(x) <==> HexOfEitherCase(x)
    {
      HexSymbols(x);
    }
    assert forall i :: 0 <= i < |t| ==> t[i] in t;
  }

  /** Lower case changes the letters A to F of a hash and nothing else. */
  lemma LowerOfHash(t: Txt, i: nat)
    requires HashText(t) && i < |t|
    ensures |Lower(t)| == |t|
    ensures t[i].DigestHex? ==> Lower(t)[i] == t[i]
    ensures t[i].Unit? ==>
              && HexOfEitherCase(Lower(t)[i])
              && Lower(t)[i] == if 'A' as int <= t[i].u <= 'F' as int then Unit(t[i].u + 32) else t[i]
  {
    HexSymbols(Lower(t)[i]);
  }

  /** 36 hex characters and hyphens. */
  ghost predicate Identifier(t: Txt) { |t| == 36 && forall x :: x in t ==> HexOfEitherCase(x) || x == Unit('-' as int) }

  lemma SessionIdIsIdentifier(t: Txt)
    ensures SessionIdText(t) <==> Identifier(t)
  {
    forall x: Symbol
      ensures HexSymbol(x) <==> HexOfEitherCase(x)
    {
      HexSymbols(x);
    }
    assert forall i :: 0 <= i < |t| ==> t[i] in t;
  }

  /** The limits on what a challenge asks for. */
  ghost predicate ProperHello(h: Hello, maxBytes: nat) {
    && h.schema == Lit("kindred.sdpn.two-host-proof.v2")
    && Digest64(h.source) && Digest64(h.stateHash) && Digest64(h.payloadSha256)
    && 1 <= Units(h.stateId) <= 512 && Unit(124) !in h.stateId && Unit(13) !in h.stateId && Unit(10) !in h.stateId
    && 0 <= h.generation <= 9007199254740991 && Lower(h.stateHash) == Lower(h.payloadSha256)
    && h.payloadBytes.Some? && 1 <= h.payloadBytes.value <= maxBytes && h.payloadBytes.value <= 9007199254740991
  }

  /** A read challenge begins a session exactly when it is proper, a handler was waiting, and the young
      sessions still leave room; the session holds what was asked. Otherwise none is begun. */
  lemma ChallengeBeginsExactlyWhen(cfg: Settings, s: State, hello: Option<Hello>, id: Txt, challenge: Txt, now: int)
    ensures var (s', reply) := Step(cfg, s, HelloRead(hello, id, challenge, now));
            if s.parkedHellos > 0 && hello.Some? && ProperHello(hello.value, cfg.maxBytes)
              && |Young(s, cfg.ttl, now)| < cfg.maxSessions
            then
              var h := hello.value;
              var begun := Session(challenge, now, h.source, cfg.destination, h.stateId, Lower(h.stateHash),
                h.generation, Lower(h.payloadSha256), h.payloadBytes.value);
              && reply == Challenged(id, challenge, cfg.destination)
              && s' == s.(parkedHellos := s.parkedHellos - 1, sessions := Young(s, cfg.ttl, now)[id := begun],
                   begun := s.begun[id := begun])
            else
              && reply.Status? && reply.code in {400, 404, 413, 429} && s'.begun == s.begun
              && (s'.sessions == s.sessions || s'.sessions == Young(s, cfg.ttl, now))
              && s' == s.(sessions := s'.sessions, parkedHellos := s'.parkedHellos)
              && s'.parkedHellos == if s.parkedHellos > 0 then s.parkedHellos - 1 else 0
  {
    assert Expire(s.sessions, cfg.ttl, now) == Young(s, cfg.ttl, now);
    if hello.Some? {
      HashTextIsDigest(hello.value.source);
      HashTextIsDigest(hello.value.stateHash);
      HashTextIsDigest(hello.value.payloadSha256);
    }
  }

  lemma SinkByRule(cfg: Settings, s: State, i: Issued, stored: bool)
    requires i in s.sinks ==> i.receipt.integrity
    ensures Step(cfg, s, SinkDone(i, stored))
            == if i !in s.sinks then (s, Status(404))
              else (s.(sinks := s.sinks - {i}), if stored then Receipted(200, i) else Status(503))
  {
  }

  lemma OnlySinksSend(cfg: Settings, s: State, e: Event)
    ensures Step(cfg, s, e).1.Receipted? ==> e.SinkDone? && e.stored && e.issued in s.sinks
  {
  }

  lemma StoredReceiptsAreWhole(cfg: Settings, w: World, i: Issued)
    requires WorldInv(cfg, w) && i in w.receiver.sinks
    ensures i in w.receiver.receipts && i.receipt.integrity
  {
    var k :| 0 <= k < |w.receiver.receipts| && w.receiver.receipts[k] == i;
  }

  /** After a possible run a receipt is sent, with status 200, exactly when its own sink reports it
      stored; a sink that failed answers 503, and either way that sink is gone. */
  lemma ReceiptsAreSentOnceStored(cfg: Settings, events: seq<WorldEvent>, i: Issued, stored: bool, e: Event)
    requires PossibleRun(cfg, events)
    ensures var s := WorldRun(cfg, events).receiver;
            && Step(cfg, s, SinkDone(i, stored))
               == (if i !in s.sinks then (s, Status(404))
                   else (s.(sinks := s.sinks - {i}), if stored then Receipted(200, i) else Status(503)))
            && (Step(cfg, s, e).1.Receipted? ==>
                 e.SinkDone? && e.stored && e.issued in s.sinks && e.issued in s.receipts)
  {
    WorldRunKeepsInv(cfg, events);
    var w := WorldRun(cfg, events);
    if i in w.receiver.sinks { StoredReceiptsAreWhole(cfg, w, i); }
    SinkByRule(cfg, w.receiver, i, stored);
    OnlySinksSend(cfg, w.receiver, e);
    if e.SinkDone? && e.issued in w.receiver.sinks { StoredReceiptsAreWhole(cfg, w, e.issued); }
  }

  // ---------------------------------------------------------------- completeness of the sender

  /** For every receipt and MAC: a sender accepts exactly under its own MAC, when the receipt says what a
      receipt for its payload says, apart from the announced digest, which it does not compare. */
  lemma SenderAcceptsExactlyWhen(secret: Txt, x: Sending, r: Receipt, mac: Mac)
    ensures var digest := [DigestHex(x.payload)];
            var own := Session(x.challenge, 0, x.source, x.destination, x.stateId, Lower(x.stateHash), x.generation,
              digest, |x.payload|);
            SenderAccepts(secret, x, r, mac) <==>
              && mac == HmacSha256(secret, Scrub(ReceiptTranscript(r)))
              && ReceiptSays(r.(payloadSha256 := digest), x.sessionId, own, x.payload, r.loopback, r.observedAt)
  {
  }

  /** Everything a sender compares: the receipt's session is its own apart from the challenge. */
  ghost predicate SameTerms(x: Sending, i: Issued) {
    && i.receipt.sessionId == x.sessionId && i.receipt.source == x.source && i.receipt.destination == x.destination
    && i.receipt.stateId == x.stateId && i.receipt.stateHash == Lower(x.stateHash)
    && i.receipt.generation == x.generation && i.payload == x.payload
  }

  lemma AcceptsSameTerms(secret: Txt, x: Sending, i: Issued, s: Session)
    requires i.mac == HmacSha256(secret, Scrub(ReceiptTranscript(i.receipt)))
    requires ReceiptSays(i.receipt, i.receipt.sessionId, s, i.payload, i.receipt.loopback, i.receipt.observedAt)
    ensures SenderAccepts(secret, x, i.receipt, i.mac) <==> SameTerms(x, i)
  {
    assert [DigestHex(i.payload)][0] == DigestHex(i.payload) && Sha256Text(x.payload)[0] == DigestHex(x.payload);
  }

  lemma IssuedSays(cfg: Settings, w: World, k: nat)
    requires WorldInv(cfg, w) && k < |w.receiver.receipts|
    ensures var i := w.receiver.receipts[k];
            && i.receipt.sessionId in w.receiver.begun
            && ReceiptSays(i.receipt, i.receipt.sessionId, w.receiver.begun[i.receipt.sessionId], i.payload,
                 i.receipt.loopback, i.receipt.observedAt)
  {
    var i := w.receiver.receipts[k];
    assert GoodIssued(cfg, w.receiver, i) && i.receipt.integrity;
    var iv, tagBytes :| i.receipt
      == MakeReceipt(Transfer(i.receipt.sessionId, w.receiver.begun[i.receipt.sessionId], iv, tagBytes),
           i.payload, |i.payload|, i.receipt.loopback, i.receipt.observedAt);
    MadeReceiptSays(Transfer(i.receipt.sessionId, w.receiver.begun[i.receipt.sessionId], iv, tagBytes), i.payload,
      i.receipt.loopback, i.receipt.observedAt);
  }

  /** A sender accepts a receipt that the receiver issued exactly when it is about its own terms. */
  lemma SendersAcceptExactlyTheirOwn(cfg: Settings, events: seq<WorldEvent>, x: Sending, k: nat)
    requires PossibleRun(cfg, events) && k < |WorldRun(cfg, events).receiver.receipts|
    ensures var i := WorldRun(cfg, events).receiver.receipts[k];
            SenderAccepts(cfg.secret, x, i.receipt, i.mac) <==> SameTerms(x, i)
  {
    WorldRunKeepsInv(cfg, events);
    var w := WorldRun(cfg, events);
    var i := w.receiver.receipts[k];
    IssuedSays(cfg, w, k);
    IssuedMac(cfg, w.receiver, k);
    AcceptsSameTerms(cfg.secret, x, i, w.receiver.begun[i.receipt.sessionId]);
  }

  // ---------------------------------------------------------------- the inspector

  /** What a receipt must claim before any secret or payload is looked at. */
  ghost predicate ProperClaims(r: Receipt) {
    && r.schemaVersion == Lit("kindred.sdpn.two-host-proof.v2") && Identifier(r.sessionId)
    && Digest64(r.stateHash) && r.stateHash == r.payloadSha256 == r.receivedSha256
    && Digest64(r.source) && Digest64(r.destination)
    && 1 <= CodePoints(r.stateId) <= 512
    && Unit(124) !in r.stateId && Unit(13) !in r.stateId && Unit(10) !in r.stateId
    && r.generation <= 9007199254740991 && 1 <= r.payloadBytes == r.ciphertextBytes <= 33554432
    && r.authenticated && r.integrity && r.encrypted && !r.physical && !r.production
    && (r.distinctHosts <==> r.source != r.destination)
    && (r.twoHost <==> r.source != r.destination && !r.loopback)
    && r.cipher == Lit("AES-256-GCM") && r.transport == Lit("HTTP_TCP_AES_256_GCM_BUFFERED")
    && exists i :: OnClock(i) && r.observedAt == IsoText(i)
  }

  lemma MetadataMeansProperClaims(r: Receipt)
    ensures MetadataOk(r) <==> ProperClaims(r)
  {
    HashTextIsDigest(r.stateHash);
    HashTextIsDigest(r.source);
    HashTextIsDigest(r.destination);
    SessionIdIsIdentifier(r.sessionId);
    ParsesExactlyWhatIsWritten(r.observedAt);
  }

  /** The object is the written form of a receipt with proper claims; under a secret of 32 characters
      or more its MAC is that secret's over the receipt's transcript, both encodable; and the payload
      has its size and digest. */
  ghost predicate AuthenticObject(m: Object, secret: Option<Txt>, payload: Option<Bytes>, r: Receipt, mac: Mac) {
    && m == WriteReceipt(r, mac) && mac.HmacSha256? && ProperClaims(r)
    && (secret.Some? ==>
          && CodePoints(secret.value) >= 32 && WellFormed(secret.value) && WellFormed(ReceiptTranscript(r))
          && mac == HmacSha256(secret.value, ReceiptTranscript(r)))
    && (payload.Some? ==> |payload.value| == r.payloadBytes && r.payloadSha256 == [DigestHex(payload.value)])
  }

  lemma InspectionOfWritten(m: Object, r: Receipt, mac: Mac, secret: Option<Txt>, payload: Option<Bytes>)
    requires m == WriteReceipt(r, mac)
    ensures InspectObject(m, secret, payload)
            == if AuthenticObject(m, secret, payload, r, mac) then Inspected(secret.Some?, payload.Some?) else Rejected
  {
    WrittenIsReadBack(r, mac);
    MetadataMeansProperClaims(r);
    TranscriptsAgree(r);
  }

  lemma TypedIsWritten(m: Object) returns (r: Receipt, mac: Mac)
    requires Typed(m)
    ensures m == WriteReceipt(r, mac)
  {
    assert HasKind(m[ReceiptMac], KindOf(ReceiptMac));
    r, mac := ReadReceipt(m), m[ReceiptMac].mac;
    ReadMeansWritten(m);
  }

  lemma AuthenticIsInspected(m: Object, secret: Option<Txt>, payload: Option<Bytes>, r: Receipt, mac: Mac)
    requires AuthenticObject(m, secret, payload, r, mac)
    ensures InspectObject(m, secret, payload) == Inspected(secret.Some?, payload.Some?)
  {
    InspectionOfWritten(m, r, mac, secret, payload);
  }

  lemma InspectedIsAuthentic(m: Object, secret: Option<Txt>, payload: Option<Bytes>) returns (r: Receipt, mac: Mac)
    requires InspectObject(m, secret, payload) != Rejected
    ensures AuthenticObject(m, secret, payload, r, mac)
  {
    assert Typed(m);
    r, mac := TypedIsWritten(m);
    InspectionOfWritten(m, r, mac, secret, payload);
  }

  /** For every object, secret and payload: the inspector reports what it was asked to check exactly for
      an authentic object, and rejects every other. */
  lemma InspectedExactlyWhenAuthentic(m: Object, secret: Option<Txt>, payload: Option<Bytes>)
    ensures var authentic := exists r, mac :: AuthenticObject(m, secret, payload, r, mac);
            InspectObject(m, secret, payload) == if authentic then Inspected(secret.Some?, payload.Some?) else Rejected
  {
    if InspectObject(m, secret, payload) != Rejected {
      var r, mac := InspectedIsAuthentic(m, secret, payload);
    }
    forall r, mac | AuthenticObject(m, secret, payload, r, mac)
      ensures InspectObject(m, secret, payload) == Inspected(secret.Some?, payload.Some?)
    {
      AuthenticIsInspected(m, secret, payload, r, mac);
    }
  }

  /** Characters outside the basic plane, each a pair of code units. */
  ghost function Pairs(n: nat): Txt { if n == 0 then [] else [Unit(0xD83D), Unit(0xDE00)] + Pairs(n - 1) }

  lemma {:induction false} PairsCountOnce(n: nat)
    ensures Units(Pairs(n)) == 2 * n && CodePoints(Pairs(n)) == n && WellFormed(Pairs(n))
  {
    if n > 0 {
      PairsCountOnce(n - 1);
      var t := Pairs(n);
      assert t[2..] == Pairs(n - 1) && t[1..][1..] == Pairs(n - 1);
      assert Units(t) == 1 + Units(t[1..]) && Units(t[1..]) == 1 + Units(t[1..][1..]);
    }
  }

  /** The two programs measure a secret differently: sixteen such characters have the 32 code units the
      receiver asks for, and the inspector rejects every object under them. */
  lemma PairedSecretsAreTooShort(m: Object, payload: Option<Bytes>)
    ensures Units(Pairs(16)) == 32 && WellFormed(Pairs(16))
    ensures InspectObject(m, Some(Pairs(16)), payload) == Rejected
  {
    PairsCountOnce(16);
    forall r, mac
      ensures !AuthenticObject(m, Some(Pairs(16)), payload, r, mac)
    {
    }
    InspectedExactlyWhenAuthentic(m, Some(Pairs(16)), payload);
  }

  /** The object carries the MAC of that issued receipt and agrees with it on every encoded field, and
      the payload, when given, is the one the receiver decrypted. */
  ghost predicate StatesIssued(m: Object, payload: Option<Bytes>, r: Receipt, i: Issued) {
    && m == WriteReceipt(r, i.mac) && SameEncodedReceipt(r, i.receipt)
    && (payload.Some? ==> payload.value == i.payload)
  }

  lemma ReceiptMacWasIssued(cfg: Settings, w: World, r: Receipt, mac: Mac) returns (k: nat)
    requires WorldInv(cfg, w) && HashText(cfg.destination) && CanShowMac(cfg, w, mac)
    requires mac == HmacSha256(cfg.secret, Scrub(ReceiptTranscript(r)))
    ensures k < |w.receiver.receipts| && mac == w.receiver.receipts[k].mac
            && SameEncodedReceipt(r, w.receiver.receipts[k].receipt)
  {
    forall j | 0 <= j < |w.sendings|
      ensures mac != SentAuthorization(cfg.secret, w.sendings[j])
    {
      ProofFieldsAreUnambiguous(SentProof(w.sendings[j]));
      ProofIsNoReceipt(SentProof(w.sendings[j]), r);
    }
    var n :| 0 <= n < |w.receiver.receipts| && mac == w.receiver.receipts[n].mac;
    k := n;
    IssuedMac(cfg, w.receiver, k);
    IssuedReceiptsArePlain(cfg, w.receiver, w.receiver.receipts[k]);
    ReceiptFieldsAreUnambiguous(w.receiver.receipts[k].receipt);
    ReceiptTranscriptInjective(r, w.receiver.receipts[k].receipt);
  }

  lemma SamePayload(cfg: Settings, w: World, k: nat, r: Receipt, payload: Bytes)
    requires WorldInv(cfg, w) && k < |w.receiver.receipts| && SameEncodedReceipt(r, w.receiver.receipts[k].receipt)
    requires HashText(r.payloadSha256) && r.payloadSha256 == [DigestHex(payload)]
    ensures payload == w.receiver.receipts[k].payload
  {
    IssuedSays(cfg, w, k);
    var i := w.receiver.receipts[k];
    HashBytes(r.payloadSha256, i.receipt.payloadSha256);
    assert [DigestHex(payload)][0] == [DigestHex(i.payload)][0];
  }

  lemma AuthenticWasIssued(cfg: Settings, w: World, m: Object, secret: Txt, payload: Option<Bytes>, r: Receipt,
      mac: Mac) returns (k: nat)
    requires WorldInv(cfg, w) && HashText(cfg.destination) && cfg.secret == Scrub(secret) && CanShowMac(cfg, w, mac)
    requires AuthenticObject(m, Some(secret), payload, r, mac)
    ensures k < |w.receiver.receipts| && StatesIssued(m, payload, r, w.receiver.receipts[k])
  {
    ScrubFixesExactlyWellFormed(secret);
    ScrubFixesExactlyWellFormed(ReceiptTranscript(r));
    k := ReceiptMacWasIssued(cfg, w, r, mac);
    if payload.Some? {
      HashTextIsDigest(r.stateHash);
      SamePayload(cfg, w, k, r, payload.value);
    }
  }

  lemma MacOfWritten(m: Object, r: Receipt, mac: Mac, shown: Mac)
    requires m == WriteReceipt(r, mac) && ReceiptMac in m && m[ReceiptMac] == MacText(shown)
    ensures mac == shown
  {
    WrittenIsReadBack(r, mac);
  }

  /** Some issued receipt, for bytes a sending sealed for its session, is what the object states. */
  ghost predicate StatesAnIssued(w: World, m: Object, payload: Option<Bytes>) {
    exists r, k :: 0 <= k < |w.receiver.receipts| && StatesIssued(m, payload, r, w.receiver.receipts[k])
      && FromSender(w, w.receiver.receipts[k])
  }

  lemma AuthenticStatesIssued(cfg: Settings, w: World, m: Object, secret: Txt, payload: Option<Bytes>, r: Receipt,
      mac: Mac)
    requires WorldInv(cfg, w) && HashText(cfg.destination) && cfg.secret == Scrub(secret) && CanShowMac(cfg, w, mac)
    requires AuthenticObject(m, Some(secret), payload, r, mac)
    ensures StatesAnIssued(w, m, payload)
  {
    var k := AuthenticWasIssued(cfg, w, m, secret, payload, r, mac);
    assert FromSender(w, w.receiver.receipts[k]);
  }

  /** Over every possible run: an object whose MAC the network can show and the inspector verified under
      the receiver's secret states a receipt the receiver issued, for bytes that a sending sealed. */
  lemma VerifiedReceiptWasIssued(cfg: Settings, events: seq<WorldEvent>, m: Object, secret: Txt,
      payload: Option<Bytes>, mac: Mac)
    requires PossibleRun(cfg, events) && cfg.secret == Scrub(secret)
    requires InspectObject(m, Some(secret), payload) == Inspected(true, payload.Some?)
    requires ReceiptMac in m && m[ReceiptMac] == MacText(mac) && CanShowMac(cfg, WorldRun(cfg, events), mac)
    ensures StatesAnIssued(WorldRun(cfg, events), m, payload)
  {
    WorldRunKeepsInv(cfg, events);
    var r, other := InspectedIsAuthentic(m, Some(secret), payload);
    MacOfWritten(m, r, other, mac);
    AuthenticStatesIssued(cfg, WorldRun(cfg, events), m, secret, payload, r, mac);
  }
}
