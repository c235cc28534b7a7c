/** What a policy's permission and a signed control are worth over whole runs: who can still
    exchange frames, and which controls make an offer or a session. Every condition is written with
    the fields of the record, the policy and the control. */
module SessionAuthority {
  import opened Identity
  import opened Letters
  import opened SessionPolicy
  import SignedDirectories
  import opened NativeSession
  import opened SessionRuns

  // ---------------------------------------------------------------- revocation over runs

  /** Policy k does not list the peer, or has revoked it. */
  ghost predicate Banned(w: World, k: nat, peer: PortId) {
    k < |w.policies| && (peer !in w.policies[k].peers || peer in w.policies[k].revoked)
  }

  /** Sessions keep their owner, policy k's sessions with the peer move nothing, and none is added. */
  ghost predicate CutOff(w: World, w': World, k: nat, peer: PortId) {
    && |w.sessions| <= |w'.sessions|
    && (forall i :: 0 <= i < |w.sessions| ==>
       && w'.sessions[i].policy == w.sessions[i].policy && w'.sessions[i].grant == w.sessions[i].grant
       && (w.sessions[i].policy == k && w.sessions[i].grant.peer == peer ==>
          && w'.sessions[i].progress.sent == w.sessions[i].progress.sent
          && w'.sessions[i].progress.got == w.sessions[i].progress.got))
    && (forall i :: |w.sessions| <= i < |w'.sessions| ==>
       !(w'.sessions[i].policy == k && w'.sessions[i].grant.peer == peer))
  }

  lemma BannedFrames(w: World, e: Event, k: nat, peer: PortId)
    requires Banned(w, k, peer) && (e.SealFrame? || e.OpenFrame? || e.CloseSession?)
    ensures Banned(Step(w, e), k, peer) && CutOff(w, Step(w, e), k, peer)
  {
  }

  lemma BannedHandshakes(w: World, e: Event, k: nat, peer: PortId)
    requires Banned(w, k, peer) && (e.AcceptSession? || e.FinishOffer?)
    ensures Banned(Step(w, e), k, peer) && CutOff(w, Step(w, e), k, peer)
  {
  }

  lemma BannedStep(w: World, e: Event, k: nat, peer: PortId)
    requires Banned(w, k, peer)
    ensures Banned(Step(w, e), k, peer) && CutOff(w, Step(w, e), k, peer)
  {
    if e.SealFrame? || e.OpenFrame? || e.CloseSession? {
      BannedFrames(w, e, k, peer);
    } else if e.AcceptSession? || e.FinishOffer? {
      BannedHandshakes(w, e, k, peer);
    } else {
      assert Step(w, e).sessions == w.sessions;
    }
  }

  lemma {:induction false} BannedRun(w: World, events: seq<Event>, k: nat, peer: PortId)
    requires Banned(w, k, peer)
    ensures Banned(Run(w, events), k, peer) && CutOff(w, Run(w, events), k, peer)
    decreases |events|
  {
    if events != [] {
      BannedRun(w, events[..|events| - 1], k, peer);
      BannedStep(Run(w, events[..|events| - 1]), events[|events| - 1], k, peer);
    }
  }

  lemma RunOfOne(w: World, e: Event)
    ensures Run(w, [e]) == Step(w, e)
  {
    assert [e][..0] == [] && Run(w, []) == w;
  }

  /** Revoking adds a peer of the policy to its revoked ones, ignores any other name, and touches nothing
      else. */
  lemma RevokingOnlyRevokes(w: World, k: nat, peer: PortId)
    requires k < |w.policies|
    ensures var p := w.policies[k];
            var revoked := if peer in p.peers then p.revoked + {peer} else p.revoked;
            Step(w, RevokePeer(k, peer)) == w.(policies := w.policies[k := p.(revoked := revoked)])
  {
    assert w.policies[k := w.policies[k]] == w.policies;
  }

  lemma RevocationBans(w: World, k: nat, peer: PortId)
    requires k < |w.policies|
    ensures var w' := Step(w, RevokePeer(k, peer));
            w'.sessions == w.sessions && Banned(w', k, peer)
  {
    RevokingOnlyRevokes(w, k, peer);
  }

  /** After policy k revokes a peer, whatever follows: no session under k with that peer seals or opens
      another byte, and none is made. */
  lemma RevokedPeerIsCutOff(w: World, k: nat, peer: PortId, more: seq<Event>)
    requires k < |w.policies|
    ensures var w' := Run(w, [RevokePeer(k, peer)] + more);
            && |w.sessions| <= |w'.sessions|
            && (forall i :: 0 <= i < |w.sessions| ==>
                 w'.sessions[i].policy == w.sessions[i].policy && w'.sessions[i].grant == w.sessions[i].grant)
            && (forall i :: 0 <= i < |w'.sessions| ==>
                 w'.sessions[i].policy == k && w'.sessions[i].grant.peer == peer ==>
                 && i < |w.sessions|
                 && w'.sessions[i].progress.sent == w.sessions[i].progress.sent
                 && w'.sessions[i].progress.got == w.sessions[i].progress.got)
  {
    RunConcat(w, [RevokePeer(k, peer)], more);
    RunOfOne(w, RevokePeer(k, peer));
    RevocationBans(w, k, peer);
    BannedRun(Step(w, RevokePeer(k, peer)), more, k, peer);
  }

  /** Closing a session is the last thing that happens to it. */
  lemma ClosingIsFinal(w: World, i: nat, more: seq<Event>)
    requires i < |w.sessions|
    ensures var w' := Run(w, [CloseSession(i)] + more);
            i < |w'.sessions|
            && w'.sessions[i] == w.sessions[i].(progress := w.sessions[i].progress.(closed := true))
  {
    RunConcat(w, [CloseSession(i)], more);
    RunOfOne(w, CloseSession(i));
    ClosedStaysClosed(Step(w, CloseSession(i)), more, i);
  }

  /** Offer i is used up, and none of the sessions from `start` on was made from it. */
  ghost predicate NoneFromOffer(w: World, i: nat, start: nat) {
    && i < |w.offers| && w.offers[i].finished && start <= |w.sessions|
    && forall j :: start <= j < |w.sessions| ==> w.sessions[j].role != Offerer(i)
  }

  lemma NoneFromOfferStep(w: World, e: Event, i: nat, start: nat)
    requires NoneFromOffer(w, i, start)
    ensures NoneFromOffer(Step(w, e), i, start)
  {
  }

  lemma {:induction false} NoneFromOfferRun(w: World, events: seq<Event>, i: nat, start: nat)
    requires NoneFromOffer(w, i, start)
    ensures NoneFromOffer(Run(w, events), i, start)
    decreases |events|
  {
    if events != [] {
      NoneFromOfferRun(w, events[..|events| - 1], i, start);
      NoneFromOfferStep(Run(w, events[..|events| - 1]), events[|events| - 1], i, start);
    }
  }

  /** A cancelled offer makes no session, whatever follows. */
  lemma CancelledOffersMakeNoSession(w: World, i: nat, more: seq<Event>)
    requires i < |w.offers|
    ensures var w' := Run(w, [CancelOffer(i)] + more);
            |w.sessions| <= |w'.sessions|
            && forall j :: |w.sessions| <= j < |w'.sessions| ==> w'.sessions[j].role != Offerer(i)
  {
    RunConcat(w, [CancelOffer(i)], more);
    RunOfOne(w, CancelOffer(i));
    NoneFromOfferRun(Step(w, CancelOffer(i)), more, i, |w.sessions|);
  }

  // ---------------------------------------------------------------- the grammar of scopes and adapters

  ghost predicate ScopeInBounds(s: Scope) { Hex(s.stateSha256, 64) && 1 <= s.maxBytes <= 4194304 }

  ghost predicate AdapterInBounds(a: Adapter) {
    && 1 <= |a.id| <= 64 && a.id[0] in SMALL
    && (forall c :: c in a.id[1..] ==> c in SMALL || c in DIGITS || c in "./-")
    && 1 <= |a.substrate| <= 64 && a.substrate[0] in CAPITAL
    && (forall c :: c in a.substrate[1..] ==> c in CAPITAL || c in DIGITS || c in "_")
  }

  lemma IdTail(s: string)
    requires s != ""
    ensures (forall c :: c in s[1..] ==> c in SMALL || c in DIGITS || c in "./-")
            <==> forall i :: 1 <= i < |s| ==> AdapterIdTail(s[i])
  {
    forall c: char
      ensures c in SMALL || c in DIGITS || c in "./-" <==> AdapterIdTail(c)
    {
      SmallRange(c);
      DigitRange(c);
      assert "./-"[0] == '.' && "./-"[1] == '/' && "./-"[2] == '-';
    }
    assert forall i :: 1 <= i < |s| ==> s[i] in s[1..];
  }

  lemma SubstrateRest(s: string)
    requires s != ""
    ensures (forall c :: c in s[1..] ==> c in CAPITAL || c in DIGITS || c in "_")
            <==> forall i :: 1 <= i < |s| ==> SubstrateTail(s[i])
  {
    forall c: char
      ensures c in CAPITAL || c in DIGITS || c in "_" <==> SubstrateTail(c)
    {
      CapitalRange(c);
      DigitRange(c);
      assert "_"[0] == '_';
    }
    assert forall i :: 1 <= i < |s| ==> s[i] in s[1..];
  }

  /** The written patterns of a scope and of an adapter, letter by letter. */
  lemma ScopesAndAdaptersFitTheirPatterns(s: Scope, a: Adapter)
    ensures ValidScope(s) <==> ScopeInBounds(s)
    ensures ValidAdapter(a) <==> AdapterInBounds(a)
  {
    HexDigits(s.stateSha256, 64);
    if a.id != "" { SmallRange(a.id[0]); IdTail(a.id); }
    if a.substrate != "" { CapitalRange(a.substrate[0]); SubstrateRest(a.substrate); }
  }

  // ---------------------------------------------------------------- frames

  /** The policy lists the peer, the state and the adapter, both well formed, and has not revoked it. */
  ghost predicate Permits(p: Policy, peer: PortId, scope: Scope, adapter: Adapter) {
    && peer in p.peers && peer !in p.revoked && scope.stateSha256 in p.states && adapter in p.adapters
    && ScopeInBounds(scope) && AdapterInBounds(adapter)
  }

  /** An open session of the run, neither control expired, whose policy still permits its peer. */
  ghost predicate StillOpen(w: World, i: nat, now: int) {
    && i < |w.sessions| && w.sessions[i].policy < |w.policies| && !w.sessions[i].progress.closed
    && w.sessions[i].grant.offer.body.OfferBody? && w.sessions[i].grant.accept.body.AcceptBody?
    && now < w.sessions[i].grant.offer.body.expiresAt && now < w.sessions[i].grant.accept.body.expiresAt
    && Permits(w.policies[w.sessions[i].policy], w.sessions[i].grant.peer, w.sessions[i].grant.offer.body.scope,
         w.sessions[i].grant.offer.body.adapter)
  }

  lemma OpenMeansActive(w: World, i: nat, now: int)
    requires SessionUsable(w, i)
    ensures StillOpen(w, i, now) <==>
              Active(w.sessions[i].grant, w.sessions[i].progress, w.policies[w.sessions[i].policy], now)
  {
    ScopesAndAdaptersFitTheirPatterns(w.sessions[i].grant.offer.body.scope, w.sessions[i].grant.offer.body.adapter);
  }

  /** Sealing appends the bytes exactly for an open session within its size and count; otherwise
      nothing in the world changes. */
  lemma SealsExactlyWhen(w: World, i: nat, bytes: Bytes, now: int)
    requires i < |w.sessions|
    ensures var w' := Step(w, SealFrame(i, bytes, now));
            var s := w.sessions[i].progress;
            var may := StillOpen(w, i, now) && |bytes| <= w.sessions[i].grant.offer.body.scope.maxBytes && s.tx < 1024;
            && (may ==> w'.sessions[i].progress == Progress(s.tx + 1, s.rx, s.closed, s.sent + [bytes], s.got))
            && (!may ==> w' == w)
  {
    if SessionUsable(w, i) { OpenMeansActive(w, i, now); }
  }

  /** The frame names this session and its next number and keeps within the length limits. */
  ghost predicate NextFrame(g: Grant, s: Progress, f: Frame)
    requires g.offer.body.OfferBody?
  {
    && f.schemaOk && f.canonical && f.sessionId == g.offer.body.sessionId && f.sequence == s.rx && s.rx < 1024
    && f.encodedLength <= (g.offer.body.scope.maxBytes + 2) / 3 * 4
    && BoxSize(f.box) <= g.offer.body.scope.maxBytes
  }

  /** Sealed under the key of the peer's direction, with the number as nonce and the session, both
      ports, the number and the state as header. */
  ghost predicate FromPeer(g: Grant, rx: nat, box: Box)
    requires g.offer.body.OfferBody?
  {
    && box.Sealed?
    && box.key == Kdf({g.secret, g.peerKey.secret}, g.offer, g.accept, g.peer, g.local)
    && box.nonce == [0, 0, 0, 0] + BigEndian(rx, 8)
    && box.aad == FrameAad(g.offer.body.sessionId, g.peer, g.local, rx, g.offer.body.scope.stateSha256)
  }

  lemma FramesAndKeys(g: Grant, s: Progress, p: Policy, f: Frame, now: int)
    requires WellFormedGrant(g)
    ensures InBounds(g, s, p, f, now) <==> Active(g, s, p, now) && NextFrame(g, s, f)
    ensures Authentic(g, s.rx, f.box) <==> FromPeer(g, s.rx, f.box)
  {
  }

  /** Opening returns bytes exactly for the next frame of an open session that the peer's direction
      sealed; a next frame with any other box closes the session; anything else changes nothing. */
  lemma OpensExactlyWhen(w: World, i: nat, f: Frame, now: int)
    requires i < |w.sessions|
    ensures var w' := Step(w, OpenFrame(i, f, now));
            var g, s := w.sessions[i].grant, w.sessions[i].progress;
            var read := StillOpen(w, i, now) && NextFrame(g, s, f);
            && (read && FromPeer(g, s.rx, f.box) ==>
                 w'.sessions[i].progress == Progress(s.tx, s.rx + 1, false, s.sent, s.got + [f.box.plain]))
            && (read && !FromPeer(g, s.rx, f.box) ==>
                 w'.sessions[i].progress == Progress(s.tx, s.rx, true, s.sent, s.got))
            && (!read ==> w' == w)
  {
    if SessionUsable(w, i) {
      OpenMeansActive(w, i, now);
      FramesAndKeys(w.sessions[i].grant, w.sessions[i].progress, w.policies[w.sessions[i].policy], f, now);
    }
  }

  // ---------------------------------------------------------------- controls

  /** A peer record that is signed by its own port, current, of at most five minutes, and advertises
      native sessions. */
  ghost predicate Advertises(r: SignedDirectories.PeerRecord, now: int) {
    && r.body.portId == PortOf(r.body.publicKey) && r.signature == SignedDirectories.Sig(r.body.publicKey, r.body)
    && 1 <= r.body.revision <= 9007199254740991
    && -9007199254740991 <= r.body.issuedAt <= now < r.body.expiresAt <= 9007199254740991
    && r.body.expiresAt <= r.body.issuedAt + 300_000
    && SignedDirectories.PeerContentOk(r.body.content) && "native.materialize.v1" in r.body.content.capabilities
  }

  /** A control signed by its sender, read within its own window of at most thirty seconds. */
  ghost predicate CurrentControl(e: Envelope, sender: SigningKey, receiver: PortId, now: int)
    requires !e.body.Foreign?
  {
    && e.signature == Signed(sender, e.body) && e.body.fromPort == PortOf(sender) && e.body.toPort == receiver
    && Hex(e.body.sessionId, 32)
    && -9007199254740991 <= e.body.issuedAt <= now < e.body.expiresAt <= 9007199254740991
    && e.body.expiresAt <= e.body.issuedAt + 30_000
    && ScopeInBounds(e.body.scope) && AdapterInBounds(e.body.adapter)
  }

  /** An offer is made exactly for a current record of a permitted peer, by a local port; it is signed
      for that peer, lasts thirty seconds and carries a new secret. */
  lemma OffersExactlyWhen(w: World, who: SigningKey, r: SignedDirectories.PeerRecord, scope: Scope, adapter: Adapter,
      k: nat, id: string, now: int)
    ensures var w' := Step(w, OfferSession(who, r, scope, adapter, k, id, now));
            var body := OfferBody(id, PortOf(who), r.body.portId, now, now + 30_000, X25519(Drawn(w.drawn)), scope,
              adapter);
            var may := who in w.honest && k < |w.policies| && Advertises(r, now)
              && Permits(w.policies[k], r.body.portId, scope, adapter);
            && (may ==> w'.offers == w.offers + [Offer(who, r.body.publicKey, Envelope(body, Signed(who, body)),
                 Drawn(w.drawn), scope, adapter, k, false)])
            && (!may ==> w' == w)
  {
    ScopesAndAdaptersFitTheirPatterns(scope, adapter);
  }

  /** The offer is current, comes from the port of a current record, is addressed to this one, and asks
      for what the policy permits. */
  ghost predicate AcceptableOffer(w: World, who: SigningKey, offer: Envelope, r: SignedDirectories.PeerRecord, k: nat,
      adapter: Adapter, now: int) {
    && who in w.honest && k < |w.policies| && Advertises(r, now)
    && offer.body.OfferBody? && CurrentControl(offer, r.body.publicKey, PortOf(who), now)
    && offer.body.adapter == adapter && Permits(w.policies[k], r.body.portId, offer.body.scope, adapter)
  }

  /** Its id is not among those the policy holds unexpired, and they leave room. */
  ghost predicate UnusedId(p: Policy, id: string, now: int) {
    && (id in p.used ==> p.used[id] <= now)
    && |set k | k in p.used && p.used[k] > now| < p.capacity
  }

  lemma AcceptableMeansMayAccept(w: World, who: SigningKey, offer: Envelope, r: SignedDirectories.PeerRecord, k: nat,
      adapter: Adapter, now: int)
    requires who in w.honest && k < |w.policies|
    ensures AcceptableOffer(w, who, offer, r, k, adapter, now) <==>
              MayAccept(who, w.policies[k], offer, r, adapter, now)
  {
    if offer.body.OfferBody? {
      ScopesAndAdaptersFitTheirPatterns(offer.body.scope, adapter);
      ScopesAndAdaptersFitTheirPatterns(offer.body.scope, offer.body.adapter);
      HexDigits(offer.body.sessionId, 32);
    }
  }

  lemma UnusedMeansConsumed(p: Policy, id: string, expiresAt: int, now: int)
    ensures Consume(p, id, expiresAt, now).1 <==> UnusedId(p, id, now)
  {
    assert Unexpired(p.used, now).Keys == set k | k in p.used && p.used[k] > now;
    assert |Unexpired(p.used, now)| == |Unexpired(p.used, now).Keys|;
  }

  /** A session is accepted exactly for an acceptable offer with an unused id; its answer repeats the
      offer's terms and expiry, names the offer's digest and carries a new secret. */
  lemma AcceptsExactlyWhen(w: World, who: SigningKey, offer: Envelope, r: SignedDirectories.PeerRecord, k: nat,
      adapter: Adapter, now: int)
    ensures var w' := Step(w, AcceptSession(who, offer, r, k, adapter, now));
            var may := AcceptableOffer(w, who, offer, r, k, adapter, now)
              && UnusedId(w.policies[k], offer.body.sessionId, now);
            && (may ==>
                 var b := offer.body;
                 var body := AcceptBody(b.sessionId, PortOf(who), b.fromPort, now, b.expiresAt,
                   X25519(Drawn(w.drawn)), b.scope, b.adapter, Sha256(offer));
                 var grant := Grant(PortOf(who), r.body.portId, offer, Envelope(body, Signed(who, body)),
                   Drawn(w.drawn), b.ephemeral);
                 w'.sessions == w.sessions + [Session(grant, Acceptor, k, Progress(0, 0, false, [], []))])
            && (!may ==> w'.sessions == w.sessions && w'.drawn == w.drawn)
  {
    if who in w.honest && k < |w.policies| {
      AcceptableMeansMayAccept(w, who, offer, r, k, adapter, now);
      if offer.body.OfferBody? { UnusedMeansConsumed(w.policies[k], offer.body.sessionId, offer.body.expiresAt, now); }
    }
  }

  /** An unfinished offer, answered by its peer with a current control for the same session, digest,
      expiry, scope and adapter, which the policy still permits. */
  ghost predicate AnswersOffer(w: World, i: nat, accept: Envelope, now: int) {
    && i < |w.offers| && w.offers[i].envelope.body.OfferBody? && w.offers[i].policy < |w.policies|
    && !w.offers[i].finished && accept.body.AcceptBody?
    && CurrentControl(accept, w.offers[i].peerKey, PortOf(w.offers[i].who), now)
    && accept.body.sessionId == w.offers[i].envelope.body.sessionId
    && accept.body.offerSha256 == Sha256(w.offers[i].envelope)
    && accept.body.expiresAt == w.offers[i].envelope.body.expiresAt
    && accept.body.scope == w.offers[i].scope && accept.body.adapter == w.offers[i].adapter
    && Permits(w.policies[w.offers[i].policy], PortOf(w.offers[i].peerKey), w.offers[i].scope, w.offers[i].adapter)
  }

  /** Finishing makes one session and uses the offer up exactly for such an answer. */
  lemma FinishesExactlyWhen(w: World, i: nat, accept: Envelope, now: int)
    ensures var w' := Step(w, FinishOffer(i, accept, now));
            && (AnswersOffer(w, i, accept, now) ==>
                 var o := w.offers[i];
                 var grant := Grant(PortOf(o.who), PortOf(o.peerKey), o.envelope, accept, o.secret,
                   accept.body.ephemeral);
                 && w'.sessions == w.sessions + [Session(grant, Offerer(i), o.policy, Progress(0, 0, false, [], []))]
                 && w'.offers == w.offers[i := o.(finished := true)])
            && (!AnswersOffer(w, i, accept, now) ==> w' == w)
  {
    if i < |w.offers| && accept.body.AcceptBody? {
      ScopesAndAdaptersFitTheirPatterns(accept.body.scope, accept.body.adapter);
      HexDigits(accept.body.sessionId, 32);
    }
  }
}
