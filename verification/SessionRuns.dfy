/** Whole runs of the native session protocol: any number of honest ports, policies, offers and
    sessions, over a network that drops, duplicates, reorders, alters and invents messages. */
module SessionRuns {
  import opened Identity
  import opened SessionPolicy
  import opened SignedDirectories
  import opened NativeSession

  datatype Offer = Offer(who: SigningKey, peerKey: SigningKey, envelope: Envelope, secret: Secret,
                         scope: Scope, adapter: Adapter, policy: nat, finished: bool)

  /** Which side of the handshake made the session; an offerer remembers its offer. */
  datatype Role = Offerer(offer: nat) | Acceptor

  datatype Session = Session(grant: Grant, role: Role, policy: nat, progress: Progress)

  datatype World = World(
    honest: set<SigningKey>, policies: seq<Policy>, drawn: nat, offers: seq<Offer>, sessions: seq<Session>)

  datatype Event =
    | OfferSession(who: SigningKey, record: PeerRecord, scope: Scope, adapter: Adapter, policy: nat, sessionId: string,
      now: int)
    | AcceptSession(who: SigningKey, offer: Envelope, record: PeerRecord, policy: nat, adapter: Adapter, now: int)
    | FinishOffer(index: nat, accept: Envelope, now: int)
    | CancelOffer(index: nat)
    | SealFrame(session: nat, bytes: Bytes, now: int)
    | OpenFrame(session: nat, frame: Frame, now: int)
    | CloseSession(session: nat)
    | RevokePeer(policy: nat, peer: PortId)

  function AddSession(w: World, s: Session): World { w.(sessions := w.sessions + [s]) }

  function WithProgress(w: World, i: nat, p: Progress): World
    requires i < |w.sessions|
  {
    w.(sessions := w.sessions[i := w.sessions[i].(progress := p)])
  }

  predicate SessionUsable(w: World, i: nat) {
    i < |w.sessions| && w.sessions[i].policy < |w.policies| && WellFormedGrant(w.sessions[i].grant)
  }

  function DoOffer(w: World, who: SigningKey, record: PeerRecord, scope: Scope, adapter: Adapter, policy: nat,
      sessionId: string, now: int): World {
    if who !in w.honest || policy >= |w.policies| || !MayOffer(w.policies[policy], record, scope, adapter, now)
      then w else
    var secret := Drawn(w.drawn);
    var envelope := MakeOffer(who, record.body.portId, scope, adapter, sessionId, secret, now);
    w.(drawn := w.drawn + 1,
       offers := w.offers + [Offer(who, record.body.publicKey, envelope, secret, scope, adapter, policy, false)])
  }

  function DoAccept(w: World, who: SigningKey, offer: Envelope, record: PeerRecord, policy: nat, adapter: Adapter,
      now: int): World {
    if who !in w.honest || policy >= |w.policies| || !MayAccept(who, w.policies[policy], offer, record, adapter, now)
      then w else
    var (p, ok) := Consume(w.policies[policy], offer.body.sessionId, offer.body.expiresAt, now);
    var w' := w.(policies := w.policies[policy := p]);
    if !ok then w' else
    var secret := Drawn(w.drawn);
    var accept := MakeAccept(who, offer, secret, now);
    var grant := Grant(PortOf(who), record.body.portId, offer, accept, secret, offer.body.ephemeral);
    AddSession(w'.(drawn := w.drawn + 1), Session(grant, Acceptor, policy, FRESH))
  }

  function DoFinish(w: World, i: nat, accept: Envelope, now: int): World {
    if i >= |w.offers| || !w.offers[i].envelope.body.OfferBody? || w.offers[i].policy >= |w.policies| then w else
    var o := w.offers[i];
    if o.finished || !MayFinish(o.who, o.peerKey, o.envelope, o.scope, o.adapter, w.policies[o.policy], accept, now)
      then w else
    var grant := Grant(PortOf(o.who), PortOf(o.peerKey), o.envelope, accept, o.secret, accept.body.ephemeral);
    AddSession(w.(offers := w.offers[i := o.(finished := true)]), Session(grant, Offerer(i), o.policy, FRESH))
  }

  function Step(w: World, e: Event): World {
    match e
    case OfferSession(who, record, scope, adapter, policy, sessionId, now) =>
      DoOffer(w, who, record, scope, adapter, policy, sessionId, now)
    case AcceptSession(who, offer, record, policy, adapter, now) =>
      DoAccept(w, who, offer, record, policy, adapter, now)
    case FinishOffer(i, accept, now) => DoFinish(w, i, accept, now)
    case CancelOffer(i) => if i < |w.offers| then w.(offers := w.offers[i := w.offers[i].(finished := true)]) else w
    case SealFrame(i, bytes, now) =>
      if !SessionUsable(w, i) then w else
      WithProgress(w, i, SealStep(w.sessions[i].grant, w.sessions[i].progress, w.policies[w.sessions[i].policy], bytes,
        now).0)
    case OpenFrame(i, frame, now) =>
      if !SessionUsable(w, i) then w else
      WithProgress(w, i, OpenStep(w.sessions[i].grant, w.sessions[i].progress, w.policies[w.sessions[i].policy], frame,
        now).0)
    case CloseSession(i) => if i < |w.sessions| then WithProgress(w, i, w.sessions[i].progress.(closed := true)) else w
    case RevokePeer(k, peer) =>
      if k < |w.policies| && peer in w.policies[k].peers
      then w.(policies := w.policies[k := w.policies[k].(revoked := w.policies[k].revoked + {peer})]) else w
  }

  // ---------------------------------------------------------------- what the network can do

  ghost predicate IssuedOffer(w: World, e: Envelope) { exists i :: 0 <= i < |w.offers| && w.offers[i].envelope == e }

  ghost predicate IssuedAccept(w: World, e: Envelope) {
    exists i :: 0 <= i < |w.sessions| && w.sessions[i].role.Acceptor? && w.sessions[i].grant.accept == e
  }

  /** Signatures of honest keys cannot be forged: such an envelope was issued by its signer.
      Everything else the network may make up. */
  ghost predicate CanPresent(w: World, e: Envelope) {
    e.signature.Signed? && e.signature.key in w.honest && e.signature.body == e.body ==>
      IssuedOffer(w, e) || IssuedAccept(w, e)
  }

  ghost predicate WasSealed(w: World, box: Box) {
    exists i, n :: 0 <= i < |w.sessions| && 0 <= n < |w.sessions[i].progress.sent|
      && WellFormedGrant(w.sessions[i].grant)
      && box == SentBox(w.sessions[i].grant, n, w.sessions[i].progress.sent[n])
  }

  ghost predicate HostileSecret(s: Secret) { s.Hostile? }

  /** The network can encrypt under a key only if it owns one of the scalars behind it; otherwise a
      box under that key is one an honest endpoint sealed at some time. */
  ghost predicate CanDeliver(w: World, box: Box) {
    box.Sealed? && (forall s :: s in box.key.shared ==> !HostileSecret(s)) ==> WasSealed(w, box)
  }

  ghost predicate Possible(w: World, e: Event) {
    match e
    case AcceptSession(_, offer, _, _, _, _) => CanPresent(w, offer)
    case FinishOffer(_, accept, _) => CanPresent(w, accept)
    case OpenFrame(_, frame, _) => CanDeliver(w, frame.box)
    case _ => true
  }

  function Run(w: World, events: seq<Event>): World
    decreases |events|
  {
    if events == [] then w else Step(Run(w, events[..|events| - 1]), events[|events| - 1])
  }

  ghost predicate PossibleRun(w: World, events: seq<Event>) {
    forall n :: 0 <= n < |events| ==> Possible(Run(w, events[..n]), events[n])
  }

  ghost predicate Initial(w: World) { w.offers == [] && w.sessions == [] && w.drawn == 0 }

  // ---------------------------------------------------------------- invariant

  ghost predicate GoodOffer(w: World, o: Offer) {
    && o.who in w.honest
    && o.envelope.body.OfferBody?
    && o.envelope.signature == Signed(o.who, o.envelope.body)
    && o.envelope.body.fromPort == PortOf(o.who) && o.envelope.body.toPort == PortOf(o.peerKey)
    && o.envelope.body.ephemeral == X25519(o.secret)
    && o.envelope.body.scope == o.scope && o.envelope.body.adapter == o.adapter
    && o.secret.Drawn? && o.secret.n < w.drawn
  }

  ghost predicate GoodGrant(w: World, g: Grant) {
    && WellFormedGrant(g) && g.local.key in w.honest
    && g.offer.body.sessionId == g.accept.body.sessionId && g.offer.body.scope == g.accept.body.scope
    && g.offer.body.adapter == g.accept.body.adapter && g.offer.body.expiresAt == g.accept.body.expiresAt
    && g.accept.body.offerSha256 == Sha256(g.offer)
    && g.secret.Drawn? && g.secret.n < w.drawn
  }

  ghost predicate GoodOfferer(w: World, g: Grant, i: nat) {
    && i < |w.offers| && w.offers[i].finished && w.offers[i].envelope == g.offer && w.offers[i].secret == g.secret
    && g.offer.body.OfferBody? && g.offer.body.fromPort == g.local && g.offer.body.toPort == g.peer
    && g.accept.body.AcceptBody? && g.accept.body.ephemeral == g.peerKey
    && g.accept.signature == Signed(g.peer.key, g.accept.body)
    && g.accept.body.fromPort == g.peer && g.accept.body.toPort == g.local
    && (g.peer.key in w.honest ==> IssuedAccept(w, g.accept))
  }

  ghost predicate GoodAcceptor(w: World, g: Grant) {
    && g.accept.body.AcceptBody? && g.accept.body.ephemeral == X25519(g.secret)
    && g.accept.body.fromPort == g.local && g.accept.body.toPort == g.peer
    && g.accept.signature == Signed(g.local.key, g.accept.body)
    && g.offer.body.OfferBody? && g.offer.body.fromPort == g.peer && g.offer.body.toPort == g.local
    && g.offer.body.ephemeral == g.peerKey
    && (g.peer.key in w.honest ==> IssuedOffer(w, g.offer))
  }

  ghost predicate GoodSession(w: World, s: Session) {
    && GoodGrant(w, s.grant)
    && (match s.role case Offerer(i) => GoodOfferer(w, s.grant, i) case Acceptor => GoodAcceptor(w, s.grant))
    && s.progress.tx == |s.progress.sent| <= 1024 && s.progress.rx == |s.progress.got| <= 1024
  }

  /** Every secret is drawn once: by one offer or by one accepting session. */
  ghost predicate SecretsDistinct(w: World) {
    && (forall i, j :: 0 <= i < j < |w.offers| ==> w.offers[i].secret != w.offers[j].secret)
    && (forall i, j :: 0 <= i < j < |w.sessions| && w.sessions[i].role.Acceptor? && w.sessions[j].role.Acceptor? ==>
          w.sessions[i].grant.secret != w.sessions[j].grant.secret)
    && (forall i, j :: 0 <= i < |w.offers| && 0 <= j < |w.sessions| && w.sessions[j].role.Acceptor? ==>
          w.offers[i].secret != w.sessions[j].grant.secret)
  }

  ghost predicate OffersFinishOnce(w: World) {
    forall i, j :: 0 <= i < j < |w.sessions| && w.sessions[i].role.Offerer? ==> w.sessions[i].role != w.sessions[j].role
  }

  /** Same handshake seen from the other side. */
  ghost predicate Partners(a: Session, b: Session) {
    && a.grant.offer == b.grant.offer && a.grant.accept == b.grant.accept
    && a.grant.local == b.grant.peer && a.grant.peer == b.grant.local
    && a.role.Acceptor? != b.role.Acceptor?
  }

  /** A session whose peer is an honest port other than itself. */
  ghost predicate Protected(w: World, s: Session) { s.grant.peer.key in w.honest && s.grant.peer != s.grant.local }

  ghost predicate SentByPartner(w: World, i: nat, n: nat)
    requires i < |w.sessions| && n < |w.sessions[i].progress.got|
  {
    exists j :: 0 <= j < |w.sessions| && Partners(w.sessions[i], w.sessions[j])
      && n < |w.sessions[j].progress.sent| && w.sessions[j].progress.sent[n] == w.sessions[i].progress.got[n]
  }

  ghost predicate Delivered(w: World) {
    forall i, n :: 0 <= i < |w.sessions| && Protected(w, w.sessions[i]) && 0 <= n < |w.sessions[i].progress.got| ==>
      SentByPartner(w, i, n)
  }

  ghost predicate Inv(w: World) {
    && (forall i :: 0 <= i < |w.offers| ==> GoodOffer(w, w.offers[i]))
    && (forall i :: 0 <= i < |w.sessions| ==> GoodSession(w, w.sessions[i]))
    && SecretsDistinct(w) && OffersFinishOnce(w) && Delivered(w)
  }

  // ---------------------------------------------------------------- growth

  /** Nothing an earlier world recorded is lost or rewritten. */
  ghost predicate Grows(w: World, w': World) {
    && w'.honest == w.honest && w.drawn <= w'.drawn
    && |w.offers| <= |w'.offers| && |w.sessions| <= |w'.sessions|
    && (forall i :: 0 <= i < |w.offers| ==>
       w'.offers[i].(finished := w.offers[i].finished) == w.offers[i]
         && (w.offers[i].finished ==> w'.offers[i].finished))
    && (forall i :: 0 <= i < |w.sessions| ==> SameSession(w.sessions[i], w'.sessions[i]))
  }

  ghost predicate SameSession(s: Session, s': Session) {
    s'.grant == s.grant && s'.role == s.role && s.progress.sent <= s'.progress.sent
  }

  lemma IssuedGrows(w: World, w': World, e: Envelope)
    requires Grows(w, w')
    ensures IssuedOffer(w, e) ==> IssuedOffer(w', e)
    ensures IssuedAccept(w, e) ==> IssuedAccept(w', e)
  {
    if IssuedOffer(w, e) {
      var i :| 0 <= i < |w.offers| && w.offers[i].envelope == e;
      assert w'.offers[i].envelope == e;
    }
    if IssuedAccept(w, e) {
      var i :| 0 <= i < |w.sessions| && w.sessions[i].role.Acceptor? && w.sessions[i].grant.accept == e;
      assert SameSession(w.sessions[i], w'.sessions[i]);
      assert w'.sessions[i].grant.accept == e;
    }
  }

  lemma SessionStaysGood(w: World, w': World, s: Session, p: Progress)
    requires Grows(w, w') && GoodSession(w, s)
    requires p.tx == |p.sent| <= 1024 && p.rx == |p.got| <= 1024
    ensures GoodSession(w', s.(progress := p))
  {
    IssuedGrows(w, w', s.grant.offer);
    IssuedGrows(w, w', s.grant.accept);
  }

  lemma DeliveryGrows(w: World, w': World, i: nat, n: nat)
    requires Grows(w, w') && i < |w.sessions| && n < |w.sessions[i].progress.got| && SentByPartner(w, i, n)
    requires n < |w'.sessions[i].progress.got| && w'.sessions[i].progress.got[n] == w.sessions[i].progress.got[n]
    ensures SentByPartner(w', i, n)
  {
    var j :| 0 <= j < |w.sessions| && Partners(w.sessions[i], w.sessions[j])
      && n < |w.sessions[j].progress.sent| && w.sessions[j].progress.sent[n] == w.sessions[i].progress.got[n];
    assert SameSession(w.sessions[i], w'.sessions[i]) && SameSession(w.sessions[j], w'.sessions[j]);
    assert Partners(w'.sessions[i], w'.sessions[j]);
    assert w'.sessions[j].progress.sent[n] == w.sessions[j].progress.sent[n];
  }

  lemma OfferStaysGood(w: World, w': World, o: Offer, finished: bool)
    requires GoodOffer(w, o) && w'.honest == w.honest && w.drawn <= w'.drawn
    ensures GoodOffer(w', o.(finished := finished))
  {
  }

  /** Offers carried over, finished or not, stay good and keep their secrets. */
  lemma OffersStayGood(w: World, w': World)
    requires Grows(w, w') && forall i :: 0 <= i < |w.offers| ==> GoodOffer(w, w.offers[i])
    ensures forall i :: 0 <= i < |w.offers| ==> GoodOffer(w', w'.offers[i]) && w'.offers[i].secret == w.offers[i].secret
  {
    forall i | 0 <= i < |w.offers|
      ensures GoodOffer(w', w'.offers[i]) && w'.offers[i].secret == w.offers[i].secret
    {
      OfferStaysGood(w, w', w.offers[i], w'.offers[i].finished);
    }
  }

  /** Whatever is carried over unchanged keeps its part of the invariant. */
  lemma CarriedOver(w: World, w': World)
    requires Inv(w) && Grows(w, w')
    requires forall i :: 0 <= i < |w.sessions| ==> w'.sessions[i] == w.sessions[i]
    ensures forall i :: 0 <= i < |w.sessions| ==> GoodSession(w', w'.sessions[i])
    ensures forall i, n ::
              0 <= i < |w.sessions| && Protected(w', w'.sessions[i]) && 0 <= n < |w'.sessions[i].progress.got| ==>
                SentByPartner(w', i, n)
  {
    forall i | 0 <= i < |w.sessions|
      ensures GoodSession(w', w'.sessions[i])
    {
      SessionStaysGood(w, w', w.sessions[i], w.sessions[i].progress);
    }
    forall i, n | 0 <= i < |w.sessions| && Protected(w', w'.sessions[i]) && 0 <= n < |w'.sessions[i].progress.got|
      ensures SentByPartner(w', i, n)
    {
      assert Protected(w, w.sessions[i]);
      DeliveryGrows(w, w', i, n);
    }
  }

  /** What tells a fresh session from every older one. */
  ghost predicate FreshSession(w: World, s: Session) {
    && s.progress.got == []
    && (s.role.Acceptor? ==> s.grant.secret == Drawn(w.drawn))
    && (s.role.Offerer? ==> s.role.offer < |w.offers| && !w.offers[s.role.offer].finished)
  }

  lemma FreshSessionIsDistinct(w: World, s: Session)
    requires Inv(w) && FreshSession(w, s)
    ensures forall i :: 0 <= i < |w.sessions| ==> (s.role.Acceptor? ==> w.sessions[i].grant.secret != s.grant.secret)
    ensures forall i :: 0 <= i < |w.sessions| ==> (s.role.Offerer? ==> w.sessions[i].role != s.role)
    ensures forall i :: 0 <= i < |w.offers| ==> (s.role.Acceptor? ==> w.offers[i].secret != s.grant.secret)
  {
    forall i | 0 <= i < |w.sessions|
      ensures s.role.Acceptor? ==> w.sessions[i].grant.secret != s.grant.secret
      ensures s.role.Offerer? ==> w.sessions[i].role != s.role
    {
      assert GoodSession(w, w.sessions[i]);
    }
    forall i | 0 <= i < |w.offers|
      ensures s.role.Acceptor? ==> w.offers[i].secret != s.grant.secret
    {
      assert GoodOffer(w, w.offers[i]);
    }
  }

  lemma AddedStaysDistinct(w: World, w': World, s: Session)
    requires Inv(w) && FreshSession(w, s) && w'.sessions == w.sessions + [s] && |w'.offers| == |w.offers|
    requires forall i :: 0 <= i < |w.offers| ==> w'.offers[i].secret == w.offers[i].secret
    ensures SecretsDistinct(w') && OffersFinishOnce(w')
  {
    FreshSessionIsDistinct(w, s);
  }

  /** Adding one fresh session keeps the invariant if that session is good. */
  lemma AddedSession(w: World, w': World, s: Session)
    requires Inv(w) && Grows(w, w') && w'.sessions == w.sessions + [s] && |w'.offers| == |w.offers|
    requires GoodSession(w', s) && FreshSession(w, s)
    ensures Inv(w')
  {
    CarriedOver(w, w');
    OffersStayGood(w, w');
    AddedStaysDistinct(w, w', s);
  }

  /** Steps that touch neither the sessions nor what an offer says. */
  lemma SameSessions(w: World, w': World)
    requires Inv(w) && Grows(w, w') && w'.sessions == w.sessions && |w'.offers| == |w.offers|
    ensures Inv(w')
  {
    CarriedOver(w, w');
    OffersStayGood(w, w');
  }

  lemma AddedOffer(w: World, w': World, o: Offer)
    requires Inv(w) && Grows(w, w') && w'.sessions == w.sessions && w'.offers == w.offers + [o]
    requires GoodOffer(w', o) && o.secret == Drawn(w.drawn)
    ensures Inv(w')
  {
    CarriedOver(w, w');
    OffersStayGood(w, w');
    forall i | 0 <= i < |w.offers|
      ensures w.offers[i].secret != Drawn(w.drawn)
    {
      assert GoodOffer(w, w.offers[i]);
    }
    forall i | 0 <= i < |w.sessions|
      ensures w.sessions[i].grant.secret != Drawn(w.drawn)
    {
      assert GoodSession(w, w.sessions[i]);
    }
  }

  /** The secrets and roles of sessions and offers do not depend on progress. */
  lemma DistinctnessCarries(w: World, w': World)
    requires SecretsDistinct(w) && OffersFinishOnce(w) && w'.offers == w.offers && |w'.sessions| == |w.sessions|
    requires forall k :: 0 <= k < |w.sessions| ==> SameSession(w.sessions[k], w'.sessions[k])
    ensures SecretsDistinct(w') && OffersFinishOnce(w')
  {
    forall k | 0 <= k < |w'.sessions|
      ensures w'.sessions[k].grant == w.sessions[k].grant && w'.sessions[k].role == w.sessions[k].role
    {
      assert SameSession(w.sessions[k], w'.sessions[k]);
    }
  }

  /** Changing only the progress of session i: everything but new deliveries carries over. */
  lemma ProgressFrame(w: World, i: nat, p: Progress)
    requires Inv(w) && i < |w.sessions|
    requires w.sessions[i].progress.sent <= p.sent && w.sessions[i].progress.got <= p.got
    requires p.tx == |p.sent| <= 1024 && p.rx == |p.got| <= 1024
    ensures var w' := WithProgress(w, i, p);
            && Grows(w, w') && SecretsDistinct(w') && OffersFinishOnce(w')
            && (forall k :: 0 <= k < |w'.offers| ==> GoodOffer(w', w'.offers[k]))
            && (forall k :: 0 <= k < |w'.sessions| ==> GoodSession(w', w'.sessions[k]))
  {
    var w' := WithProgress(w, i, p);
    assert Grows(w, w');
    DistinctnessCarries(w, w');
    forall k | 0 <= k < |w'.sessions|
      ensures GoodSession(w', w'.sessions[k])
    {
      assert GoodSession(w, w.sessions[k]);
      SessionStaysGood(w, w', w.sessions[k], w'.sessions[k].progress);
    }
    OffersStayGood(w, w');
  }

  /** `source` is the partner that sent the one new plaintext, if there is one to account for. */
  lemma ProgressOnly(w: World, i: nat, p: Progress, source: nat)
    requires Inv(w) && i < |w.sessions|
    requires w.sessions[i].progress.sent <= p.sent && w.sessions[i].progress.got <= p.got
    requires p.tx == |p.sent| <= 1024 && p.rx == |p.got| <= 1024
    requires Protected(w, w.sessions[i]) && p.got != w.sessions[i].progress.got ==>
               && |p.got| == |w.sessions[i].progress.got| + 1
               && source < |w.sessions| && source != i && Partners(w.sessions[i], w.sessions[source])
               && p.rx - 1 < |w.sessions[source].progress.sent|
                  && w.sessions[source].progress.sent[p.rx - 1] == p.got[p.rx - 1]
    ensures Grows(w, WithProgress(w, i, p)) && Inv(WithProgress(w, i, p))
  {
    var w' := WithProgress(w, i, p);
    ProgressFrame(w, i, p);
    forall k, n | 0 <= k < |w'.sessions| && Protected(w', w'.sessions[k]) && 0 <= n < |w'.sessions[k].progress.got|
      ensures SentByPartner(w', k, n)
    {
      assert Protected(w, w.sessions[k]);
      if k == i && n >= |w.sessions[i].progress.got| {
        assert w'.sessions[source] == w.sessions[source] && Partners(w'.sessions[i], w'.sessions[source]);
      } else {
        assert SentByPartner(w, k, n);
        DeliveryGrows(w, w', k, n);
      }
    }
  }

  // ---------------------------------------------------------------- each event

  lemma IssuedKinds(w: World, e: Envelope)
    requires Inv(w)
    ensures IssuedOffer(w, e) ==> e.body.OfferBody?
    ensures IssuedAccept(w, e) ==> e.body.AcceptBody?
  {
    if IssuedOffer(w, e) {
      var i :| 0 <= i < |w.offers| && w.offers[i].envelope == e;
      assert GoodOffer(w, w.offers[i]);
    }
    if IssuedAccept(w, e) {
      var i :| 0 <= i < |w.sessions| && w.sessions[i].role.Acceptor? && w.sessions[i].grant.accept == e;
      assert GoodSession(w, w.sessions[i]);
    }
  }

  lemma OfferKeepsInv(w: World, e: Event)
    requires Inv(w) && e.OfferSession?
    ensures Grows(w, Step(w, e)) && Inv(Step(w, e))
  {
    var w' := Step(w, e);
    if |w'.offers| > |w.offers| {
      AddedOffer(w, w', w'.offers[|w.offers|]);
    }
  }

  /** An accepted offer of an honest peer was issued by it. */
  lemma AcceptedOfferWasIssued(w: World, w': World, e: Event)
    requires Inv(w) && Grows(w, w') && e.AcceptSession? && Possible(w, e)
    requires e.offer.body.OfferBody? && e.offer.signature.Signed? && e.offer.signature.key in w.honest
             && e.offer.signature.body == e.offer.body
    ensures IssuedOffer(w', e.offer)
  {
    IssuedKinds(w, e.offer);
    IssuedGrows(w, w', e.offer);
  }

  lemma AcceptKeepsInv(w: World, e: Event)
    requires Inv(w) && e.AcceptSession? && Possible(w, e)
    ensures Grows(w, Step(w, e)) && Inv(Step(w, e))
  {
    var w' := Step(w, e);
    if |w'.sessions| == |w.sessions| {
      SameSessions(w, w');
    } else {
      var s := w'.sessions[|w.sessions|];
      assert Grows(w, w') && w'.sessions == w.sessions + [s];
      assert s.grant.offer == e.offer;
      if s.grant.peer.key in w.honest { AcceptedOfferWasIssued(w, w', e); }
      AddedSession(w, w', s);
    }
  }

  /** A finished accept of an honest peer was issued by it. */
  lemma FinishedAcceptWasIssued(w: World, w': World, e: Event)
    requires Inv(w) && Grows(w, w') && e.FinishOffer? && Possible(w, e)
    requires e.accept.body.AcceptBody? && e.accept.signature.Signed? && e.accept.signature.key in w.honest
             && e.accept.signature.body == e.accept.body
    ensures IssuedAccept(w', e.accept)
  {
    IssuedKinds(w, e.accept);
    IssuedGrows(w, w', e.accept);
  }

  lemma FinishKeepsInv(w: World, e: Event)
    requires Inv(w) && e.FinishOffer? && Possible(w, e)
    ensures Grows(w, Step(w, e)) && Inv(Step(w, e))
  {
    var w' := Step(w, e);
    if |w'.sessions| > |w.sessions| {
      var s := w'.sessions[|w.sessions|];
      assert GoodOffer(w, w.offers[e.index]);
      assert Grows(w, w') && w'.sessions == w.sessions + [s];
      if s.grant.peer.key in w.honest { FinishedAcceptWasIssued(w, w', e); }
      AddedSession(w, w', s);
    }
  }

  lemma CancelOrRevokeKeepsInv(w: World, e: Event)
    requires Inv(w) && (e.CancelOffer? || e.RevokePeer?)
    ensures Grows(w, Step(w, e)) && Inv(Step(w, e))
  {
    SameSessions(w, Step(w, e));
  }

  lemma SealKeepsInv(w: World, e: Event)
    requires Inv(w) && (e.SealFrame? || e.CloseSession?)
    ensures Grows(w, Step(w, e)) && Inv(Step(w, e))
  {
    var w' := Step(w, e);
    if e.session < |w.sessions| && w' != w {
      assert GoodSession(w, w.sessions[e.session]);
      ProgressOnly(w, e.session, w'.sessions[e.session].progress, 0);
      assert w' == WithProgress(w, e.session, w'.sessions[e.session].progress);
    }
  }

  /** Secrecy of the keys behind a protected session: both scalars were drawn by honest ports. */
  lemma KeysBelongToHonestPorts(w: World, i: nat)
    requires Inv(w) && i < |w.sessions| && w.sessions[i].grant.peer.key in w.honest
    ensures forall s :: s in ReceiveKey(w.sessions[i].grant).shared ==> !HostileSecret(s)
  {
    var g := w.sessions[i].grant;
    assert GoodSession(w, w.sessions[i]);
    if w.sessions[i].role.Offerer? {
      var k :| 0 <= k < |w.sessions| && w.sessions[k].role.Acceptor? && w.sessions[k].grant.accept == g.accept;
      assert GoodSession(w, w.sessions[k]);
    } else {
      var k :| 0 <= k < |w.offers| && w.offers[k].envelope == g.offer;
      assert GoodOffer(w, w.offers[k]);
    }
  }

  /** Whoever seals under our receive key is our partner. */
  lemma SealerIsPartner(w: World, i: nat, j: nat)
    requires Inv(w) && i < |w.sessions| && j < |w.sessions|
    requires w.sessions[i].grant.local != w.sessions[i].grant.peer
    requires SendKey(w.sessions[j].grant) == ReceiveKey(w.sessions[i].grant)
    ensures j != i && Partners(w.sessions[i], w.sessions[j])
  {
    assert GoodSession(w, w.sessions[i]) && GoodSession(w, w.sessions[j]);
  }

  /** What a protected endpoint authenticates next is its partner's next plaintext. */
  lemma AuthenticMeansSentByPartner(w: World, i: nat, box: Box) returns (j: nat)
    requires Inv(w) && i < |w.sessions| && Protected(w, w.sessions[i]) && w.sessions[i].progress.rx < 1024
    requires WellFormedGrant(w.sessions[i].grant) && Authentic(w.sessions[i].grant, w.sessions[i].progress.rx, box)
             && CanDeliver(w, box)
    ensures j < |w.sessions| && j != i && Partners(w.sessions[i], w.sessions[j])
    ensures w.sessions[i].progress.rx < |w.sessions[j].progress.sent|
    ensures w.sessions[j].progress.sent[w.sessions[i].progress.rx] == box.plain
  {
    KeysBelongToHonestPorts(w, i);
    assert WasSealed(w, box);
    var k, n :| 0 <= k < |w.sessions| && 0 <= n < |w.sessions[k].progress.sent| && WellFormedGrant(w.sessions[k].grant)
      && box == SentBox(w.sessions[k].grant, n, w.sessions[k].progress.sent[n]);
    j := k;
    SealerIsPartner(w, i, j);
    assert GoodSession(w, w.sessions[j]);
    NonceInjective(n, w.sessions[i].progress.rx);
  }

  lemma OpenKeepsInv(w: World, e: Event)
    requires Inv(w) && e.OpenFrame? && Possible(w, e)
    ensures Grows(w, Step(w, e)) && Inv(Step(w, e))
  {
    var w' := Step(w, e);
    if SessionUsable(w, e.session) {
      var i, box := e.session, e.frame.box;
      var s := w.sessions[i];
      assert GoodSession(w, s);
      var p := w'.sessions[i].progress;
      var source := 0;
      if p.got != s.progress.got && Protected(w, s) {
        source := AuthenticMeansSentByPartner(w, i, box);
      }
      ProgressOnly(w, i, p, source);
      assert w' == WithProgress(w, i, p);
    }
  }

  lemma StepKeepsInv(w: World, e: Event)
    requires Inv(w) && Possible(w, e)
    ensures Grows(w, Step(w, e)) && Inv(Step(w, e))
  {
    match e
    case OfferSession(_, _, _, _, _, _, _) => OfferKeepsInv(w, e);
    case AcceptSession(_, _, _, _, _, _) => AcceptKeepsInv(w, e);
    case FinishOffer(_, _, _) => FinishKeepsInv(w, e);
    case CancelOffer(_) => CancelOrRevokeKeepsInv(w, e);
    case RevokePeer(_, _) => CancelOrRevokeKeepsInv(w, e);
    case SealFrame(_, _, _) => SealKeepsInv(w, e);
    case CloseSession(_) => SealKeepsInv(w, e);
    case OpenFrame(_, _, _) => OpenKeepsInv(w, e);
  }

  lemma InitialHolds(w: World)
    requires Initial(w)
    ensures Inv(w)
  {
  }

  lemma {:induction false} RunKeepsInv(w: World, events: seq<Event>)
    requires Initial(w) && PossibleRun(w, events)
    ensures Inv(Run(w, events))
    decreases |events|
  {
    if events != [] {
      var n := |events| - 1;
      assert forall m :: 0 <= m < n ==> events[..n][..m] == events[..m];
      RunKeepsInv(w, events[..n]);
      StepKeepsInv(Run(w, events[..n]), events[n]);
    } else {
      InitialHolds(w);
    }
  }

  // ---------------------------------------------------------------- main results

  lemma PartnerIsUnique(w: World, i: nat, j: nat, k: nat)
    requires Inv(w) && i < |w.sessions| && j < |w.sessions| && k < |w.sessions|
    requires Partners(w.sessions[i], w.sessions[j]) && Partners(w.sessions[i], w.sessions[k])
    ensures j == k
  {
    assert GoodSession(w, w.sessions[j]) && GoodSession(w, w.sessions[k]);
    if w.sessions[j].role.Offerer? {
      assert w.sessions[k].role == w.sessions[j].role;
    } else {
      assert w.sessions[j].grant.secret == w.sessions[k].grant.secret;
    }
  }

  /** In every run, over any such network, whatever one protected endpoint has returned is a prefix
      of what its partner was given to seal. */
  lemma ReceivedIsPrefixOfSent(w0: World, events: seq<Event>, i: nat, j: nat)
    requires Initial(w0) && PossibleRun(w0, events)
    requires var w := Run(w0, events);
             i < |w.sessions| && j < |w.sessions| && Protected(w, w.sessions[i])
               && Partners(w.sessions[i], w.sessions[j])
    ensures var w := Run(w0, events);
            && w.sessions[i].progress.got <= w.sessions[j].progress.sent
            && w.sessions[j].progress.got <= w.sessions[i].progress.sent
  {
    RunKeepsInv(w0, events);
    var w := Run(w0, events);
    assert GoodSession(w, w.sessions[i]) && GoodSession(w, w.sessions[j]);
    OneDirection(w, i, j);
    OneDirection(w, j, i);
  }

  lemma OneDirection(w: World, i: nat, j: nat)
    requires Inv(w) && i < |w.sessions| && j < |w.sessions| && Protected(w, w.sessions[i])
             && Partners(w.sessions[i], w.sessions[j])
    ensures w.sessions[i].progress.got <= w.sessions[j].progress.sent
  {
    var got, sent := w.sessions[i].progress.got, w.sessions[j].progress.sent;
    forall n | 0 <= n < |got|
      ensures n < |sent| && sent[n] == got[n]
    {
      assert SentByPartner(w, i, n);
      var k :| 0 <= k < |w.sessions| && Partners(w.sessions[i], w.sessions[k])
        && n < |w.sessions[k].progress.sent| && w.sessions[k].progress.sent[n] == got[n];
      PartnerIsUnique(w, i, j, k);
    }
    if got != [] {
      var last := got[|got| - 1];
      assert |got| - 1 < |sent|;
    }
  }

  /** A protected endpoint that returned anything has a partner to have returned it from. */
  lemma NothingFromNobody(w0: World, events: seq<Event>, i: nat)
    requires Initial(w0) && PossibleRun(w0, events)
    requires var w := Run(w0, events);
             i < |w.sessions| && Protected(w, w.sessions[i]) && w.sessions[i].progress.got != []
    ensures var w := Run(w0, events);
            exists j :: 0 <= j < |w.sessions| && Partners(w.sessions[i], w.sessions[j])
  {
    RunKeepsInv(w0, events);
    assert SentByPartner(Run(w0, events), i, 0);
  }

  /** If `finish` succeeded with an honest peer, that peer accepted exactly this offer: one session
      at the peer has the same id, scope, adapter and expiry, its keys mirror ours, and the two
      direction keys coincide only when both ports are one and the same. */
  lemma FinishMeansAgreement(w0: World, events: seq<Event>, i: nat)
    requires Initial(w0) && PossibleRun(w0, events)
    requires var w := Run(w0, events);
             i < |w.sessions| && w.sessions[i].role.Offerer? && w.sessions[i].grant.peer.key in w.honest
    ensures var w := Run(w0, events);
            var a := w.sessions[i].grant;
            exists j :: 0 <= j < |w.sessions| && w.sessions[j].role.Acceptor?
              && Agreement(a, w.sessions[j].grant)
    ensures var a := Run(w0, events).sessions[i].grant;
            SendKey(a) != ReceiveKey(a) <==> a.local != a.peer
  {
    RunKeepsInv(w0, events);
    var w := Run(w0, events);
    var g := w.sessions[i].grant;
    assert GoodSession(w, w.sessions[i]);
    var j :| 0 <= j < |w.sessions| && w.sessions[j].role.Acceptor? && w.sessions[j].grant.accept == g.accept;
    assert GoodSession(w, w.sessions[j]);
    var b := w.sessions[j].grant;
    assert Sha256(b.offer) == Sha256(g.offer);
    assert b.secret == g.peerKey.secret && b.peerKey.secret == g.secret;
    assert {g.secret, g.peerKey.secret} == {b.secret, b.peerKey.secret};
    assert Agreement(g, b);
  }

  ghost predicate Agreement(a: Grant, b: Grant) {
    && a.offer == b.offer && a.accept == b.accept && a.local == b.peer && a.peer == b.local
    && WellFormedGrant(a) && a.accept.body.sessionId == a.offer.body.sessionId
    && a.accept.body.scope == a.offer.body.scope && a.accept.body.adapter == a.offer.body.adapter
    && a.accept.body.expiresAt == a.offer.body.expiresAt
    && SendKey(a) == ReceiveKey(b) && ReceiveKey(a) == SendKey(b)
  }

  /** No honest endpoint of a session between two different ports ever reuses a (key, nonce) pair,
      whoever the peer is. */
  lemma NoKeyNonceReuse(w0: World, events: seq<Event>, i: nat, n: nat, j: nat, m: nat)
    requires Initial(w0) && PossibleRun(w0, events)
    requires var w := Run(w0, events);
             && i < |w.sessions| && j < |w.sessions| && w.sessions[i].grant.local != w.sessions[i].grant.peer
             && n < |w.sessions[i].progress.sent| && m < |w.sessions[j].progress.sent|
             && SendKey(w.sessions[i].grant) == SendKey(w.sessions[j].grant) && Nonce(n) == Nonce(m)
    ensures i == j && n == m
  {
    RunKeepsInv(w0, events);
    var w := Run(w0, events);
    assert GoodSession(w, w.sessions[i]) && GoodSession(w, w.sessions[j]);
    NonceInjective(n, m);
    if w.sessions[i].role.Offerer? {
      assert w.sessions[j].role.Offerer?;
      assert w.offers[w.sessions[i].role.offer].secret == w.offers[w.sessions[j].role.offer].secret;
    } else {
      assert w.sessions[j].role.Acceptor?;
    }
  }

  lemma ClosedStep(w: World, e: Event, i: nat)
    requires i < |w.sessions| && w.sessions[i].progress.closed
    ensures i < |Step(w, e).sessions| && Step(w, e).sessions[i] == w.sessions[i]
  {
  }

  /** One failed authentication (or a close) ends an endpoint for good. */
  lemma {:induction false} ClosedStaysClosed(w: World, events: seq<Event>, i: nat)
    requires i < |w.sessions| && w.sessions[i].progress.closed
    ensures i < |Run(w, events).sessions| && Run(w, events).sessions[i] == w.sessions[i]
    decreases |events|
  {
    if events != [] {
      ClosedStaysClosed(w, events[..|events| - 1], i);
      ClosedStep(Run(w, events[..|events| - 1]), events[|events| - 1], i);
    }
  }

  lemma {:induction false} RunConcat(w: World, a: seq<Event>, b: seq<Event>)
    ensures Run(w, a + b) == Run(Run(w, a), b)
    decreases |b|
  {
    if b == [] {
      assert a + b == a;
    } else {
      assert (a + b)[..|a + b| - 1] == a + b[..|b| - 1];
      RunConcat(w, a, b[..|b| - 1]);
    }
  }

  /** After a frame that fails authentication the endpoint never changes again, and it refuses to
      seal or open anything whatever follows. */
  lemma OneFailureEndsTheEndpoint(w: World, i: nat, frame: Frame, now: int, more: seq<Event>, policy: Policy,
      bytes: Bytes, next: Frame, later: int)
    requires SessionUsable(w, i)
    requires OpenStep(w.sessions[i].grant, w.sessions[i].progress, w.policies[w.sessions[i].policy], frame, now).1
             == AuthenticationFailed
    ensures var after := Run(w, [OpenFrame(i, frame, now)] + more);
            && i < |after.sessions| && after.sessions[i]
               == w.sessions[i].(progress := w.sessions[i].progress.(closed := true))
            && SealStep(after.sessions[i].grant, after.sessions[i].progress, policy, bytes, later).1 == None
            && OpenStep(after.sessions[i].grant, after.sessions[i].progress, policy, next, later).1 == Refused
  {
    var first := [OpenFrame(i, frame, now)];
    RunConcat(w, first, more);
    assert first[..0] == [] && Run(w, []) == w;
    assert Run(w, first) == Step(w, first[0]);
    ClosedStaysClosed(Run(w, first), more, i);
  }

  /** The in-order frame of an active partner is opened to exactly the sealed bytes. */
  lemma InOrderFrameOpens(w0: World, events: seq<Event>, i: nat, j: nat, bytes: Bytes, now: int)
    requires Initial(w0) && PossibleRun(w0, events)
    requires var w := Run(w0, events);
             && i < |w.sessions| && j < |w.sessions| && w.sessions[i].policy < |w.policies|
                && w.sessions[j].policy < |w.policies|
             && w.sessions[i].grant.peer.key in w.honest && Partners(w.sessions[i], w.sessions[j])
             && WellFormedGrant(w.sessions[i].grant) && WellFormedGrant(w.sessions[j].grant)
             && w.sessions[j].progress.rx == w.sessions[i].progress.tx
             && Active(w.sessions[j].grant, w.sessions[j].progress, w.policies[w.sessions[j].policy], now)
             && SealStep(w.sessions[i].grant, w.sessions[i].progress, w.policies[w.sessions[i].policy], bytes,
                now).1.Some?
    ensures var w := Run(w0, events);
            var frame := SealStep(w.sessions[i].grant, w.sessions[i].progress, w.policies[w.sessions[i].policy], bytes,
              now).1.value;
            OpenStep(w.sessions[j].grant, w.sessions[j].progress, w.policies[w.sessions[j].policy], frame, now).1
              == Opened(bytes)
  {
    RunKeepsInv(w0, events);
    var w := Run(w0, events);
    var a, b := w.sessions[i].grant, w.sessions[j].grant;
    assert GoodSession(w, w.sessions[i]) && GoodSession(w, w.sessions[j]);
    assert {a.secret, a.peerKey.secret} == {b.secret, b.peerKey.secret};
    assert SendKey(a) == ReceiveKey(b);
    Base64Monotone(|bytes|, a.offer.body.scope.maxBytes);
  }

  lemma Base64Monotone(a: nat, b: nat)
    requires a <= b
    ensures Base64Length(a) <= Base64Length(b)
  {
  }

  // ---------------------------------------------------------------- why the ports must differ

  /** A port that its own policy authorizes can hold a session with itself. */
  ghost predicate SelfAuthorized(w: World, who: SigningKey, record: PeerRecord, scope: Scope, adapter: Adapter,
      sessionId: string, now: int) {
    && Initial(w) && who in w.honest && |w.policies| > 0 && w.policies[0].used == map[] && w.policies[0].capacity > 0
    && record.body.publicKey == who && MayOffer(w.policies[0], record, scope, adapter, now)
    && HexText(sessionId, 32) && SafeInteger(now) && SafeInteger(now + 30_000)
  }

  ghost function SelfOffer(who: SigningKey, scope: Scope, adapter: Adapter, sessionId: string, now: int): Envelope {
    MakeOffer(who, PortOf(who), scope, adapter, sessionId, Drawn(0), now)
  }

  ghost function SelfAccept(who: SigningKey, scope: Scope, adapter: Adapter, sessionId: string, now: int): Envelope {
    MakeAccept(who, SelfOffer(who, scope, adapter, sessionId, now), Drawn(1), now)
  }

  ghost function SelfGrant(who: SigningKey, scope: Scope, adapter: Adapter, sessionId: string, now: int, own: nat,
      other: nat): Grant {
    Grant(PortOf(who), PortOf(who), SelfOffer(who, scope, adapter, sessionId, now),
      SelfAccept(who, scope, adapter, sessionId, now),
          Drawn(own), X25519(Drawn(other)))
  }

  ghost function SelfSessionRun(who: SigningKey, record: PeerRecord, scope: Scope, adapter: Adapter, sessionId: string,
      now: int, a: Bytes, b: Bytes): seq<Event> {
    [OfferSession(who, record, scope, adapter, 0, sessionId, now),
     AcceptSession(who, SelfOffer(who, scope, adapter, sessionId, now), record, 0, adapter, now),
     FinishOffer(0, SelfAccept(who, scope, adapter, sessionId, now), now), SealFrame(0, a, now), SealFrame(1, b, now)]
  }

  lemma RunUnfolds(w: World, events: seq<Event>, n: nat)
    requires n < |events|
    ensures Run(w, events[..n + 1]) == Step(Run(w, events[..n]), events[n])
  {
    assert events[..n + 1][..n] == events[..n];
  }

  lemma RunOfFive(w: World, events: seq<Event>, w1: World, w2: World, w3: World)
    requires |events| == 5 && w1 == Step(w, events[0]) && w2 == Step(w1, events[1]) && w3 == Step(w2, events[2])
    ensures Run(w, events[..1]) == w1 && Run(w, events[..2]) == w2 && Run(w, events[..3]) == w3
    ensures Run(w, events) == Step(Step(w3, events[3]), events[4])
  {
    RunUnfolds(w, events, 0); RunUnfolds(w, events, 1); RunUnfolds(w, events, 2); RunUnfolds(w, events,
      3); RunUnfolds(w, events, 4);
    assert events[..0] == [] && events[..5] == events;
    assert Run(w, events[..0]) == w;
  }

  /** The first two events: the port offers to itself and accepts. */
  lemma SelfAccepts(w: World, who: SigningKey, record: PeerRecord, scope: Scope, adapter: Adapter, sessionId: string,
      now: int, w1: World, w2: World)
    requires SelfAuthorized(w, who, record, scope, adapter, sessionId, now)
    requires w1 == DoOffer(w, who, record, scope, adapter, 0, sessionId, now)
    requires w2 == DoAccept(w1, who, SelfOffer(who, scope, adapter, sessionId, now), record, 0, adapter, now)
    ensures IssuedOffer(w1, SelfOffer(who, scope, adapter, sessionId, now))
    ensures w2.offers == [Offer(who, who, SelfOffer(who, scope, adapter, sessionId, now), Drawn(0), scope, adapter, 0,
            false)]
    ensures w2.sessions == [Session(SelfGrant(who, scope, adapter, sessionId, now, 1, 0), Acceptor, 0, FRESH)]
    ensures IssuedAccept(w2, SelfAccept(who, scope, adapter, sessionId, now))
    ensures |w2.policies| > 0 && w2.policies[0].(used := map[]) == w.policies[0].(used := map[])
  {
    var offer := SelfOffer(who, scope, adapter, sessionId, now);
    assert w1.offers[0].envelope == offer;
    assert Unexpired(map[], now) == map[];
    assert MayAccept(who, w1.policies[0], offer, record, adapter, now);
    assert w2.sessions[0].grant.accept == SelfAccept(who, scope, adapter, sessionId, now);
  }

  /** The third event: the port finishes on its own accept. */
  lemma SelfFinishes(w2: World, who: SigningKey, scope: Scope, adapter: Adapter, sessionId: string, now: int)
    requires |w2.policies| > 0 && Authorized(w2.policies[0], PortOf(who), scope, adapter)
    requires HexText(sessionId, 32) && SafeInteger(now) && SafeInteger(now + 30_000)
    requires w2.offers == [Offer(who, who, SelfOffer(who, scope, adapter, sessionId, now), Drawn(0), scope, adapter, 0,
             false)]
    requires w2.sessions == [Session(SelfGrant(who, scope, adapter, sessionId, now, 1, 0), Acceptor, 0, FRESH)]
    ensures var w3 := DoFinish(w2, 0, SelfAccept(who, scope, adapter, sessionId, now), now);
            && w3.policies == w2.policies
            && w3.sessions == [Session(SelfGrant(who, scope, adapter, sessionId, now, 1, 0), Acceptor, 0, FRESH),
                               Session(SelfGrant(who, scope, adapter, sessionId, now, 0, 1), Offerer(0), 0, FRESH)]
  {
    assert MayFinish(who, who, w2.offers[0].envelope, scope, adapter, w2.policies[0],
           SelfAccept(who, scope, adapter, sessionId, now), now);
  }

  /** Two fresh active sessions each seal one plaintext. */
  lemma TwoSeals(w: World, g0: Grant, g1: Grant, role: Role, a: Bytes, b: Bytes, now: int)
    requires |w.policies| > 0 && w.sessions == [Session(g0, Acceptor, 0, FRESH), Session(g1, role, 0, FRESH)]
    requires WellFormedGrant(g0) && Active(g0, FRESH, w.policies[0], now) && |a| <= g0.offer.body.scope.maxBytes
    requires WellFormedGrant(g1) && Active(g1, FRESH, w.policies[0], now) && |b| <= g1.offer.body.scope.maxBytes
    ensures var end := Step(Step(w, SealFrame(0, a, now)), SealFrame(1, b, now));
            && |end.sessions| == 2 && end.sessions[0].grant == g0 && end.sessions[1].grant == g1
            && end.sessions[0].progress.sent == [a] && end.sessions[1].progress.sent == [b]
  {
    var s0 := SealStep(g0, FRESH, w.policies[0], a, now).0;
    var s1 := SealStep(g1, FRESH, w.policies[0], b, now).0;
    assert s0.sent == [a] && s1.sent == [b];
    var mid := Step(w, SealFrame(0, a, now));
    assert mid.sessions == [Session(g0, Acceptor, 0, s0), Session(g1, role, 0, FRESH)];
    assert Step(mid, SealFrame(1, b, now)).sessions == [Session(g0, Acceptor, 0, s0), Session(g1, role, 0, s1)];
  }

  lemma SelfRunIsPossible(w: World, who: SigningKey, record: PeerRecord, scope: Scope, adapter: Adapter,
      sessionId: string, now: int, a: Bytes, b: Bytes)
    requires SelfAuthorized(w, who, record, scope, adapter, sessionId, now)
    requires var events := SelfSessionRun(who, record, scope, adapter, sessionId, now, a, b);
             IssuedOffer(Run(w, events[..1]), events[1].offer) && IssuedAccept(Run(w, events[..2]), events[2].accept)
    ensures PossibleRun(w, SelfSessionRun(who, record, scope, adapter, sessionId, now, a, b))
  {
    var events := SelfSessionRun(who, record, scope, adapter, sessionId, now, a, b);
    assert CanPresent(Run(w, events[..1]), events[1].offer) && CanPresent(Run(w, events[..2]), events[2].accept);
    forall n | 0 <= n < |events|
      ensures Possible(Run(w, events[..n]), events[n])
    {
      assert n == 0 || n == 1 || n == 2 || n == 3 || n == 4;
    }
  }

  /** Both ends of a self-session seal their first frame under the same key and nonce: NoKeyNonceReuse
      fails on every such run. */
  lemma SelfSessionReusesKeyAndNonce(w: World, who: SigningKey, record: PeerRecord, scope: Scope, adapter: Adapter,
      sessionId: string, now: int, a: Bytes, b: Bytes)
    requires SelfAuthorized(w, who, record, scope, adapter, sessionId, now) && |a| <= scope.maxBytes
             && |b| <= scope.maxBytes
    ensures var events := SelfSessionRun(who, record, scope, adapter, sessionId, now, a, b);
            var end := Run(w, events);
            && PossibleRun(w, events) && |end.sessions| == 2
            && end.sessions[0].progress.sent == [a] && end.sessions[1].progress.sent == [b]
            && SendKey(end.sessions[0].grant) == SendKey(end.sessions[1].grant)
  {
    var events := SelfSessionRun(who, record, scope, adapter, sessionId, now, a, b);
    var w1 := DoOffer(w, who, record, scope, adapter, 0, sessionId, now);
    var w2 := DoAccept(w1, who, SelfOffer(who, scope, adapter, sessionId, now), record, 0, adapter, now);
    var w3 := DoFinish(w2, 0, SelfAccept(who, scope, adapter, sessionId, now), now);
    RunOfFive(w, events, w1, w2, w3);
    SelfAccepts(w, who, record, scope, adapter, sessionId, now, w1, w2);
    SelfFinishes(w2, who, scope, adapter, sessionId, now);
    var g0, g1 := SelfGrant(who, scope, adapter, sessionId, now, 1, 0),
      SelfGrant(who, scope, adapter, sessionId, now, 0, 1);
    TwoSeals(w3, g0, g1, Offerer(0), a, b, now);
    assert {g0.secret, g0.peerKey.secret} == {g1.secret, g1.peerKey.secret};
    SelfRunIsPossible(w, who, record, scope, adapter, sessionId, now, a, b);
  }
}
