/** The native peer session of native-session.mjs: signed controls, direction-bound keys,
    sequence-numbered sealed frames, and the fail-closed receive path. */
module NativeSession {
  import opened Identity
  import opened SessionPolicy
  import opened SignedDirectories

  // ---------------------------------------------------------------- symbolic terms

  /** X25519 private scalars: drawn by an honest port, or made up by the network. */
  datatype Secret = Drawn(n: nat) | Hostile(n: nat)
  datatype EphemeralKey = X25519(secret: Secret)

  /** Session controls. A body of any other schema, suite or field set is `Foreign`. */
  datatype Control =
    | OfferBody(sessionId: string, fromPort: PortId, toPort: PortId, issuedAt: int, expiresAt: int,
                ephemeral: EphemeralKey, scope: Scope, adapter: Adapter)
    | AcceptBody(sessionId: string, fromPort: PortId, toPort: PortId, issuedAt: int, expiresAt: int,
                 ephemeral: EphemeralKey, scope: Scope, adapter: Adapter, offerSha256: Digest)
    | Foreign

  datatype Digest = Sha256(of: Envelope)
  datatype ControlSignature = Signed(key: SigningKey, body: Control) | Unsigned
  datatype Envelope = Envelope(body: Control, signature: ControlSignature)

  predicate VerifyEnvelope(e: Envelope, expected: PortId, publicKey: SigningKey) {
    PortOf(publicKey) == expected && e.signature == Signed(publicKey, e.body)
  }

  /** `control`: schema (the constructor), lifetime, scope and adapter. */
  predicate ControlOk(body: Control, now: int) {
    && !body.Foreign?
    && HexText(body.sessionId, 32) && SafeInteger(body.issuedAt) && SafeInteger(body.expiresAt)
    && Live(Ticket(body.sessionId, body.issuedAt, body.expiresAt), now)
    && ValidScope(body.scope) && ValidAdapter(body.adapter)
  }

  /** HKDF over the Diffie-Hellman value, salted by the hash of both envelopes, labelled with the
      direction. The shared value depends only on the pair of private scalars. */
  datatype Key = Kdf(shared: set<Secret>, offer: Envelope, accept: Envelope, from: PortId, to: PortId)

  datatype Aad = FrameAad(sessionId: string, from: PortId, to: PortId, sequence: nat, stateSha256: string)

  /** An AES-GCM ciphertext with its tag, or bytes that are no such thing. */
  datatype Box = Sealed(key: Key, nonce: Bytes, aad: Aad, plain: Bytes) | Noise(size: nat)

  function BoxSize(b: Box): nat { if b.Sealed? then |b.plain| else b.size }

  /** A frame as it arrives: `schemaOk` stands for the exact field set and the schema tag, and
      `canonical` for "both base64 fields re-encode to themselves and the tag has 16 bytes". */
  datatype Frame = Frame(
    schemaOk: bool, sessionId: string, sequence: int, encodedLength: nat, canonical: bool, box: Box)

  function Base64Length(n: nat): nat { (n + 2) / 3 * 4 }

  /** Twelve bytes: four zeros, then the counter in eight, most significant first. */
  function Nonce(n: nat): (r: Bytes)
    ensures |r| == 12
  {
    [0, 0, 0, 0] + BigEndian(n, 8)
  }

  function BigEndian(n: nat, width: nat): (r: Bytes)
    ensures |r| == width
  {
    if width == 0 then [] else BigEndian(n / 256, width - 1) + [n % 256]
  }

  /** How many numbers fit in that many bytes. */
  function Range(width: nat): nat { if width == 0 then 1 else 256 * Range(width - 1) }

  lemma {:induction false} BigEndianInjective(a: nat, b: nat, width: nat)
    requires a < Range(width) && b < Range(width) && BigEndian(a, width) == BigEndian(b, width)
    ensures a == b
  {
    if width > 0 {
      var x, y := BigEndian(a, width), BigEndian(b, width);
      assert x[width - 1] == a % 256 && y[width - 1] == b % 256;
      assert x[..width - 1] == BigEndian(a / 256, width - 1) && y[..width - 1] == BigEndian(b / 256, width - 1);
      BigEndianInjective(a / 256, b / 256, width - 1);
    }
  }

  lemma SixtyFourBits()
    ensures Range(8) == 0x1_0000_0000_0000_0000
  {
    assert Range(2) == 0x1_0000;
    assert Range(4) == 0x1_0000_0000;
    assert Range(6) == 0x1_0000_0000_0000;
  }

  /** Over the whole 64-bit counter; any two frame numbers a session can reach are far below it. */
  lemma NonceInjective(a: nat, b: nat)
    requires a < 0x1_0000_0000_0000_0000 && b < 0x1_0000_0000_0000_0000 && Nonce(a) == Nonce(b)
    ensures a == b
  {
    SixtyFourBits();
    assert Nonce(a)[4..] == BigEndian(a, 8) && Nonce(b)[4..] == BigEndian(b, 8);
    BigEndianInjective(a, b, 8);
  }

  // ---------------------------------------------------------------- one connected endpoint

  /** What `connected` closes over. */
  datatype Grant = Grant(
    local: PortId, peer: PortId, offer: Envelope, accept: Envelope, secret: Secret, peerKey: EphemeralKey)

  predicate WellFormedGrant(g: Grant) { g.offer.body.OfferBody? && g.accept.body.AcceptBody? }

  function SendKey(g: Grant): Key { Kdf({g.secret, g.peerKey.secret}, g.offer, g.accept, g.local, g.peer) }
  function ReceiveKey(g: Grant): Key { Kdf({g.secret, g.peerKey.secret}, g.offer, g.accept, g.peer, g.local) }

  function AadOf(g: Grant, from: PortId, to: PortId, n: nat): Aad
    requires WellFormedGrant(g)
  {
    FrameAad(g.offer.body.sessionId, from, to, n, g.offer.body.scope.stateSha256)
  }

  /** The box this endpoint puts on the wire as its n-th frame. */
  function SentBox(g: Grant, n: nat, plain: Bytes): Box
    requires WellFormedGrant(g)
  {
    Sealed(SendKey(g), Nonce(n), AadOf(g, g.local, g.peer, n), plain)
  }

  /** Counters plus the two histories they count: plaintexts sealed and plaintexts returned. */
  datatype Progress = Progress(tx: nat, rx: nat, closed: bool, sent: seq<Bytes>, got: seq<Bytes>)

  const FRESH := Progress(0, 0, false, [], [])

  function Min(a: int, b: int): int { if a < b then a else b }

  predicate Active(g: Grant, s: Progress, p: Policy, now: int)
    requires WellFormedGrant(g)
  {
    && !s.closed && now < Min(g.offer.body.expiresAt, g.accept.body.expiresAt)
    && Authorized(p, g.peer, g.offer.body.scope, g.offer.body.adapter)
  }

  function SealStep(g: Grant, s: Progress, p: Policy, bytes: Bytes, now: int): (r: (Progress, Option<Frame>))
    requires WellFormedGrant(g)
  {
    if !Active(g, s, p, now) || |bytes| > g.offer.body.scope.maxBytes || s.tx >= 1024 then (s, None)
    else (s.(tx := s.tx + 1, sent := s.sent + [bytes]),
          Some(Frame(true, g.offer.body.sessionId, s.tx, Base64Length(|bytes|), true, SentBox(g, s.tx, bytes))))
  }

  /** The frame passes every check made before decryption. */
  predicate InBounds(g: Grant, s: Progress, p: Policy, f: Frame, now: int)
    requires WellFormedGrant(g)
  {
    && Active(g, s, p, now) && f.schemaOk && f.sessionId == g.offer.body.sessionId
    && f.sequence == s.rx && s.rx < 1024
    && f.encodedLength <= Base64Length(g.offer.body.scope.maxBytes)
    && f.canonical && BoxSize(f.box) <= g.offer.body.scope.maxBytes
  }

  /** The tag verifies under the receive key, the expected nonce and the expected header. */
  predicate Authentic(g: Grant, rx: nat, box: Box)
    requires WellFormedGrant(g)
  {
    box.Sealed? && box.key == ReceiveKey(g) && box.nonce == Nonce(rx) && box.aad == AadOf(g, g.peer, g.local, rx)
  }

  datatype Opening = Opened(plain: Bytes) | Refused | AuthenticationFailed

  function OpenStep(g: Grant, s: Progress, p: Policy, f: Frame, now: int): (r: (Progress, Opening))
    requires WellFormedGrant(g)
  {
    if !InBounds(g, s, p, f, now) then (s, Refused)
    else if !Authentic(g, s.rx, f.box) then (s.(closed := true), AuthenticationFailed)
    else (s.(rx := s.rx + 1, got := s.got + [f.box.plain]), Opened(f.box.plain))
  }

  /** The session object: three mutable variables and two ghost histories. */
  class NativeEndpoint {
    const grant: Grant
    const policy: NativeSessionPolicy
    var tx: nat
    var rx: nat
    var closed: bool
    ghost var sent: seq<Bytes>
    ghost var got: seq<Bytes>

    ghost function View(): Progress
      reads this
    {
      Progress(tx, rx, closed, sent, got)
    }

    constructor (grant: Grant, policy: NativeSessionPolicy)
      requires WellFormedGrant(grant)
      ensures this.grant == grant && this.policy == policy && View() == FRESH
    {
      this.grant, this.policy := grant, policy;
      tx, rx, closed, sent, got := 0, 0, false, [], [];
    }

    method IsActive(now: int) returns (ok: bool)
      requires WellFormedGrant(grant)
      ensures ok == Active(grant, View(), policy.View(), now)
    {
      if closed || now >= Min(grant.offer.body.expiresAt, grant.accept.body.expiresAt) { return false; }
      ok := policy.Authorize(grant.peer, grant.offer.body.scope, grant.offer.body.adapter);
    }

    method Seal(bytes: Bytes, now: int) returns (frame: Option<Frame>)
      requires WellFormedGrant(grant)
      modifies this
      ensures (View(), frame) == SealStep(grant, old(View()), old(policy.View()), bytes, now)
    {
      var ok := IsActive(now);
      if !ok || |bytes| > grant.offer.body.scope.maxBytes || tx >= 1024 { return None; }
      var aad := FrameAad(grant.offer.body.sessionId, grant.local, grant.peer, tx, grant.offer.body.scope.stateSha256);
      var box := Sealed(SendKey(grant), Nonce(tx), aad, bytes);
      frame := Some(Frame(true, grant.offer.body.sessionId, tx, Base64Length(|bytes|), true, box));
      tx := tx + 1;
      sent := sent + [bytes];
    }

    method Open(f: Frame, now: int) returns (r: Opening)
      requires WellFormedGrant(grant)
      modifies this
      ensures (View(), r) == OpenStep(grant, old(View()), old(policy.View()), f, now)
    {
      var ok := IsActive(now);
      if !ok || !f.schemaOk { return Refused; }
      var limit := grant.offer.body.scope.maxBytes;
      if f.sessionId != grant.offer.body.sessionId || f.sequence != rx || rx >= 1024
         || f.encodedLength > Base64Length(limit) { return Refused; }
      if BoxSize(f.box) > limit || !f.canonical { return Refused; }
      if f.box.Sealed? && f.box.key == ReceiveKey(grant) && f.box.nonce == Nonce(rx)
         && f.box.aad == AadOf(grant, grant.peer, grant.local, rx) {
        r := Opened(f.box.plain);
        rx := rx + 1;
        got := got + [f.box.plain];
      } else {
        closed := true;
        r := AuthenticationFailed;
      }
    }

    method Close()
      modifies this`closed
      ensures View() == old(View()).(closed := true)
    {
      closed := true;
    }
  }

  // ---------------------------------------------------------------- handshake decisions

  function MakeOffer(who: SigningKey, peer: PortId, scope: Scope, adapter: Adapter, sessionId: string, secret: Secret,
      now: int): Envelope {
    var body := OfferBody(sessionId, PortOf(who), peer, now, now + 30_000, X25519(secret), scope, adapter);
    Envelope(body, Signed(who, body))
  }

  predicate MayOffer(p: Policy, record: PeerRecord, scope: Scope, adapter: Adapter, now: int) {
    && Verified(PeerRules(), record, now) && "native.materialize.v1" in record.body.content.capabilities
    && Authorized(p, record.body.portId, scope, adapter)
  }

  /** All the checks of acceptNativeSession before the replay map is consulted. */
  predicate MayAccept(who: SigningKey, p: Policy, offer: Envelope, record: PeerRecord, adapter: Adapter, now: int) {
    && Verified(PeerRules(), record, now) && "native.materialize.v1" in record.body.content.capabilities
    && VerifyEnvelope(offer, record.body.portId, record.body.publicKey)
    && offer.body.OfferBody? && ControlOk(offer.body, now)
    && offer.body.fromPort == record.body.portId && offer.body.toPort == PortOf(who)
    && offer.body.adapter == adapter
    && Authorized(p, record.body.portId, offer.body.scope, adapter)
  }

  function MakeAccept(who: SigningKey, offer: Envelope, secret: Secret, now: int): Envelope
    requires offer.body.OfferBody?
  {
    var b := offer.body;
    var body := AcceptBody(b.sessionId, PortOf(who), b.fromPort, now, b.expiresAt, X25519(secret), b.scope, b.adapter,
      Sha256(offer));
    Envelope(body, Signed(who, body))
  }

  /** The checks of `finish` apart from the once-only flag. */
  predicate MayFinish(who: SigningKey, peerKey: SigningKey, offer: Envelope, scope: Scope, adapter: Adapter, p: Policy,
      accept: Envelope, at: int)
    requires offer.body.OfferBody?
  {
    && VerifyEnvelope(accept, PortOf(peerKey), peerKey)
    && accept.body.AcceptBody? && ControlOk(accept.body, at)
    && accept.body.fromPort == PortOf(peerKey) && accept.body.toPort == PortOf(who)
    && accept.body.sessionId == offer.body.sessionId && accept.body.offerSha256 == Sha256(offer)
    && accept.body.expiresAt == offer.body.expiresAt
    && accept.body.scope == scope && accept.body.adapter == adapter
    && Authorized(p, PortOf(peerKey), scope, adapter)
  }

  /** The object offerNativeSession returns: it can be finished at most once. */
  class NativeOffer {
    const who: SigningKey
    const peerKey: SigningKey
    const envelope: Envelope
    const secret: Secret
    const scope: Scope
    const adapter: Adapter
    const policy: NativeSessionPolicy
    var finished: bool

    constructor (who: SigningKey, peerKey: SigningKey, scope: Scope, adapter: Adapter, policy: NativeSessionPolicy,
        sessionId: string, secret: Secret, now: int)
      ensures envelope == MakeOffer(who, PortOf(peerKey), scope, adapter, sessionId, secret, now) && !finished
      ensures this.who == who && this.peerKey == peerKey && this.secret == secret && this.scope == scope
              && this.adapter == adapter && this.policy == policy
    {
      this.who, this.peerKey, this.scope, this.adapter, this.policy, this.secret := who, peerKey, scope, adapter,
        policy, secret;
      envelope := MakeOffer(who, PortOf(peerKey), scope, adapter, sessionId, secret, now);
      finished := false;
    }

    method Finish(accept: Envelope, at: int) returns (grant: Option<Grant>)
      requires envelope.body.OfferBody?
      modifies this`finished
      ensures grant.Some?
              == (!old(finished) && MayFinish(who, peerKey, envelope, scope, adapter, policy.View(), accept, at))
      ensures finished == (old(finished) || grant.Some?)
      ensures grant.Some? ==>
                grant.value == Grant(PortOf(who), PortOf(peerKey), envelope, accept, secret, accept.body.ephemeral)
    {
      if finished || !VerifyEnvelope(accept, PortOf(peerKey), peerKey) { return None; }
      var body := accept.body;
      if !body.AcceptBody? || !ControlOk(body, at) { return None; }
      if body.fromPort != PortOf(peerKey) || body.toPort != PortOf(who) || body.sessionId != envelope.body.sessionId
         || body.offerSha256 != Sha256(envelope) || body.expiresAt != envelope.body.expiresAt
         || body.scope != scope || body.adapter != adapter { return None; }
      var ok := policy.Authorize(PortOf(peerKey), scope, adapter);
      if !ok { return None; }
      finished := true;
      grant := Some(Grant(PortOf(who), PortOf(peerKey), envelope, accept, secret, body.ephemeral));
    }

    method Cancel()
      modifies this`finished
      ensures finished
    {
      finished := true;
    }
  }
}
