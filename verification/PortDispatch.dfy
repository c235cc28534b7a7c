/** PortZero.dispatch and ExternalPort.receive of ports.py, over the replay_nonces, idempotency and
    evidence tables of persistence.py. Signatures and digests are symbolic. */
module PortDispatch {
  import opened Identity

  const ORIGIN := "strata-data-port-zero"

  type Payload = map<string, string>

  datatype PayloadHash = HashOf(payload: Payload) | OtherHash(text: string)

  /** An envelope without its signatures. */
  datatype Content = Content(
    message: string, source: string, origin: string, destinations: seq<string>, payload: Payload,
    payloadHash: PayloadHash,
    expiresAt: int, nonce: string, key: string)

  /** The first signature, if any; Signed can only come from the shared signer. */
  datatype Signature = Unsigned | Signed(content: Content) | Forged

  datatype Envelope = Envelope(content: Content, signature: Signature)

  datatype ReceiptState = Accepted | Rejected | Delivered | Acknowledged | Escalated | FailedState | Retrying
    | Recovered | Expired | Quarantined

  datatype Evidence = EvidenceOf(message: string, port: string, state: ReceiptState, detail: string)
    | OtherEvidence(text: string)

  datatype Receipt = Receipt(message: string, port: string, state: ReceiptState, detail: string, evidence: Evidence)

  // ---------------------------------------------------------------- Port Zero

  /** What PortZero remembers: in its own fields, or durably in the store. */
  datatype Memory = Memory(outcomes: map<string, seq<Receipt>>, evidence: seq<Evidence>)

  datatype Zero = Zero(identities: set<string>, maxAttempts: int, durable: bool)

  /** What one transport call does: receipts, TransportUnavailable, or some other exception. */
  datatype Answer = Receipts(receipts: seq<Receipt>) | Unavailable | Crash

  datatype Outcome = Returned(receipts: seq<Receipt>) | PermissionError | TimeoutError | TransportUnavailable
    | TransportError | IntegrityError

  function EvidenceHashes(receipts: seq<Receipt>): (r: seq<Evidence>)
    ensures |r| == |receipts| && forall i :: 0 <= i < |r| ==> r[i] == receipts[i].evidence
  {
    seq(|receipts|, i requires 0 <= i < |receipts| => receipts[i].evidence)
  }

  predicate Distinct(s: seq<Evidence>) { forall i, j :: 0 <= i < j < |s| ==> s[i] != s[j] }

  /** record_outcome inserts under two unique columns and rolls back as a whole; the in-memory
      fields take anything. */
  function Record(zero: Zero, m: Memory, key: string, receipts: seq<Receipt>): Option<Memory> {
    var evidence := m.evidence + EvidenceHashes(receipts);
    if zero.durable && (key in m.outcomes || !Distinct(evidence)) then None
    else Some(Memory(m.outcomes[key := receipts], evidence))
  }

  /** The signed copy that every attempt sends. */
  function Sign(c: Content): Envelope {
    var signed := c.(payloadHash := HashOf(c.payload));
    Envelope(signed, Signed(signed))
  }

  predicate Authentic(zero: Zero, c: Content) { c.source in zero.identities && c.origin == ORIGIN }

  /** The number of transport calls and the answer of the last, from attempt k on. */
  function Attempts(zero: Zero, answers: nat -> Answer, k: nat): (r: (nat, Answer))
    ensures r.0 > 0 || r.1 == Unavailable
    decreases zero.maxAttempts - k
  {
    if k >= zero.maxAttempts then (0, Unavailable)
    else if answers(k) == Unavailable then
      var (calls, last) := Attempts(zero, answers, k + 1);
      (calls + 1, last)
    else (1, answers(k))
  }

  function Settle(zero: Zero, m: Memory, key: string, answer: Answer): (Memory, Outcome) {
    match answer
    case Unavailable => (m, TransportUnavailable)
    case Crash => (m, TransportError)
    case Receipts(receipts) =>
      match Record(zero, m, key, receipts)
      case None => (m, IntegrityError)
      case Some(next) => (next, Returned(receipts))
  }

  /** Why a dispatch ends before it reaches the transport, if it does. */
  function Begin(zero: Zero, m: Memory, c: Content, now: int): Option<Outcome> {
    if !Authentic(zero, c) then Some(PermissionError)
    else if c.expiresAt <= now then Some(TimeoutError)
    else if c.key in m.outcomes then Some(Returned(m.outcomes[c.key]))
    else None
  }

  /** dispatch: the memory after it, the outcome and the number of transport calls. */
  function Dispatch(zero: Zero, m: Memory, c: Content, now: int, answers: nat -> Answer): (Memory, Outcome, nat) {
    match Begin(zero, m, c, now)
    case Some(outcome) => (m, outcome, 0)
    case None =>
      var (calls, answer) := Attempts(zero, answers, 0);
      var (next, outcome) := Settle(zero, m, c.key, answer);
      (next, outcome, calls)
  }

  class PortZero {
    const zero: Zero
    var outcomes: map<string, seq<Receipt>>
    var evidence: seq<Evidence>

    function View(): Memory
      reads this
    {
      Memory(outcomes, evidence)
    }

    constructor (zero: Zero)
      ensures this.zero == zero && View() == Memory(map[], [])
    {
      this.zero := zero;
      outcomes, evidence := map[], [];
    }

    method DispatchEnvelope(c: Content, now: int, answers: nat -> Answer) returns (outcome: Outcome, calls: nat)
      modifies this
      ensures (View(), outcome, calls) == Dispatch(zero, old(View()), c, now, answers)
    {
      if c.source !in zero.identities { return PermissionError, 0; }
      if c.origin != ORIGIN { return PermissionError, 0; }
      if c.expiresAt <= now { return TimeoutError, 0; }
      if c.key in outcomes { return Returned(outcomes[c.key]), 0; }
      calls := 0;
      ghost var total := Attempts(zero, answers, 0);
      while calls < zero.maxAttempts
        invariant calls <= zero.maxAttempts || calls == 0
        invariant outcomes == old(outcomes) && evidence == old(evidence)
        invariant total == (Attempts(zero, answers, calls).0 + calls, Attempts(zero, answers, calls).1)
      {
        var answer := answers(calls);
        calls := calls + 1;
        if answer.Receipts? {
          var recorded := Record(zero, View(), c.key, answer.receipts);
          if recorded.None? { return IntegrityError, calls; }
          outcomes, evidence := recorded.value.outcomes, recorded.value.evidence;
          return Returned(answer.receipts), calls;
        }
        if answer.Crash? { return TransportError, calls; }
      }
      return TransportUnavailable, calls;
    }
  }

  // ---------------------------------------------------------------- external ports

  datatype Claim = Claim(port: string, nonce: string)

  /** One adapter execution. */
  datatype Effect = Effect(port: string, content: Content)

  /** What the adapter answers; None is an exception. */
  datatype AdapterResult = AdapterResult(state: ReceiptState, reference: string)

  datatype Ports = Ports(claims: set<Claim>, effects: seq<Effect>)

  function MakeReceipt(port: string, c: Content, state: ReceiptState, detail: string): Receipt {
    Receipt(c.message, port, state, detail, EvidenceOf(c.message, port, state, detail))
  }

  /** Why an envelope is turned away before its nonce is claimed. */
  function Turned(port: string, e: Envelope): Option<(ReceiptState, string)> {
    if e.content.origin != ORIGIN then Some((Rejected, "Port Zero authentication required"))
    else if port !in e.content.destinations then Some((Rejected, "destination policy rejected"))
    else if e.signature != Signed(e.content) then Some((Quarantined, "invalid signature"))
    else if e.content.payloadHash != HashOf(e.content.payload) then Some((Quarantined, "payload integrity failure"))
    else None
  }

  /** receive: None is the adapter's exception passing through. */
  function Receive(p: Ports, port: string, e: Envelope, adapter: Option<AdapterResult>): (Ports, Option<Receipt>) {
    match Turned(port, e)
    case Some((state, detail)) => (p, Some(MakeReceipt(port, e.content, state, detail)))
    case None =>
      var claim := Claim(port, e.content.nonce);
      if claim in p.claims then (p, Some(MakeReceipt(port, e.content, Quarantined, "replay detected")))
      else (Ports(p.claims + {claim}, p.effects + [Effect(port, e.content)]),
            match adapter
            case None => None
            case Some(result) => Some(MakeReceipt(port, e.content, result.state, result.reference)))
  }

  /** A port and the shared store of claimed nonces. */
  class ExternalPort {
    const port: string
    var claims: set<Claim>
    ghost var effects: seq<Effect>

    ghost function View(): Ports
      reads this
    {
      Ports(claims, effects)
    }

    constructor (port: string)
      ensures this.port == port && View() == Ports({}, [])
    {
      this.port := port;
      claims, effects := {}, [];
    }

    method ClaimNonce(nonce: string) returns (isNew: bool)
      modifies this`claims
      ensures isNew <==> Claim(port, nonce) !in old(claims)
      ensures claims == old(claims) + {Claim(port, nonce)}
    {
      isNew := Claim(port, nonce) !in claims;
      claims := claims + {Claim(port, nonce)};
    }

    method ReceiveEnvelope(e: Envelope, adapter: Option<AdapterResult>) returns (receipt: Option<Receipt>)
      modifies this
      ensures (View(), receipt) == Receive(old(View()), port, e, adapter)
    {
      var turned := Turned(port, e);
      if turned.Some? { return Some(MakeReceipt(port, e.content, turned.value.0, turned.value.1)); }
      var isNew := ClaimNonce(e.content.nonce);
      if !isNew {
        assert claims == old(claims);
        return Some(MakeReceipt(port, e.content, Quarantined, "replay detected"));
      }
      effects := effects + [Effect(port, e.content)];
      if adapter.None? { return None; }
      return Some(MakeReceipt(port, e.content, adapter.value.state, adapter.value.reference));
    }
  }

  // ---------------------------------------------------------------- runs

  /** The transport may hand any envelope to any port, any number of times. */
  datatype Delivery = Delivery(port: string, envelope: Envelope, adapter: Option<AdapterResult>)

  datatype World = World(memory: Memory, ports: Ports, signed: set<Content>)

  const START: World := World(Memory(map[], []), Ports({}, []), {})

  /** A dispatch with what the transport delivers while its calls are under way, or a delivery at
      any other time. */
  datatype Event = DispatchEvent(content: Content, now: int, answers: nat -> Answer, during: seq<Delivery>)
    | Redeliver(delivery: Delivery)

  function Deliver(p: Ports, deliveries: seq<Delivery>): Ports {
    if deliveries == [] then p
    else
      var last := deliveries[|deliveries| - 1];
      Receive(Deliver(p, deliveries[..|deliveries| - 1]), last.port, last.envelope, last.adapter).0
  }

  function SignedBy(zero: Zero, w: World, event: Event): set<Content> {
    if event.DispatchEvent? && Begin(zero, w.memory, event.content, event.now).None?
    then w.signed + {Sign(event.content).content} else w.signed
  }

  function Deliveries(zero: Zero, w: World, event: Event): seq<Delivery> {
    match event
    case Redeliver(d) => [d]
    case DispatchEvent(c, now, answers, during) =>
      if Dispatch(zero, w.memory, c, now, answers).2 > 0 then during else []
  }

  function Step(zero: Zero, w: World, event: Event): World {
    World(if event.DispatchEvent? then Dispatch(zero, w.memory, event.content, event.now, event.answers).0
      else w.memory,
          Deliver(w.ports, Deliveries(zero, w, event)), SignedBy(zero, w, event))
  }

  /** Nobody but Port Zero makes a signature that verifies. */
  predicate Possible(zero: Zero, w: World, event: Event) {
    var all := Deliveries(zero, w, event);
    forall i :: 0 <= i < |all| && all[i].envelope.signature.Signed? ==>
      all[i].envelope.signature.content in SignedBy(zero, w, event)
  }

  function Run(zero: Zero, events: seq<Event>): World {
    if events == [] then START else Step(zero, Run(zero, events[..|events| - 1]), events[|events| - 1])
  }

  predicate Lawful(zero: Zero, events: seq<Event>) {
    events == [] || (Lawful(zero, events[..|events| - 1])
      && Possible(zero, Run(zero, events[..|events| - 1]), events[|events| - 1]))
  }

  // ---------------------------------------------------------------- idempotent dispatch

  lemma {:induction false} AttemptsAreBounded(zero: Zero, answers: nat -> Answer, k: nat)
    ensures var (calls, last) := Attempts(zero, answers, k);
            && (k <= zero.maxAttempts ==> k + calls <= zero.maxAttempts) && (k > zero.maxAttempts ==> calls == 0)
            && (last != Unavailable ==> calls > 0 && answers(k + calls - 1) == last)
            && (last == Unavailable && k <= zero.maxAttempts ==> k + calls == zero.maxAttempts)
            && forall i: nat :: k <= i < k + calls && (last != Unavailable ==> i < k + calls - 1) ==>
               answers(i) == Unavailable
    decreases zero.maxAttempts - k
  {
    if k < zero.maxAttempts && answers(k) == Unavailable { AttemptsAreBounded(zero, answers, k + 1); }
  }

  /** A dispatch that gets as far as the transport calls it until something other than
      TransportUnavailable happens, at most max_attempts times, and returns the receipts of the call
      that ended it. */
  lemma CallsAreBounded(zero: Zero, m: Memory, c: Content, now: int, answers: nat -> Answer)
    ensures var (next, outcome, calls) := Dispatch(zero, m, c, now, answers);
            && (calls == 0 || calls <= zero.maxAttempts)
            && (forall i: nat :: i < calls - 1 ==> answers(i) == Unavailable)
            && (outcome.Returned? && calls > 0 ==> answers(calls - 1) == Receipts(outcome.receipts))
            && (outcome.TransportUnavailable? && zero.maxAttempts >= 0 ==> calls == zero.maxAttempts)
  {
    AttemptsAreBounded(zero, answers, 0);
  }

  /** An outcome is recorded by exactly the dispatches that are authentic, unexpired, new, get
      receipts within the allowed attempts and, in the durable mode, bring only new evidence hashes.
      Failing the last, the receipts are lost and the key stays open. */
  lemma RecordsExactlyWhen(zero: Zero, m: Memory, c: Content, now: int, answers: nat -> Answer)
    ensures var (next, outcome, calls) := Dispatch(zero, m, c, now, answers);
            next != m ==> c.key in next.outcomes && c.key !in m.outcomes
    ensures var (next, outcome, calls) := Dispatch(zero, m, c, now, answers);
            var answer := Attempts(zero, answers, 0).1;
            c.key !in m.outcomes ==>
              (c.key in next.outcomes <==>
                && c.source in zero.identities && c.origin == "strata-data-port-zero" && now < c.expiresAt
                && answer.Receipts? && (zero.durable ==> Distinct(m.evidence + EvidenceHashes(answer.receipts))))
  {
  }

  /** Recorded outcomes and evidence belong together. */
  predicate MemoryHolds(zero: Zero, m: Memory) {
    && (zero.durable ==> Distinct(m.evidence))
    && (forall key :: key in m.outcomes ==>
       forall i :: 0 <= i < |m.outcomes[key]| ==> m.outcomes[key][i].evidence in m.evidence)
    && (forall h :: h in m.evidence ==> exists key :: key in m.outcomes && h in EvidenceHashes(m.outcomes[key]))
  }

  lemma RecordKeeps(zero: Zero, m: Memory, key: string, receipts: seq<Receipt>)
    requires MemoryHolds(zero, m) && key !in m.outcomes && Record(zero, m, key, receipts).Some?
    ensures MemoryHolds(zero, Record(zero, m, key, receipts).value)
  {
    var next := Record(zero, m, key, receipts).value;
    forall h | h in next.evidence
      ensures exists k :: k in next.outcomes && h in EvidenceHashes(next.outcomes[k])
    {
      if h in m.evidence {
        var k :| k in m.outcomes && h in EvidenceHashes(m.outcomes[k]);
        assert next.outcomes[k] == m.outcomes[k];
      } else {
        assert h in EvidenceHashes(next.outcomes[key]);
      }
    }
    forall k, i | k in next.outcomes && 0 <= i < |next.outcomes[k]|
      ensures next.outcomes[k][i].evidence in next.evidence
    {
      if k == key { assert EvidenceHashes(receipts)[i] in EvidenceHashes(receipts); }
    }
  }

  lemma {:induction false} MemoryAlwaysHolds(zero: Zero, events: seq<Event>)
    ensures MemoryHolds(zero, Run(zero, events).memory)
  {
    if events != [] {
      var w, event := Run(zero, events[..|events| - 1]), events[|events| - 1];
      MemoryAlwaysHolds(zero, events[..|events| - 1]);
      if event.DispatchEvent? && Begin(zero, w.memory, event.content, event.now).None? {
        var answer := Attempts(zero, event.answers, 0).1;
        if answer.Receipts? && Record(zero, w.memory, event.content.key, answer.receipts).Some? {
          RecordKeeps(zero, w.memory, event.content.key, answer.receipts);
        }
      }
    }
  }

  lemma {:induction false} OutcomesStay(zero: Zero, events: seq<Event>, n: nat, key: string)
    requires n <= |events| && key in Run(zero, events[..n]).memory.outcomes
    ensures key in Run(zero, events).memory.outcomes
    ensures Run(zero, events).memory.outcomes[key] == Run(zero, events[..n]).memory.outcomes[key]
  {
    if n == |events| {
      assert events[..n] == events;
    } else {
      var front := events[..|events| - 1];
      assert front[..n] == events[..n];
      OutcomesStay(zero, front, n, key);
    }
  }

  /** In every run, once a key has a recorded outcome every later authentic, unexpired dispatch of it
      returns those receipts, with no transport call and no change to memory, whatever the rest of
      its envelope says. */
  lemma RecordedOutcomeIsFinal(zero: Zero, events: seq<Event>, n: nat, c: Content, now: int, answers: nat -> Answer)
    requires n <= |events| && c.key in Run(zero, events[..n]).memory.outcomes
    requires c.source in zero.identities && c.origin == "strata-data-port-zero" && now < c.expiresAt
    ensures Dispatch(zero, Run(zero, events).memory, c, now, answers)
            == (Run(zero, events).memory, Returned(Run(zero, events[..n]).memory.outcomes[c.key]), 0)
  {
    OutcomesStay(zero, events, n, c.key);
  }

  // ---------------------------------------------------------------- effects at most once

  predicate Legitimate(signed: set<Content>, effect: Effect) {
    && effect.content in signed && effect.port in effect.content.destinations
    && effect.content.origin == ORIGIN && effect.content.payloadHash == HashOf(effect.content.payload)
  }

  function ClaimOf(effect: Effect): Claim { Claim(effect.port, effect.content.nonce) }

  /** Every effect has claimed its nonce, no two the same, and was signed by Port Zero. */
  predicate PortsHold(signed: set<Content>, p: Ports) {
    && (forall i :: 0 <= i < |p.effects| ==> ClaimOf(p.effects[i]) in p.claims && Legitimate(signed, p.effects[i]))
    && (forall i, j :: 0 <= i < j < |p.effects| ==> ClaimOf(p.effects[i]) != ClaimOf(p.effects[j]))
  }

  lemma ReceiveKeeps(signed: set<Content>, p: Ports, d: Delivery)
    requires PortsHold(signed, p) && (d.envelope.signature.Signed? ==> d.envelope.signature.content in signed)
    ensures PortsHold(signed, Receive(p, d.port, d.envelope, d.adapter).0)
  {
  }

  lemma {:induction false} DeliverKeeps(signed: set<Content>, p: Ports, deliveries: seq<Delivery>)
    requires PortsHold(signed, p)
    requires forall i :: 0 <= i < |deliveries| && deliveries[i].envelope.signature.Signed? ==>
             deliveries[i].envelope.signature.content in signed
    ensures PortsHold(signed, Deliver(p, deliveries))
  {
    if deliveries != [] {
      var front := deliveries[..|deliveries| - 1];
      DeliverKeeps(signed, p, front);
      ReceiveKeeps(signed, Deliver(p, front), deliveries[|deliveries| - 1]);
    }
  }

  /** What Port Zero signed came from one of its identities. */
  predicate SignedHold(zero: Zero, signed: set<Content>) {
    forall c :: c in signed ==> Authentic(zero, c) && c.payloadHash == HashOf(c.payload)
  }

  lemma {:induction false} WorldHolds(zero: Zero, events: seq<Event>)
    requires Lawful(zero, events)
    ensures PortsHold(Run(zero, events).signed, Run(zero, events).ports) && SignedHold(zero, Run(zero, events).signed)
  {
    if events != [] {
      var w, event := Run(zero, events[..|events| - 1]), events[|events| - 1];
      WorldHolds(zero, events[..|events| - 1]);
      var signed := SignedBy(zero, w, event);
      assert PortsHold(signed, w.ports);
      DeliverKeeps(signed, w.ports, Deliveries(zero, w, event));
    }
  }

  /** However often and whenever the transport redelivers, and whatever it forges, a port runs its
      adapter at most once for each nonce, and only on a payload that Port Zero signed for that port
      on behalf of one of its identities. */
  lemma EffectsHappenAtMostOnce(zero: Zero, events: seq<Event>, i: nat, j: nat)
    requires Lawful(zero, events) && i < |Run(zero, events).ports.effects| && j < |Run(zero, events).ports.effects|
    ensures var w := Run(zero, events);
            var e, f := w.ports.effects[i], w.ports.effects[j];
            && (e.port == f.port && e.content.nonce == f.content.nonce ==> i == j)
            && e.content in w.signed && e.content.source in zero.identities
            && e.content.origin == "strata-data-port-zero" && e.port in e.content.destinations
            && e.content.payloadHash == HashOf(e.content.payload)
  {
    WorldHolds(zero, events);
    var effects := Run(zero, events).ports.effects;
    assert i < j ==> ClaimOf(effects[i]) != ClaimOf(effects[j]);
    assert j < i ==> ClaimOf(effects[j]) != ClaimOf(effects[i]);
  }

  /** A repeated delivery of the same envelope to the same port has no effect and gets a quarantine
      receipt, even when the first run of the adapter raised an exception. */
  lemma RedeliveryIsQuarantined(p: Ports, port: string, e: Envelope, first: Option<AdapterResult>,
      again: Option<AdapterResult>)
    requires Turned(port, e).None?
    ensures var p' := Receive(p, port, e, first).0;
            Receive(p', port, e, again) == (p', Some(MakeReceipt(port, e.content, Quarantined, "replay detected")))
  {
  }

  /** The transport hands one signed envelope to a port twice and returns what the port says the second
      time. */
  function DeliveredTwice(c: Content, now: int, port: string, result: AdapterResult, answers: nat -> Answer): Event {
    var delivery := Delivery(port, Sign(c), Some(result));
    DispatchEvent(c, now, answers, [delivery, delivery])
  }

  function ReplayReceipt(c: Content, port: string): Receipt {
    MakeReceipt(port, Sign(c).content, Quarantined, "replay detected")
  }

  lemma SecondDeliveryIsReplay(c: Content, port: string, result: AdapterResult)
    requires c.origin == ORIGIN && port in c.destinations
    ensures var p := Receive(START.ports, port, Sign(c), Some(result)).0;
            Receive(p, port, Sign(c), Some(result)).1 == Some(ReplayReceipt(c, port))
  {
    RedeliveryIsQuarantined(START.ports, port, Sign(c), Some(result), Some(result));
  }

  lemma FirstOutcomeIsRecorded(zero: Zero, c: Content, now: int, answers: nat -> Answer, receipts: seq<Receipt>)
    requires zero.maxAttempts >= 1 && Authentic(zero, c) && now < c.expiresAt && answers(0) == Receipts(receipts)
    requires Distinct(EvidenceHashes(receipts))
    ensures Dispatch(zero, START.memory, c, now, answers)
            == (Memory(map[c.key := receipts], EvidenceHashes(receipts)), Returned(receipts), 1)
  {
    assert [] + EvidenceHashes(receipts) == EvidenceHashes(receipts);
  }

  lemma RepeatedEvidenceIsLost(zero: Zero, m: Memory, c: Content, now: int, answers: nat -> Answer, receipt: Receipt)
    requires zero.durable && zero.maxAttempts >= 1 && Authentic(zero, c) && now < c.expiresAt && c.key !in m.outcomes
    requires answers(0) == Receipts([receipt]) && receipt.evidence in m.evidence
    ensures Dispatch(zero, m, c, now, answers) == (m, IntegrityError, 1)
  {
    var i :| 0 <= i < |m.evidence| && m.evidence[i] == receipt.evidence;
    var all := m.evidence + EvidenceHashes([receipt]);
    assert all[i] == all[|m.evidence|];
  }

  lemma RunOfOne(zero: Zero, event: Event)
    ensures Run(zero, [event]) == Step(zero, START, event)
    ensures Possible(zero, START, event) ==> Lawful(zero, [event])
  {
    assert [event][..0] == [] && Run(zero, []) == START && Lawful(zero, []);
  }

  lemma DeliveringTwiceIsPossible(zero: Zero, c: Content, now: int, port: string, result: AdapterResult,
      answers: nat -> Answer)
    requires Authentic(zero, c) && now < c.expiresAt
    ensures Possible(zero, START, DeliveredTwice(c, now, port, result, answers))
  {
    var event := DeliveredTwice(c, now, port, result, answers);
    assert Sign(c).content in SignedBy(zero, START, event);
    assert forall d :: d in event.during ==> d.envelope == Sign(c);
  }

  /** A lawful run after which a delivered dispatch loses its receipts: under a first key the transport
      delivers an envelope twice, returns the port's replay receipt, and that is recorded; the same
      message under any other key gets the same receipt, whose evidence hash is stored already. Nothing
      is recorded for that key, so each further dispatch of it calls the transport again. */
  lemma DeliveredReceiptsCanBeLost(zero: Zero, c: Content, other: string, now: int, port: string, result: AdapterResult,
      answers: nat -> Answer)
    requires zero.durable && zero.maxAttempts >= 1 && Authentic(zero, c) && now < c.expiresAt && port in c.destinations
             && other != c.key
    requires answers(0) == Receipts([ReplayReceipt(c, port)])
    ensures var events := [DeliveredTwice(c, now, port, result, answers)];
            var m := Run(zero, events).memory;
            && Lawful(zero, events) && m.outcomes == map[c.key := [ReplayReceipt(c, port)]]
            && Dispatch(zero, m, c.(key := other), now, answers) == (m, IntegrityError, 1)
    ensures var p := Receive(START.ports, port, Sign(c), Some(result)).0;
            Receive(p, port, Sign(c), Some(result)).1 == Some(ReplayReceipt(c, port))
  {
    var event, receipts := DeliveredTwice(c, now, port, result, answers), [ReplayReceipt(c, port)];
    RunOfOne(zero, event);
    DeliveringTwiceIsPossible(zero, c, now, port, result, answers);
    FirstOutcomeIsRecorded(zero, c, now, answers, receipts);
    SecondDeliveryIsReplay(c, port, result);
    var m := Memory(map[c.key := receipts], EvidenceHashes(receipts));
    assert Run(zero, [event]).memory == m;
    assert EvidenceHashes(receipts)[0] in m.evidence;
    RepeatedEvidenceIsLost(zero, m, c.(key := other), now, answers, receipts[0]);
  }
}
