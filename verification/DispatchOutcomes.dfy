/** When a dispatch reaches the transport and what it then remembers, and when a port runs its adapter:
    for every envelope, and over every run. */
module DispatchOutcomes {
  import opened Identity
  import opened PortDispatch

  // ---------------------------------------------------------------- Port Zero

  /** Answer k ends the retries: it is the first that is not TransportUnavailable. */
  ghost predicate Ends(zero: Zero, answers: nat -> Answer, k: nat) {
    k < zero.maxAttempts && answers(k) != Unavailable && forall i: nat :: i < k ==> answers(i) == Unavailable
  }

  lemma AttemptsEndAt(zero: Zero, answers: nat -> Answer, k: nat)
    requires Ends(zero, answers, k)
    ensures Attempts(zero, answers, 0) == (k + 1, answers(k))
  {
    AttemptsAreBounded(zero, answers, 0);
    var (calls, last) := Attempts(zero, answers, 0);
    assert calls > k ==> calls == k + 1;
  }

  lemma AttemptsRunOut(zero: Zero, answers: nat -> Answer)
    requires forall k: nat :: !Ends(zero, answers, k)
    ensures Attempts(zero, answers, 0) == (if zero.maxAttempts > 0 then zero.maxAttempts else 0, Unavailable)
  {
    AttemptsAreBounded(zero, answers, 0);
    var (calls, last) := Attempts(zero, answers, 0);
    if last != Unavailable {
      assert Ends(zero, answers, calls - 1);
    }
  }

  /** The caller is one of Port Zero's identities and goes through Port Zero. */
  ghost predicate Internal(zero: Zero, c: Content) {
    c.source in zero.identities && c.origin == "strata-data-port-zero"
  }

  /** For every dispatch: the transport is called exactly for an internal, unexpired envelope whose key has
      no recorded outcome, when any attempt is allowed. Before that a stranger gets a PermissionError, an
      expired envelope a TimeoutError and a recorded key its receipts, and memory stays as it was. */
  lemma ReachesTransportExactlyWhen(zero: Zero, m: Memory, c: Content, now: int, answers: nat -> Answer)
    ensures var (next, outcome, calls) := Dispatch(zero, m, c, now, answers);
            var reaches := Internal(zero, c) && now < c.expiresAt && c.key !in m.outcomes;
            && (calls > 0 <==> reaches && zero.maxAttempts > 0)
            && (!reaches ==>
                 next == m && outcome == (if !Internal(zero, c) then PermissionError
                   else if c.expiresAt <= now then TimeoutError else Returned(m.outcomes[c.key])))
  {
    AttemptsAreBounded(zero, answers, 0);
  }

  /** What such a dispatch does with the answer that ends its retries: receipts are recorded under the key
      with their evidence, unless the store is durable and holds one of the hashes already, or two are
      alike; a crash and running out of attempts leave memory as it was. */
  lemma RemembersExactlyWhatEndsIt(zero: Zero, m: Memory, c: Content, now: int, answers: nat -> Answer, k: nat)
    requires Internal(zero, c) && now < c.expiresAt && c.key !in m.outcomes && Ends(zero, answers, k)
    ensures var receipts := if answers(k).Receipts? then answers(k).receipts else [];
            var hashes := seq(|receipts|, i requires 0 <= i < |receipts| => receipts[i].evidence);
            Dispatch(zero, m, c, now, answers)
            == if answers(k).Crash? then (m, TransportError, k + 1)
              else if zero.durable && !NoDuplicates(m.evidence + hashes) then (m, IntegrityError, k + 1)
              else (Memory(m.outcomes[c.key := receipts], m.evidence + hashes), Returned(receipts), k + 1)
  {
    AttemptsEndAt(zero, answers, k);
    if answers(k).Receipts? {
      var receipts := answers(k).receipts;
      assert EvidenceHashes(receipts) == seq(|receipts|, i requires 0 <= i < |receipts| => receipts[i].evidence);
    }
  }

  lemma ForgetsWhatNeverEnds(zero: Zero, m: Memory, c: Content, now: int, answers: nat -> Answer)
    requires Internal(zero, c) && now < c.expiresAt && c.key !in m.outcomes
    requires forall k: nat :: !Ends(zero, answers, k)
    ensures Dispatch(zero, m, c, now, answers)
            == (m, TransportUnavailable, if zero.maxAttempts > 0 then zero.maxAttempts else 0)
  {
    AttemptsRunOut(zero, answers);
  }

  // ---------------------------------------------------------------- ports

  /** From Port Zero, for this port, signed as it stands, and with the hash of its payload. */
  ghost predicate Genuine(port: string, e: Envelope) {
    && e.content.origin == "strata-data-port-zero" && port in e.content.destinations
    && e.signature == Signed(e.content) && e.content.payloadHash == HashOf(e.content.payload)
  }

  ghost function Answered(port: string, c: Content, state: ReceiptState, detail: string): Option<Receipt> {
    Some(Receipt(c.message, port, state, detail, EvidenceOf(c.message, port, state, detail)))
  }

  /** A port runs its adapter exactly for a genuine envelope with an unused nonce, which it thereby claims,
      and answers what the adapter says. Any other envelope changes nothing and is answered Rejected when
      it comes from elsewhere or is for another port, and Quarantined when it was altered or repeated. */
  lemma RunsAdapterExactlyWhen(p: Ports, port: string, e: Envelope, adapter: Option<AdapterResult>)
    ensures var claim, c := Claim(port, e.content.nonce), e.content;
            Receive(p, port, e, adapter)
            == if Genuine(port, e) && claim !in p.claims then
                (Ports(p.claims + {claim}, p.effects + [Effect(port, c)]),
                 if adapter.None? then None else Answered(port, c, adapter.value.state, adapter.value.reference))
              else (p,
                if c.origin != "strata-data-port-zero"
                  then Answered(port, c, Rejected, "Port Zero authentication required")
                else if port !in c.destinations then Answered(port, c, Rejected, "destination policy rejected")
                else if e.signature != Signed(c) then Answered(port, c, Quarantined, "invalid signature")
                else if c.payloadHash != HashOf(c.payload)
                  then Answered(port, c, Quarantined, "payload integrity failure")
                else Answered(port, c, Quarantined, "replay detected"))
  {
  }

  /** What Port Zero sends is genuine for each destination it names: the caller's content with the hash of
      its payload, signed. */
  lemma SentCopiesAreGenuine(c: Content, port: string)
    requires c.origin == "strata-data-port-zero" && port in c.destinations
    ensures Genuine(port, Sign(c)) && Sign(c).content == c.(payloadHash := HashOf(c.payload))
  {
  }

  // ---------------------------------------------------------------- whole runs

  /** Everything the transport handed to a port in a run, oldest first. */
  ghost function Handed(zero: Zero, events: seq<Event>): seq<Delivery> {
    if events == [] then []
    else
      var n := |events| - 1;
      Handed(zero, events[..n]) + Deliveries(zero, Run(zero, events[..n]), events[n])
  }

  /** What the transport delivers while a dispatch has it called is handed over, and so is every redelivery;
      a dispatch that never calls it hands over nothing. */
  lemma HandedByOneEvent(zero: Zero, events: seq<Event>, e: Event)
    ensures var m := Run(zero, events).memory;
            Handed(zero, events + [e])
            == Handed(zero, events)
               + if e.Redeliver? then [e.delivery]
                 else if Internal(zero, e.content) && e.now < e.content.expiresAt && e.content.key !in m.outcomes
                   && zero.maxAttempts > 0 then e.during
                 else []
  {
    assert (events + [e])[..|events|] == events;
    if e.DispatchEvent? { ReachesTransportExactlyWhen(zero, Run(zero, events).memory, e.content, e.now, e.answers); }
  }

  lemma {:induction false} DeliverConcat(p: Ports, a: seq<Delivery>, b: seq<Delivery>)
    ensures Deliver(p, a + b) == Deliver(Deliver(p, a), b)
  {
    if b == [] {
      assert a + b == a;
    } else {
      assert (a + b)[..|a + b| - 1] == a + b[..|b| - 1];
      DeliverConcat(p, a, b[..|b| - 1]);
    }
  }

  lemma {:induction false} PortsAreWhatWasHanded(zero: Zero, events: seq<Event>)
    ensures Run(zero, events).ports == Deliver(START.ports, Handed(zero, events))
  {
    if events != [] {
      var n := |events| - 1;
      PortsAreWhatWasHanded(zero, events[..n]);
      DeliverConcat(START.ports, Handed(zero, events[..n]), Deliveries(zero, Run(zero, events[..n]), events[n]));
    }
  }

  ghost predicate Ran(p: Ports, port: string, nonce: string) {
    exists i :: 0 <= i < |p.effects| && p.effects[i].port == port && p.effects[i].content.nonce == nonce
  }

  ghost predicate GenuinelyHanded(deliveries: seq<Delivery>, port: string, nonce: string) {
    exists i :: 0 <= i < |deliveries| && deliveries[i].port == port
      && deliveries[i].envelope.content.nonce == nonce && Genuine(port, deliveries[i].envelope)
  }

  lemma OneMoreHanded(before: seq<Delivery>, d: Delivery, port: string, nonce: string)
    ensures GenuinelyHanded(before + [d], port, nonce) <==>
              || GenuinelyHanded(before, port, nonce)
              || (d.port == port && d.envelope.content.nonce == nonce && Genuine(port, d.envelope))
  {
    var all := before + [d];
    assert all[|before|] == d && forall i :: 0 <= i < |before| ==> all[i] == before[i];
  }

  lemma OneMoreRun(p: Ports, d: Delivery, port: string, nonce: string)
    requires forall q, k :: Claim(q, k) in p.claims <==> Ran(p, q, k)
    ensures var p' := Receive(p, d.port, d.envelope, d.adapter).0;
            && (Ran(p', port, nonce) <==>
                 || Ran(p, port, nonce)
                 || (d.port == port && d.envelope.content.nonce == nonce && Genuine(port, d.envelope)))
            && (Claim(port, nonce) in p'.claims <==> Ran(p', port, nonce))
  {
    var p' := Receive(p, d.port, d.envelope, d.adapter).0;
    RunsAdapterExactlyWhen(p, d.port, d.envelope, d.adapter);
    if p' != p {
      assert p'.effects[|p.effects|] == Effect(d.port, d.envelope.content);
      assert forall i :: 0 <= i < |p.effects| ==> p'.effects[i] == p.effects[i];
    }
  }

  lemma {:induction false} RanMeansHanded(deliveries: seq<Delivery>)
    ensures var p := Deliver(START.ports, deliveries);
            && (forall port, nonce :: Claim(port, nonce) in p.claims <==> Ran(p, port, nonce))
            && (forall port, nonce :: Ran(p, port, nonce) <==> GenuinelyHanded(deliveries, port, nonce))
  {
    if deliveries != [] {
      var front, d := deliveries[..|deliveries| - 1], deliveries[|deliveries| - 1];
      RanMeansHanded(front);
      assert front + [d] == deliveries;
      var p := Deliver(START.ports, front);
      var p' := Receive(p, d.port, d.envelope, d.adapter).0;
      forall port, nonce
        ensures Claim(port, nonce) in p'.claims <==> Ran(p', port, nonce)
        ensures Ran(p', port, nonce) <==> GenuinelyHanded(deliveries, port, nonce)
      {
        OneMoreRun(p, d, port, nonce);
        OneMoreHanded(front, d, port, nonce);
      }
    }
  }

  /** In every run, whatever the transport repeats or forges, a port has run its adapter for a nonce exactly
      when some genuine envelope with that nonce was handed to it, and that nonce is then claimed. */
  lemma AdapterRanExactlyWhenHanded(zero: Zero, events: seq<Event>, port: string, nonce: string)
    ensures var p := Run(zero, events).ports;
            && (Ran(p, port, nonce) <==> GenuinelyHanded(Handed(zero, events), port, nonce))
            && (Claim(port, nonce) in p.claims <==> Ran(p, port, nonce))
  {
    PortsAreWhatWasHanded(zero, events);
    RanMeansHanded(Handed(zero, events));
  }
}
