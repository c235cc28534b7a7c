/** The owner policy of native-session.mjs: deterministic authorization and the bounded,
    self-evicting replay map. */
module SessionPolicy {
  import opened Identity

  const FRAME_CAP: int := 4 * 1024 * 1024

  datatype Scope = Scope(stateSha256: string, maxBytes: int)
  datatype Adapter = Adapter(id: string, substrate: string, underlyingIp: bool, underlyingRouting: bool)

  predicate ValidScope(s: Scope) {
    HexText(s.stateSha256, 64) && 1 <= s.maxBytes <= FRAME_CAP
  }

  predicate AdapterIdTail(c: char) {
    InRange(c, 'a', 'z') || InRange(c, '0', '9') || c == '.' || c == '/' || c == '-'
  }

  predicate SubstrateTail(c: char) { InRange(c, 'A', 'Z') || InRange(c, '0', '9') || c == '_' }

  predicate ValidAdapter(a: Adapter) {
    && 1 <= |a.id| <= 64 && InRange(a.id[0], 'a', 'z')
    && (forall i :: 1 <= i < |a.id| ==> AdapterIdTail(a.id[i]))
    && 1 <= |a.substrate| <= 64 && InRange(a.substrate[0], 'A', 'Z')
    && (forall i :: 1 <= i < |a.substrate| ==> SubstrateTail(a.substrate[i]))
  }

  /** What a policy object holds. Membership of an adapter digest is membership of the adapter,
      since canonical text determines the value (CanonicalJson.CanonicalTextIsTheValue). */
  datatype Policy = Policy(
    peers: set<PortId>, states: seq<string>, adapters: set<Adapter>,
    capacity: nat, revoked: set<PortId>, used: map<string, int>)

  predicate Authorized(p: Policy, peer: PortId, scope: Scope, adapter: Adapter) {
    && ValidScope(scope) && ValidAdapter(adapter)
    && peer in p.peers && peer !in p.revoked
    && scope.stateSha256 in p.states && adapter in p.adapters
  }

  function Unexpired(used: map<string, int>, now: int): map<string, int> {
    map id | id in used && used[id] > now :: used[id]
  }

  /** consume: evict, then refuse a known id or a full map, then remember the id. The eviction
      stays even when the call refuses. */
  function Consume(p: Policy, id: string, expiresAt: int, now: int): (r: (Policy, bool)) {
    var kept := Unexpired(p.used, now);
    if id in kept || |kept| >= p.capacity then (p.(used := kept), false)
    else (p.(used := kept[id := expiresAt]), true)
  }

  /** The mutable policy object. */
  class NativeSessionPolicy {
    const peers: set<PortId>
    const states: seq<string>
    const adapters: set<Adapter>
    const capacity: nat
    var revoked: set<PortId>
    var used: map<string, int>

    function View(): Policy
      reads this
    {
      Policy(peers, states, adapters, capacity, revoked, used)
    }

    constructor (peers: set<PortId>, states: seq<string>, adapters: set<Adapter>, capacity: nat)
      requires 1 <= capacity <= 4096
      ensures View() == Policy(peers, states, adapters, capacity, {}, map[])
    {
      this.peers, this.states, this.adapters, this.capacity := peers, states, adapters, capacity;
      revoked, used := {}, map[];
    }

    method Authorize(peer: PortId, scope: Scope, adapter: Adapter) returns (ok: bool)
      ensures ok == Authorized(View(), peer, scope, adapter)
      ensures ok ==> peer in peers && peer !in revoked && scope.stateSha256 in states && adapter in adapters
    {
      if !ValidScope(scope) || !ValidAdapter(adapter) { return false; }
      ok := !(peer !in peers || peer in revoked || scope.stateSha256 !in states || adapter !in adapters);
    }

    method Revoke(peer: PortId) returns (ok: bool)
      modifies this`revoked
      ensures ok == (peer in peers)
      ensures revoked == if ok then old(revoked) + {peer} else old(revoked)
    {
      ok := peer in peers;
      if ok { revoked := revoked + {peer}; }
    }

    method ConsumeId(id: string, expiresAt: int, now: int) returns (ok: bool)
      modifies this`used
      ensures (View(), ok) == Consume(old(View()), id, expiresAt, now)
    {
      var pending := used.Keys;
      while pending != {}
        invariant pending <= old(used).Keys
        invariant used.Keys == set k | k in old(used) && (k in pending || old(used)[k] > now)
        invariant forall k :: k in used ==> used[k] == old(used)[k]
        decreases |pending|
      {
        var key :| key in pending;
        if used[key] <= now { used := used - {key}; }
        pending := pending - {key};
      }
      assert used == Unexpired(old(used), now);
      if id in used || |used| >= capacity { return false; }
      used := used[id := expiresAt];
      ok := true;
    }
  }

  // ---------------------------------------------------------------- whole runs of acceptance

  /** The part of a signed offer that acceptance and the replay map look at. */
  datatype Ticket = Ticket(sessionId: string, issuedAt: int, expiresAt: int)

  /** The lifetime test of `control`. */
  predicate Live(t: Ticket, now: int) {
    t.issuedAt <= now < t.expiresAt && t.expiresAt - t.issuedAt <= 30_000
  }

  datatype Attempt = Attempt(ticket: Ticket, now: int)

  /** A policy together with everything it ever accepted, oldest first. */
  datatype History = History(policy: Policy, accepted: seq<Ticket>)

  function Admit(h: History, a: Attempt): History {
    if !Live(a.ticket, a.now) then h else
    var (p, ok) := Consume(h.policy, a.ticket.sessionId, a.ticket.expiresAt, a.now);
    History(p, if ok then h.accepted + [a.ticket] else h.accepted)
  }

  function Admissions(h: History, attempts: seq<Attempt>): History
    decreases |attempts|
  {
    if attempts == [] then h else
    var n := |attempts| - 1;
    Admit(Admissions(h, attempts[..n]), attempts[n])
  }

  ghost predicate ClockMonotone(attempts: seq<Attempt>) {
    forall i, j :: 0 <= i <= j < |attempts| ==> attempts[i].now <= attempts[j].now
  }

  /** The unbounded reference: ids of accepted tickets that have not expired yet. */
  ghost function Outstanding(accepted: seq<Ticket>, now: int): (ids: set<string>) {
    set i | 0 <= i < |accepted| && accepted[i].expiresAt > now :: accepted[i].sessionId
  }

  ghost predicate Recorded(accepted: seq<Ticket>, id: string, expiresAt: int) {
    exists i :: 0 <= i < |accepted| && accepted[i].sessionId == id && accepted[i].expiresAt == expiresAt
  }

  /** The bounded map agrees with the unbounded reference at every instant not before `from`. */
  ghost predicate Faithful(h: History, from: int) {
    && |h.policy.used| <= h.policy.capacity
    && (forall id :: id in h.policy.used ==> Recorded(h.accepted, id, h.policy.used[id]))
    && (forall i :: 0 <= i < |h.accepted| && h.accepted[i].expiresAt > from ==>
          h.accepted[i].sessionId in h.policy.used && h.policy.used[h.accepted[i].sessionId] == h.accepted[i].expiresAt)
  }

  lemma EvictionSize(used: map<string, int>, now: int)
    ensures |Unexpired(used, now)| <= |used|
  {
    SubsetSize(Unexpired(used, now).Keys, used.Keys);
  }

  lemma SubsetSize<T>(a: set<T>, b: set<T>)
    requires a <= b
    ensures |a| <= |b|
  {
    assert b == a + (b - a);
  }

  lemma RecordedGrows(accepted: seq<Ticket>, t: Ticket, id: string, expiresAt: int)
    ensures Recorded(accepted, id, expiresAt) ==> Recorded(accepted + [t], id, expiresAt)
    ensures Recorded(accepted + [t], t.sessionId, t.expiresAt)
  {
    assert (accepted + [t])[|accepted|] == t;
    if Recorded(accepted, id, expiresAt) {
      var i :| 0 <= i < |accepted| && accepted[i].sessionId == id && accepted[i].expiresAt == expiresAt;
      assert (accepted + [t])[i] == accepted[i];
    }
  }

  lemma AdmitKeepsFaithful(h: History, a: Attempt, from: int)
    requires Faithful(h, from) && from <= a.now
    ensures Faithful(Admit(h, a), a.now)
  {
    if Live(a.ticket, a.now) {
      EvictionSize(h.policy.used, a.now);
      var h' := Admit(h, a);
      var used' := h'.policy.used;
      forall id | id in used'
        ensures Recorded(h'.accepted, id, used'[id])
      {
        RecordedGrows(h.accepted, a.ticket, id, used'[id]);
      }
      assert |used'| <= h'.policy.capacity;
    }
  }

  lemma {:induction false} RunsAreFaithful(p: Policy, attempts: seq<Attempt>, now: int)
    requires p.used == map[]
    requires ClockMonotone(attempts) && (attempts != [] ==> attempts[|attempts| - 1].now <= now)
    ensures Faithful(Admissions(History(p, []), attempts), now)
    ensures Admissions(History(p, []), attempts).policy == p.(used := Admissions(History(p, []), attempts).policy.used)
    decreases |attempts|
  {
    if attempts != [] {
      var n := |attempts| - 1;
      RunsAreFaithful(p, attempts[..n], attempts[n].now);
      var before := Admissions(History(p, []), attempts[..n]);
      AdmitKeepsFaithful(before, attempts[n], attempts[n].now);
      var after := Admissions(History(p, []), attempts);
      assert after == Admit(before, attempts[n]);
    }
  }

  /** The decision of the bounded map is exactly that of the unbounded set of outstanding ids,
      plus the capacity test on how many are outstanding. */
  lemma ReplayMapRefinesUnboundedSet(p: Policy, attempts: seq<Attempt>, next: Attempt)
    requires p.used == map[] && ClockMonotone(attempts + [next])
    ensures var h := Admissions(History(p, []), attempts);
            var out := Outstanding(h.accepted, next.now);
            && Consume(h.policy, next.ticket.sessionId, next.ticket.expiresAt, next.now).1
               == (next.ticket.sessionId !in out && |out| < p.capacity)
            && |h.policy.used| <= p.capacity
  {
    var all := attempts + [next];
    assert forall i :: 0 <= i < |attempts| ==> all[i] == attempts[i];
    assert attempts != [] ==> all[|attempts| - 1].now <= all[|attempts|].now;
    RunsAreFaithful(p, attempts, next.now);
    var h := Admissions(History(p, []), attempts);
    var kept := Unexpired(h.policy.used, next.now);
    var out := Outstanding(h.accepted, next.now);
    forall id | id in kept
      ensures id in out
    {
      var i :| 0 <= i < |h.accepted| && h.accepted[i].sessionId == id && h.accepted[i].expiresAt == kept[id];
      assert h.accepted[i].sessionId in out;
    }
    assert kept.Keys == out;
    assert |kept| == |kept.Keys|;
  }

  /** No signed offer is accepted twice under one policy, even after its id was evicted. */
  lemma {:induction false} NoOfferAcceptedTwice(p: Policy, attempts: seq<Attempt>)
    requires p.used == map[] && ClockMonotone(attempts)
    ensures NoDuplicates(Admissions(History(p, []), attempts).accepted)
    decreases |attempts|
  {
    if attempts != [] {
      var n := |attempts| - 1;
      var a := attempts[n];
      NoOfferAcceptedTwice(p, attempts[..n]);
      RunsAreFaithful(p, attempts[..n], a.now);
      var before := Admissions(History(p, []), attempts[..n]);
      var after := Admissions(History(p, []), attempts);
      assert after == Admit(before, a);
      forall i | 0 <= i < |before.accepted| && before.accepted[i] == a.ticket
        ensures after.accepted == before.accepted
      {
        assert a.ticket.expiresAt > a.now ==> a.ticket.sessionId in Unexpired(before.policy.used, a.now);
      }
    }
  }

  // ---------------------------------------------------------------- any clock

  predicate AdmittedAt(p: Policy, attempts: seq<Attempt>, i: nat)
    requires i < |attempts|
  {
    Admissions(History(p, []), attempts[..i + 1]).accepted != Admissions(History(p, []), attempts[..i]).accepted
  }

  /** Attempt i was admitted under this id, and no live attempt since has read a clock at or after its
      expiry. */
  ghost predicate Remembered(p: Policy, attempts: seq<Attempt>, i: nat, id: string) {
    && i < |attempts| && AdmittedAt(p, attempts, i) && attempts[i].ticket.sessionId == id
    && forall j :: i < j < |attempts| && Live(attempts[j].ticket, attempts[j].now) ==>
       attempts[j].now < attempts[i].ticket.expiresAt
  }

  lemma RememberedBefore(p: Policy, attempts: seq<Attempt>, i: nat, id: string)
    requires attempts != [] && i < |attempts| - 1
    ensures var last := attempts[|attempts| - 1];
            Remembered(p, attempts, i, id) <==>
              Remembered(p, attempts[..|attempts| - 1], i, id)
              && (Live(last.ticket, last.now) ==> last.now < attempts[i].ticket.expiresAt)
  {
    var front := attempts[..|attempts| - 1];
    assert front[..i] == attempts[..i] && front[..i + 1] == attempts[..i + 1];
    assert forall j :: 0 <= j < |front| ==> front[j] == attempts[j];
  }

  lemma LastAdmission(p: Policy, attempts: seq<Attempt>)
    requires attempts != []
    ensures var n := |attempts| - 1;
            var before := Admissions(History(p, []), attempts[..n]);
            AdmittedAt(p, attempts, n) <==> Admit(before, attempts[n]).accepted != before.accepted
  {
    assert attempts[..|attempts|] == attempts;
  }

  ghost predicate RememberedUntil(p: Policy, attempts: seq<Attempt>, id: string, expiresAt: int) {
    exists i: nat :: Remembered(p, attempts, i, id) && attempts[i].ticket.expiresAt == expiresAt
  }

  lemma RememberedStep(p: Policy, attempts: seq<Attempt>, id: string, expiresAt: int)
    requires attempts != []
    ensures var n := |attempts| - 1;
            var a := attempts[n];
            RememberedUntil(p, attempts, id, expiresAt) <==>
              || (RememberedUntil(p, attempts[..n], id, expiresAt) && (Live(a.ticket, a.now) ==> a.now < expiresAt))
              || (AdmittedAt(p, attempts, n) && a.ticket.sessionId == id && a.ticket.expiresAt == expiresAt)
  {
    var n := |attempts| - 1;
    if RememberedUntil(p, attempts, id, expiresAt) {
      var i: nat :| Remembered(p, attempts, i, id) && attempts[i].ticket.expiresAt == expiresAt;
      if i < n {
        RememberedBefore(p, attempts, i, id);
        assert attempts[..n][i] == attempts[i];
      }
    }
    if RememberedUntil(p, attempts[..n], id, expiresAt) {
      var i: nat :| Remembered(p, attempts[..n], i, id) && attempts[..n][i].ticket.expiresAt == expiresAt;
      RememberedBefore(p, attempts, i, id);
    }
    assert AdmittedAt(p, attempts, n) && attempts[n].ticket.sessionId == id ==> Remembered(p, attempts, n, id);
  }

  lemma UsedStep(h: History, a: Attempt, id: string, expiresAt: int)
    ensures var used, used' := h.policy.used, Admit(h, a).policy.used;
            id in used' && used'[id] == expiresAt <==>
              || (id in used && used[id] == expiresAt && (Live(a.ticket, a.now) ==> a.now < expiresAt))
              || (Admit(h, a).accepted != h.accepted && a.ticket.sessionId == id && a.ticket.expiresAt == expiresAt)
  {
  }

  /** Whatever the clock does, the map holds exactly the remembered ids with their expiry. */
  lemma {:induction false} UsedIsRemembered(p: Policy, attempts: seq<Attempt>, id: string, expiresAt: int)
    requires p.used == map[]
    ensures var used := Admissions(History(p, []), attempts).policy.used;
            id in used && used[id] == expiresAt <==> RememberedUntil(p, attempts, id, expiresAt)
    decreases |attempts|
  {
    if attempts != [] {
      var n := |attempts| - 1;
      UsedIsRemembered(p, attempts[..n], id, expiresAt);
      LastAdmission(p, attempts);
      RememberedStep(p, attempts, id, expiresAt);
      UsedStep(Admissions(History(p, []), attempts[..n]), attempts[n], id, expiresAt);
    }
  }

  /** For every clock: an attempt is admitted exactly when its ticket is live now, there is room, and
      its id is not remembered until later than now. */
  lemma AdmittedExactlyWhen(p: Policy, attempts: seq<Attempt>, a: Attempt)
    requires p.used == map[]
    ensures var h := Admissions(History(p, []), attempts);
            var id := a.ticket.sessionId;
            var remembered := exists expiresAt :: expiresAt > a.now && RememberedUntil(p, attempts, id, expiresAt);
            Admit(h, a).accepted
            == if Live(a.ticket, a.now) && |Unexpired(h.policy.used, a.now)| < p.capacity && !remembered
              then h.accepted + [a.ticket] else h.accepted
  {
    var used := Admissions(History(p, []), attempts).policy.used;
    CapacityStays(p, attempts);
    var id := a.ticket.sessionId;
    forall expiresAt
      ensures id in used && used[id] == expiresAt <==> RememberedUntil(p, attempts, id, expiresAt)
    {
      UsedIsRemembered(p, attempts, id, expiresAt);
    }
    assert id in used && used[id] > a.now ==> RememberedUntil(p, attempts, id, used[id]);
  }

  lemma {:induction false} CapacityStays(p: Policy, attempts: seq<Attempt>)
    ensures Admissions(History(p, []), attempts).policy.capacity == p.capacity
    decreases |attempts|
  {
    if attempts != [] { CapacityStays(p, attempts[..|attempts| - 1]); }
  }

  /** A ticket is admitted again only if a live attempt in between read a clock at or after its expiry
      and the clock has since gone back before it. */
  lemma ReadmissionNeedsTheClockToGoBack(p: Policy, attempts: seq<Attempt>, i: nat, now: int)
    requires p.used == map[] && i < |attempts| && AdmittedAt(p, attempts, i)
    requires var h := Admissions(History(p, []), attempts);
             Admit(h, Attempt(attempts[i].ticket, now)).accepted != h.accepted
    ensures exists j :: i < j < |attempts| && Live(attempts[j].ticket, attempts[j].now)
              && now < attempts[i].ticket.expiresAt <= attempts[j].now
  {
    var t := attempts[i].ticket;
    AdmittedExactlyWhen(p, attempts, Attempt(t, now));
    assert !RememberedUntil(p, attempts, t.sessionId, t.expiresAt);
    assert !Remembered(p, attempts, i, t.sessionId);
  }

  lemma OneMoreAttempt(h: History, attempts: seq<Attempt>, a: Attempt)
    ensures Admissions(h, attempts + [a]) == Admit(Admissions(h, attempts), a)
  {
    var all := attempts + [a];
    assert all[..|all| - 1] == attempts;
  }

  /** Three admissions: an offer, one that outlives it, and the first again. */
  lemma ThreeAdmissions(p: Policy, t: Ticket, other: Ticket)
    requires p.used == map[] && p.capacity == 8 && t == Ticket("a", 0, 20) && other == Ticket("b", 20, 40)
    ensures Admit(Admit(Admit(History(p, []), Attempt(t, 10)), Attempt(other, 25)), Attempt(t, 15)).accepted
            == [t, other, t]
  {
    assert Unexpired(map[], 10) == map[];
    var h0 := Admit(History(p, []), Attempt(t, 10));
    assert h0 == History(p.(used := map["a" := 20]), [t]);
    assert Unexpired(map["a" := 20], 25) == map[];
    var h1 := Admit(h0, Attempt(other, 25));
    assert h1 == History(p.(used := map["b" := 40]), [t, other]);
    assert Unexpired(map["b" := 40], 15) == map["b" := 40];
  }

  /** With a clock that steps back, the same offer gets in twice: the guard above is needed. */
  lemma BackwardClockReadmits()
    ensures exists p: Policy, attempts ::
              p.used == map[] && !ClockMonotone(attempts)
                && !NoDuplicates(Admissions(History(p, []), attempts).accepted)
  {
    var p := Policy({}, [], {}, 8, {}, map[]);
    var h, t, other := History(p, []), Ticket("a", 0, 20), Ticket("b", 20, 40);
    var s0, s1 := [] + [Attempt(t, 10)], [Attempt(t, 10)] + [Attempt(other, 25)];
    OneMoreAttempt(h, [], Attempt(t, 10));
    OneMoreAttempt(h, s0, Attempt(other, 25));
    OneMoreAttempt(h, s1, Attempt(t, 15));
    ThreeAdmissions(p, t, other);
    var s2 := s1 + [Attempt(t, 15)];
    var accepted := Admissions(h, s2).accepted;
    assert accepted[0] == accepted[2];
    assert s2[1].now > s2[2].now;
    assert p.used == map[] && !ClockMonotone(s2) && !NoDuplicates(Admissions(History(p, []), s2).accepted);
  }
}
