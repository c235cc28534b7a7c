/** The two signed directories, SignedPeerDirectory and SignedPortNameDirectory. They hold
    different contents and test capacity in a different order, so the model is one directory
    over a content type C with the order as a parameter. */
module SignedDirectories {
  import opened Identity
  import opened Letters
  import SessionPolicy

  datatype Body<C> = Body(
    portId: PortId, publicKey: SigningKey, revision: int, issuedAt: int, expiresAt: int, content: C)

  datatype Signature<C> = Sig(key: SigningKey, body: Body<C>) | Forged

  datatype Record<C> = Record(body: Body<C>, signature: Signature<C>)

  /** What differs between the two kinds of record: the longest lifetime and the content test. */
  datatype Rules<!C> = Rules(lifetime: int, contentOk: C -> bool)

  /** verifyEnvelope followed by assertRecord / verifyBody. */
  predicate Verified<C(==)>(rules: Rules<C>, r: Record<C>, now: int) {
    && PortOf(r.body.publicKey) == r.body.portId
    && r.signature == Sig(r.body.publicKey, r.body)
    && SafeInteger(r.body.revision) && r.body.revision >= 1
    && SafeInteger(r.body.issuedAt) && SafeInteger(r.body.expiresAt)
    && r.body.issuedAt <= now < r.body.expiresAt
    && r.body.issuedAt < r.body.expiresAt <= r.body.issuedAt + rules.lifetime
    && rules.contentOk(r.body.content)
  }

  // ---------------------------------------------------------------- peer records

  datatype Component = Component(id: string, version: string, evidenceStatus: string)
  datatype PeerContent = PeerContent(capabilities: seq<string>, tesseractEngine: Component, boundWorker: Component)

  predicate Label(s: string) {
    && 1 <= |s| <= 64 && InRange(s[0], 'a', 'z')
    && forall i :: 1 <= i < |s| ==> InRange(s[i], 'a', 'z') || InRange(s[i], '0', '9') || s[i] == '.' || s[i] == '-'
  }

  predicate Digits(s: string) { s != "" && forall i :: 0 <= i < |s| ==> InRange(s[i], '0', '9') }

  /** Digits '.' digits '.' digits. */
  predicate Version(s: string) {
    exists i, j :: 0 <= i < j < |s| && s[i] == '.' && s[j] == '.'
      && Digits(s[..i]) && Digits(s[i + 1..j]) && Digits(s[j + 1..])
  }

  predicate ComponentOk(c: Component) {
    Label(c.id) && Version(c.version) && c.evidenceStatus == "DECLARED"
  }

  predicate PeerContentOk(c: PeerContent) {
    && 1 <= |c.capabilities| <= 16
    && (forall i, j :: 0 <= i < j < |c.capabilities| ==> c.capabilities[i] != c.capabilities[j])
    && (forall i :: 0 <= i < |c.capabilities| ==> Label(c.capabilities[i]))
    && ComponentOk(c.tesseractEngine) && ComponentOk(c.boundWorker)
  }

  function PeerRules(): Rules<PeerContent> { Rules(300_000, c => PeerContentOk(c)) }

  type PeerRecord = Record<PeerContent>

  // ---------------------------------------------------------------- the directory as a value

  datatype Directory<C> = Directory(records: map<PortId, Record<C>>, revoked: set<PortId>)

  /** Which presence the capacity test asks about: SignedPeerDirectory looks after eviction,
      SignedPortNameDirectory remembers the answer from before it. */
  datatype CapacityTest = AfterEviction | BeforeEviction

  function Evict<C>(records: map<PortId, Record<C>>, now: int): map<PortId, Record<C>> {
    map id | id in records && records[id].body.expiresAt > now :: records[id]
  }

  predicate Conflicts<C(==)>(prior: Record<C>, next: Record<C>) {
    next.body.revision < prior.body.revision || (next.body.revision == prior.body.revision && next != prior)
  }

  function Ingest<C(==)>(d: Directory<C>, rules: Rules<C>, capacity: nat, test: CapacityTest, r: Record<C>, now: int)
    : (result: (Directory<C>, bool))
  {
    var id := r.body.portId;
    if !Verified(rules, r, now) || id in d.revoked then (d, false)
    else if id in d.records && Conflicts(d.records[id], r) then (d, false)
    else
      var kept := Evict(d.records, now);
      var present := if test.AfterEviction? then id in kept else id in d.records;
      if !present && |kept| >= capacity then (d.(records := kept), false)
      else (d.(records := kept[id := r]), true)
  }

  function Revoke<C>(d: Directory<C>, revocationCap: Option<nat>, id: PortId): (result: (Directory<C>, bool)) {
    if revocationCap.Some? && |d.revoked| >= revocationCap.value && id !in d.revoked then (d, false)
    else (Directory(d.records - {id}, d.revoked + {id}), true)
  }

  /** `get` (and `resolve`, once its URI is parsed): a retained record that still verifies. */
  function Lookup<C(==)>(d: Directory<C>, rules: Rules<C>, id: PortId, now: int): (r: Option<Record<C>>)
    ensures r.Some? ==> id !in d.revoked && Verified(rules, r.value, now)
  {
    if id in d.revoked || id !in d.records then None
    else if Verified(rules, d.records[id], now) && d.records[id].body.portId == id then Some(d.records[id])
    else None
  }

  /** The mutable directory object. */
  class SignedDirectory<C(==)> {
    const rules: Rules<C>
    const capacity: nat
    const test: CapacityTest
    const revocationCap: Option<nat>
    var records: map<PortId, Record<C>>
    var revoked: set<PortId>

    function View(): Directory<C>
      reads this
    {
      Directory(records, revoked)
    }

    constructor (rules: Rules<C>, capacity: nat, test: CapacityTest, revocationCap: Option<nat>)
      requires 1 <= capacity <= 4096
      ensures View() == Directory(map[], {})
      ensures this.rules == rules && this.capacity == capacity && this.test == test
              && this.revocationCap == revocationCap
    {
      this.rules, this.capacity, this.test, this.revocationCap := rules, capacity, test, revocationCap;
      records, revoked := map[], {};
    }

    method IngestRecord(r: Record<C>, now: int) returns (ok: bool)
      modifies this`records
      ensures (View(), ok) == Ingest(old(View()), rules, capacity, test, r, now)
    {
      var id := r.body.portId;
      if !Verified(rules, r, now) || id in revoked { return false; }
      var wasPresent := id in records;
      if wasPresent && Conflicts(records[id], r) { return false; }
      var pending := records.Keys;
      while pending != {}
        invariant pending <= old(records).Keys
        invariant records.Keys == set k | k in old(records) && (k in pending || old(records)[k].body.expiresAt > now)
        invariant forall k :: k in records ==> records[k] == old(records)[k]
        decreases |pending|
      {
        var key :| key in pending;
        if records[key].body.expiresAt <= now { records := records - {key}; }
        pending := pending - {key};
      }
      assert records == Evict(old(records), now);
      var present := if test.AfterEviction? then id in records else wasPresent;
      if !present && |records| >= capacity { return false; }
      records := records[id := r];
      ok := true;
    }

    /** get, and the lookup in resolve. */
    method GetRecord(id: PortId, now: int) returns (r: Option<Record<C>>)
      ensures r == Lookup(View(), rules, id, now)
      ensures r.Some? ==> r.value.body.portId == id && r.value.body.issuedAt <= now < r.value.body.expiresAt
    {
      if id in revoked || id !in records { return None; }
      var record := records[id];
      if record.body.portId != id || !Verified(rules, record, now) { return None; }
      r := Some(record);
    }

    method RevokeSigner(id: PortId) returns (ok: bool)
      modifies this
      ensures (View(), ok) == Revoke(old(View()), revocationCap, id)
    {
      if revocationCap.Some? && |revoked| >= revocationCap.value && id !in revoked { return false; }
      revoked := revoked + {id};
      records := records - {id};
      ok := true;
    }
  }

  // ---------------------------------------------------------------- whole runs

  datatype Operation<C> = IngestOp(record: Record<C>, now: int) | RevokeOp(id: PortId)

  datatype Config<!C> = Config(rules: Rules<C>, capacity: nat, test: CapacityTest, revocationCap: Option<nat>)

  function Apply<C(==)>(c: Config<C>, d: Directory<C>, op: Operation<C>): Directory<C> {
    match op
    case IngestOp(r, now) => Ingest(d, c.rules, c.capacity, c.test, r, now).0
    case RevokeOp(id) => Revoke(d, c.revocationCap, id).0
  }

  function Run<C(==)>(c: Config<C>, d: Directory<C>, ops: seq<Operation<C>>): Directory<C>
    decreases |ops|
  {
    if ops == [] then d else Apply(c, Run(c, d, ops[..|ops| - 1]), ops[|ops| - 1])
  }

  ghost predicate Sound<C>(c: Config<C>, d: Directory<C>) {
    && |d.records| <= c.capacity
    && (forall id :: id in d.records ==> d.records[id].body.portId == id)
    && (forall id :: id in d.records ==> d.records[id].signature == Sig(id.key, d.records[id].body))
    && (forall id :: id in d.records ==> id !in d.revoked)
  }

  lemma EvictSize<C>(records: map<PortId, Record<C>>, now: int)
    ensures |Evict(records, now)| <= |records|
    ensures forall id :: id in records && records[id].body.expiresAt <= now ==> |Evict(records, now)| < |records|
  {
    var kept := Evict(records, now);
    SessionPolicy.SubsetSize(kept.Keys, records.Keys);
    forall id | id in records && records[id].body.expiresAt <= now
      ensures |kept| < |records|
    {
      SessionPolicy.SubsetSize(kept.Keys, records.Keys - {id});
    }
  }

  lemma InsertSize<C>(records: map<PortId, Record<C>>, id: PortId, r: Record<C>)
    ensures |records[id := r]| == if id in records then |records| else |records| + 1
  {
    assert records[id := r].Keys == records.Keys + {id};
    assert |records[id := r].Keys| == |records[id := r]| && |records.Keys| == |records|;
  }

  lemma IngestKeepsSound<C>(c: Config<C>, d: Directory<C>, r: Record<C>, now: int)
    requires Sound(c, d)
    ensures Sound(c, Ingest(d, c.rules, c.capacity, c.test, r, now).0)
  {
    var id, kept, d' := r.body.portId, Evict(d.records, now), Ingest(d, c.rules, c.capacity, c.test, r, now).0;
    EvictSize(d.records, now);
    InsertSize(kept, id, r);
    assert d'.records == d.records || d'.records == kept || d'.records == kept[id := r];
    assert forall k :: k in kept ==> k in d.records && kept[k] == d.records[k];
  }

  lemma ApplyKeepsSound<C>(c: Config<C>, d: Directory<C>, op: Operation<C>)
    requires Sound(c, d)
    ensures Sound(c, Apply(c, d, op))
    ensures d.revoked <= Apply(c, d, op).revoked
  {
    match op
    case IngestOp(r, now) => IngestKeepsSound(c, d, r, now);
    case RevokeOp(id) => SessionPolicy.SubsetSize((d.records - {id}).Keys, d.records.Keys);
  }

  /** Every run from the empty directory stays within capacity, keys each record by its own signer,
      and holds no revoked signer. */
  lemma {:induction false} RunsAreSound<C>(c: Config<C>, ops: seq<Operation<C>>)
    ensures Sound(c, Run(c, Directory(map[], {}), ops))
    decreases |ops|
  {
    if ops != [] {
      RunsAreSound(c, ops[..|ops| - 1]);
      ApplyKeepsSound(c, Run(c, Directory(map[], {}), ops[..|ops| - 1]), ops[|ops| - 1]);
    }
  }

  lemma {:induction false} RevocationIsPermanent<C>(c: Config<C>, d: Directory<C>, ops: seq<Operation<C>>, id: PortId)
    requires Sound(c, d) && id in d.revoked
    ensures Sound(c, Run(c, d, ops)) && id in Run(c, d, ops).revoked && id !in Run(c, d, ops).records
    decreases |ops|
  {
    if ops != [] {
      RevocationIsPermanent(c, d, ops[..|ops| - 1], id);
      ApplyKeepsSound(c, Run(c, d, ops[..|ops| - 1]), ops[|ops| - 1]);
    }
  }

  ghost predicate Supersedes<C>(later: Record<C>, earlier: Record<C>) {
    later == earlier || later.body.revision > earlier.body.revision
  }

  /** Signer `id` has a record after every prefix of the run. */
  ghost predicate Retained<C>(c: Config<C>, d: Directory<C>, ops: seq<Operation<C>>, id: PortId) {
    forall n :: 0 <= n <= |ops| ==> id in Run(c, d, ops[..n]).records
  }

  /** While a signer's record is retained it is only replaced by a higher revision. */
  lemma {:induction false} NoRollbackWhileRetained<C>(c: Config<C>, d: Directory<C>, ops: seq<Operation<C>>, id: PortId)
    requires Sound(c, d) && Retained(c, d, ops, id)
    ensures id in d.records && id in Run(c, d, ops).records
    ensures Supersedes(Run(c, d, ops).records[id], d.records[id])
    decreases |ops|
  {
    assert ops[..0] == [] && ops[..|ops|] == ops;
    assert id in Run(c, d, ops[..0]).records && id in Run(c, d, ops[..|ops|]).records;
    if ops != [] {
      var n := |ops| - 1;
      var front := ops[..n];
      forall m | 0 <= m <= n
        ensures id in Run(c, d, front[..m]).records
      {
        assert front[..m] == ops[..m];
      }
      NoRollbackWhileRetained(c, d, front, id);
    }
  }

  /** A record leaves only by its own expiry or by revocation. */
  lemma RecordsLeaveByExpiryOrRevocation<C>(c: Config<C>, d: Directory<C>, op: Operation<C>, id: PortId)
    requires Sound(c, d) && id in d.records && id !in Apply(c, d, op).records
    ensures op == RevokeOp(id) || (op.IngestOp? && d.records[id].body.expiresAt <= op.now)
  {
    assert op.IngestOp? && d.records[id].body.expiresAt > op.now ==> id in Evict(d.records, op.now);
  }

  /** The two orders of the capacity test decide alike on every directory within capacity. */
  lemma CapacityTestsAgree<C>(d: Directory<C>, rules: Rules<C>, capacity: nat, r: Record<C>, now: int)
    requires |d.records| <= capacity
    ensures Ingest(d, rules, capacity, AfterEviction, r, now) == Ingest(d, rules, capacity, BeforeEviction, r, now)
  {
    EvictSize(d.records, now);
  }

  /** Rollback protection ends with the record: once a newer revision has expired and any other
      ingest has evicted it, a still-live older revision of the same signer is accepted. */
  lemma EvictionForgetsRevision<C>(c: Config<C>, d: Directory<C>, older: Record<C>, other: Record<C>, now: int)
    requires Sound(c, d) && older.body.portId in d.records && older.body.portId != other.body.portId
    requires d.records[older.body.portId].body.expiresAt <= now
    requires Verified(c.rules, older, now) && Ingest(d, c.rules, c.capacity, c.test, other, now).1
    requires |Ingest(d, c.rules, c.capacity, c.test, other, now).0.records| < c.capacity
    ensures var evicted := Ingest(d, c.rules, c.capacity, c.test, other, now).0;
            && Ingest(evicted, c.rules, c.capacity, c.test, older, now).1
            && (Conflicts(d.records[older.body.portId], older) <==>
               !Ingest(d, c.rules, c.capacity, c.test, older, now).1)
  {
    var evicted := Ingest(d, c.rules, c.capacity, c.test, other, now).0;
    EvictSize(evicted.records, now);
    EvictSize(d.records, now);
  }

  // ---------------------------------------------------------------- what a directory returns

  /** Signed by the port it names, with a positive revision, a window no longer than the rules allow and
      a content they accept. */
  ghost predicate WellSigned<C>(rules: Rules<C>, r: Record<C>) {
    && r.body.portId == PortOf(r.body.publicKey) && r.signature == Sig(r.body.publicKey, r.body)
    && 1 <= r.body.revision <= 9007199254740991
    && -9007199254740991 <= r.body.issuedAt < r.body.expiresAt <= 9007199254740991
    && r.body.expiresAt <= r.body.issuedAt + rules.lifetime
    && rules.contentOk(r.body.content)
  }

  ghost predicate AllWellSigned<C>(rules: Rules<C>, d: Directory<C>) {
    forall id :: id in d.records ==> d.records[id].body.portId == id && WellSigned(rules, d.records[id])
  }

  lemma ApplyKeepsWellSigned<C>(c: Config<C>, d: Directory<C>, op: Operation<C>)
    requires AllWellSigned(c.rules, d)
    ensures AllWellSigned(c.rules, Apply(c, d, op))
  {
  }

  /** Whatever a run retains was signed, well formed and filed under its signer. */
  lemma {:induction false} RetainedRecordsAreWellSigned<C>(c: Config<C>, ops: seq<Operation<C>>)
    ensures AllWellSigned(c.rules, Run(c, Directory(map[], {}), ops))
    decreases |ops|
  {
    if ops != [] {
      RetainedRecordsAreWellSigned(c, ops[..|ops| - 1]);
      ApplyKeepsWellSigned(c, Run(c, Directory(map[], {}), ops[..|ops| - 1]), ops[|ops| - 1]);
    }
  }

  /** After every run, a signer is found exactly while its record is retained, the signer unrevoked and
      the time inside the record's own window. */
  lemma FoundExactlyWhileCurrent<C>(c: Config<C>, ops: seq<Operation<C>>, id: PortId, now: int)
    ensures var d := Run(c, Directory(map[], {}), ops);
            Lookup(d, c.rules, id, now)
            == if id in d.records && id !in d.revoked
                 && d.records[id].body.issuedAt <= now < d.records[id].body.expiresAt
              then Some(d.records[id]) else None
  {
    RetainedRecordsAreWellSigned(c, ops);
  }

  /** Ahead of its window or at its expiry and after, a record changes nothing. */
  lemma OutsideItsWindowNothingChanges<C>(d: Directory<C>, c: Config<C>, r: Record<C>, now: int)
    requires now < r.body.issuedAt || r.body.expiresAt <= now
    ensures Ingest(d, c.rules, c.capacity, c.test, r, now) == (d, false)
    ensures Apply(c, d, IngestOp(r, now)) == d
  {
  }

  ghost function StillCurrent<C>(d: Directory<C>, now: int): map<PortId, Record<C>> {
    map id | id in d.records && now < d.records[id].body.expiresAt :: d.records[id]
  }

  lemma TakenByRules<C>(d: Directory<C>, c: Config<C>, r: Record<C>, now: int)
    requires AllWellSigned(c.rules, d) && |d.records| <= c.capacity
    ensures var id, kept := r.body.portId, Evict(d.records, now);
            Ingest(d, c.rules, c.capacity, c.test, r, now)
            == if !(WellSigned(c.rules, r) && r.body.issuedAt <= now < r.body.expiresAt && id !in d.revoked
                 && (id in d.records ==> d.records[id] == r || d.records[id].body.revision < r.body.revision))
                 then (d, false)
              else if !(id in kept || |kept| < c.capacity) then (Directory(kept, d.revoked), false)
              else (Directory(kept[id := r], d.revoked), true)
  {
    EvictSize(d.records, now);
  }

  /** After every run: a record is taken exactly when it is well signed, current, not of a revoked
      signer, newer than the retained one or that very record, and its signer is still retained or
      there is room. Taking it drops what has expired and keeps the rest. */
  lemma TakenExactlyWhen<C>(c: Config<C>, ops: seq<Operation<C>>, r: Record<C>, now: int)
    ensures var d := Run(c, Directory(map[], {}), ops);
            var id, kept := r.body.portId, StillCurrent(d, now);
            var admissible := WellSigned(c.rules, r) && r.body.issuedAt <= now < r.body.expiresAt && id !in d.revoked
              && (id in d.records ==> d.records[id] == r || d.records[id].body.revision < r.body.revision);
            var room := id in kept || |kept| < c.capacity;
            Ingest(d, c.rules, c.capacity, c.test, r, now)
            == if !admissible then (d, false)
              else if !room then (Directory(kept, d.revoked), false)
              else (Directory(kept[id := r], d.revoked), true)
  {
    var d := Run(c, Directory(map[], {}), ops);
    RunsAreSound(c, ops);
    RetainedRecordsAreWellSigned(c, ops);
    assert Evict(d.records, now) == StillCurrent(d, now);
    TakenByRules(d, c, r, now);
  }

  /** Revoking fails only for a new signer beyond the limit, which a run never exceeds. */
  lemma RevokedExactlyWhen<C>(c: Config<C>, d: Directory<C>, id: PortId)
    ensures var refused := c.revocationCap.Some? && id !in d.revoked && |d.revoked| >= c.revocationCap.value;
            var kept := map k | k in d.records && k != id :: d.records[k];
            Revoke(d, c.revocationCap, id)
            == if refused then (d, false) else (Directory(kept, d.revoked + {id}), true)
  {
    assert d.records - {id} == map k | k in d.records && k != id :: d.records[k];
  }

  lemma {:induction false} RevocationsStayWithinTheirLimit<C>(c: Config<C>, ops: seq<Operation<C>>)
    requires c.revocationCap.Some?
    ensures |Run(c, Directory(map[], {}), ops).revoked| <= c.revocationCap.value
    decreases |ops|
  {
    if ops != [] {
      RevocationsStayWithinTheirLimit(c, ops[..|ops| - 1]);
      var d, op := Run(c, Directory(map[], {}), ops[..|ops| - 1]), ops[|ops| - 1];
      if op.RevokeOp? && op.id in d.revoked { assert d.revoked + {op.id} == d.revoked; }
    }
  }

  // ---------------------------------------------------------------- what a peer record may say

  ghost predicate LabelPattern(s: string) {
    1 <= |s| <= 64 && s[0] in SMALL && forall c :: c in s[1..] ==> c in SMALL || c in DIGITS || c in ".-"
  }

  ghost predicate Number(s: string) { s != "" && forall c :: c in s ==> c in DIGITS }

  ghost predicate VersionPattern(s: string) {
    exists a, b, c :: Number(a) && Number(b) && Number(c) && s == a + "." + b + "." + c
  }

  lemma LabelsFit(s: string)
    ensures Label(s) <==> LabelPattern(s)
  {
    forall c: char
      ensures c in SMALL <==> InRange(c, 'a', 'z')
      ensures c in DIGITS <==> InRange(c, '0', '9')
      ensures c in ".-" <==> c == '.' || c == '-'
    {
      SmallRange(c);
      DigitRange(c);
      assert ".-"[0] == '.' && ".-"[1] == '-';
    }
    assert s != "" ==> forall i :: 1 <= i < |s| ==> s[i] in s[1..];
  }

  lemma NumbersFit(s: string)
    ensures Digits(s) <==> Number(s)
  {
    forall c: char
      ensures c in DIGITS <==> InRange(c, '0', '9')
    {
      DigitRange(c);
    }
    assert forall i :: 0 <= i < |s| ==> s[i] in s;
  }

  lemma DotsOf(a: string, b: string, c: string, s: string)
    requires s == a + "." + b + "." + c
    ensures var i, j := |a|, |a| + 1 + |b|;
            s[i] == '.' && s[j] == '.' && s[..i] == a && s[i + 1..j] == b && s[j + 1..] == c
  {
  }

  lemma AroundDots(s: string, i: nat, j: nat)
    requires i < j < |s| && s[i] == '.' && s[j] == '.'
    ensures s == s[..i] + "." + s[i + 1..j] + "." + s[j + 1..]
  {
    assert s[..i] + "." == s[..i + 1];
    assert s[..i + 1] + s[i + 1..j] == s[..j];
    assert s[..j] + "." == s[..j + 1];
  }

  lemma Versioned(a: string, b: string, c: string, s: string)
    requires Number(a) && Number(b) && Number(c) && s == a + "." + b + "." + c
    ensures VersionPattern(s)
  {
  }

  lemma VersionFits(s: string)
    requires Version(s)
    ensures VersionPattern(s)
  {
    var i, j :| 0 <= i < j < |s| && s[i] == '.' && s[j] == '.'
      && Digits(s[..i]) && Digits(s[i + 1..j]) && Digits(s[j + 1..]);
    NumbersFit(s[..i]); NumbersFit(s[i + 1..j]); NumbersFit(s[j + 1..]);
    AroundDots(s, i, j);
    Versioned(s[..i], s[i + 1..j], s[j + 1..], s);
  }

  lemma FitIsVersion(s: string)
    requires VersionPattern(s)
    ensures Version(s)
  {
    var a, b, c :| Number(a) && Number(b) && Number(c) && s == a + "." + b + "." + c;
    var i, j := |a|, |a| + 1 + |b|;
    NumbersFit(a); NumbersFit(b); NumbersFit(c);
    DotsOf(a, b, c, s);
    assert Digits(s[..i]) && Digits(s[i + 1..j]) && Digits(s[j + 1..]);
  }

  lemma VersionsFit(s: string)
    ensures Version(s) <==> VersionPattern(s)
  {
    if Version(s) { VersionFits(s); }
    if VersionPattern(s) { FitIsVersion(s); }
  }

  ghost predicate ComponentPattern(c: Component) {
    LabelPattern(c.id) && VersionPattern(c.version) && c.evidenceStatus == "DECLARED"
  }

  /** The content test of a peer record, letter by letter: up to sixteen different capability labels and
      two declared components. */
  lemma PeerContentsFitTheirPattern(c: PeerContent)
    ensures PeerContentOk(c) <==>
              && 1 <= |c.capabilities| <= 16 && NoDuplicates(c.capabilities)
              && (forall s :: s in c.capabilities ==> LabelPattern(s))
              && ComponentPattern(c.tesseractEngine) && ComponentPattern(c.boundWorker)
  {
    forall s: string
      ensures Label(s) <==> LabelPattern(s)
    {
      LabelsFit(s);
    }
    VersionsFit(c.tesseractEngine.version);
    VersionsFit(c.boundWorker.version);
  }
}
