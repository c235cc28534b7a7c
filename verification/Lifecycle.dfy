/** LifecycleStore of strata_network.py: a transaction projection and its append-only event chain. */
module Lifecycle {
  import opened Identity
  import opened HashChain
  import Numerals = Text

  /** The JSON values an event holds. */
  datatype Val = Null | Num(n: int) | Bool(b: bool) | Frac(r: real) | Text(s: string) | Texts(items: seq<string>)
    | Hash(h: Hashed)

  type Event = map<string, Val>
  type Hashed = Digest<map<string, Val>>

  /** What json.loads makes of the event_json column. */
  datatype Raw = Broken | NotAnObject | Object(event: Event)

  datatype EventRow = EventRow(eventId: Val, txid: string, raw: Raw, hash: Hashed, previous: Hashed)

  datatype Projection = Projection(
    version: int, lastHash: Hashed, status: string, retries: int, blocker: Val, reconciliation: string)

  /** The tables strata_transactions and strata_events, the latter in sequence order. */
  datatype Store = Store(transactions: map<string, Projection>, events: seq<EventRow>)

  const EMPTY: Store := Store(map[], [])

  /** The entries an event copies from its envelope; neither of these two is one of them. */
  type Copied = e: Event | "sequence" !in e && "event_hash" !in e witness map[]

  datatype Envelope = Envelope(txid: string, copied: Copied)

  /** The arguments of transition, with the fresh event id and the clock made explicit. */
  datatype Change = Change(
    newState: string, reason: string, expected: Option<int>, retryIncrement: int, blocker: Val, reconciliation: string,
    extra: Event, eventId: string, now: string)

  // ---------------------------------------------------------------- operations as functions

  function HashVal(h: Hashed): Val { if h.NoHash? then Null else Hash(h) }

  /** The event a transition records: envelope, then its own entries, then extra on top. */
  function EventBody(env: Envelope, p: Projection, c: Change): Event {
    env.copied
    + map["event_id" := Text(c.eventId), "timestamp" := Text(c.now), "sequence" := Num(p.version + 1),
          "previous_state" := Text(p.status), "new_state" := Text(c.newState), "reason_code" := Text(c.reason),
          "reconciliation_state" := Text(c.reconciliation), "previous_event_hash" := HashVal(p.lastHash)]
    + c.extra
  }

  function DigitsText(ds: seq<Numerals.Digit>): (r: string)
    ensures |r| == |ds|
  {
    seq(|ds|, i requires 0 <= i < |ds| => (ds[i] as int + 48) as char)
  }

  function IntText(n: int): string {
    if n < 0 then "-" + DigitsText(Numerals.Decimal(-n)) else DigitsText(Numerals.Decimal(n))
  }

  /** What the TEXT column event_id keeps of a value: numbers become their text; None where binding it
      or the NOT NULL constraint fails. */
  function ColumnText(v: Val): Option<Val> {
    match v
    case Null => None
    case Texts(_) => None
    case Num(n) => if -0x8000_0000_0000_0000 <= n <= 0x7FFF_FFFF_FFFF_FFFF then Some(Text(IntText(n))) else None
    case Bool(b) => Some(Text(if b then "1" else "0"))
    case _ => Some(v)
  }

  function NewRow(env: Envelope, p: Projection, c: Change): EventRow {
    var event := EventBody(env, p, c);
    var hash := DigestOf(event, p.lastHash);
    var id := ColumnText(event["event_id"]);
    EventRow(if id.Some? then id.value else Null, env.txid, Object(event["event_hash" := Hash(hash)]), hash, p.lastHash)
  }

  function NewProjection(p: Projection, c: Change, hash: Hashed): Projection {
    Projection(p.version + 1, hash, c.newState, p.retries + c.retryIncrement, c.blocker, c.reconciliation)
  }

  /** event_id is UNIQUE NOT NULL; Null also stands for a value that cannot be bound. */
  predicate IdIsFree(events: seq<EventRow>, id: Val) {
    id != Null && forall i :: 0 <= i < |events| ==> events[i].eventId != id
  }

  /** The first transaction of create; a repeated primary key rolls back. */
  function Insert(s: Store, env: Envelope): (Store, bool) {
    if env.txid in s.transactions then (s, false)
    else (s.(transactions := s.transactions[env.txid := Projection(0, NoHash, "received", 0, Null, "pending")]), true)
  }

  /** transition; None stands for any of its exceptions, after which nothing has changed. */
  function Transition(s: Store, env: Envelope, c: Change): (Store, Option<Hashed>) {
    if env.txid !in s.transactions then (s, None)
    else
      var p := s.transactions[env.txid];
      if c.expected.Some? && c.expected.value != p.version then (s, None)
      else
        var row := NewRow(env, p, c);
        if !IdIsFree(s.events, row.eventId) then (s, None)
        else (Store(s.transactions[env.txid := NewProjection(p, c, row.hash)], s.events + [row]), Some(row.hash))
  }

  // ---------------------------------------------------------------- verify

  function RowsOf(events: seq<EventRow>, txid: string): seq<EventRow> {
    if events == [] then []
    else
      var last := events[|events| - 1];
      RowsOf(events[..|events| - 1], txid) + if last.txid == txid then [last] else []
  }

  /** Python's == between a JSON value and an int; True equals 1. */
  predicate EqualsInt(v: Val, n: int) {
    match v
    case Num(m) => m == n
    case Bool(b) => n == if b then 1 else 0
    case Frac(r) => r == n as real
    case _ => false
  }

  function Popped(event: Event): Event { event - {"event_hash"} }

  /** A row decodes to a JSON object holding the hash and the sequence number it should. */
  predicate SelfConsistent(row: EventRow, sequence: int) {
    && row.raw.Object? && "event_hash" in row.raw.event
    && var event := Popped(row.raw.event);
       "sequence" in event && EqualsInt(event["sequence"], sequence) && row.raw.event["event_hash"] == Hash(row.hash)
  }

  function Decoded(row: EventRow): Link<Event> {
    Link(if row.raw.Object? then Popped(row.raw.event) else map[], row.hash, row.previous)
  }

  /** Raised is the TypeError or AttributeError of popping from something that is no object. */
  datatype Verdict = Accepted | Refused | Raised

  function CheckRow(row: EventRow, sequence: int, previous: Hashed): Verdict {
    if row.raw.NotAnObject? then Raised
    else if SelfConsistent(row, sequence) && Linked(Decoded(row), previous) then Accepted else Refused
  }

  function RowTail(rows: seq<EventRow>): Hashed { if rows == [] then NoHash else rows[|rows| - 1].hash }

  function CheckRows(rows: seq<EventRow>): Verdict {
    if rows == [] then Accepted
    else
      var n := |rows| - 1;
      var before := CheckRows(rows[..n]);
      if before.Accepted? then CheckRow(rows[n], n + 1, RowTail(rows[..n])) else before
  }

  predicate ProjectionMatches(s: Store, txid: string, rows: seq<EventRow>) {
    && rows != [] && txid in s.transactions
    && s.transactions[txid].version == |rows| && s.transactions[txid].lastHash == RowTail(rows)
  }

  function Verify(s: Store, txid: string): Verdict {
    var rows := RowsOf(s.events, txid);
    var checked := CheckRows(rows);
    if !checked.Accepted? then checked else if ProjectionMatches(s, txid, rows) then Accepted else Refused
  }

  lemma {:induction false} FirstFailureDecides(rows: seq<EventRow>, k: nat)
    requires k <= |rows| && !CheckRows(rows[..k]).Accepted?
    ensures CheckRows(rows) == CheckRows(rows[..k])
  {
    if k == |rows| {
      assert rows[..k] == rows;
    } else {
      var front := rows[..|rows| - 1];
      assert front[..k] == rows[..k];
      FirstFailureDecides(front, k);
    }
  }

  class LifecycleStore {
    var transactions: map<string, Projection>
    var events: seq<EventRow>

    function View(): Store
      reads this
    {
      Store(transactions, events)
    }

    constructor ()
      ensures View() == EMPTY
    {
      transactions, events := map[], [];
    }

    method InsertTransaction(env: Envelope) returns (ok: bool)
      modifies this`transactions
      ensures (View(), ok) == Insert(old(View()), env)
    {
      ok := env.txid !in transactions;
      if ok { transactions := transactions[env.txid := Projection(0, NoHash, "received", 0, Null, "pending")]; }
    }

    /** Writes the event before the projection, and takes it back when the id is not unique. */
    method Move(env: Envelope, c: Change) returns (hash: Option<Hashed>)
      modifies this
      ensures (View(), hash) == Transition(old(View()), env, c)
    {
      if env.txid !in transactions { return None; }
      var p := transactions[env.txid];
      if c.expected.Some? && p.version != c.expected.value { return None; }
      var row := NewRow(env, p, c);
      var free := IdIsFree(events, row.eventId);
      if !free { return None; }
      events := events + [row];
      transactions := transactions[env.txid := NewProjection(p, c, row.hash)];
      return Some(row.hash);
    }

    /** Two transactions: a failure of the second leaves the first committed. */
    method Create(env: Envelope, eventId: string, now: string) returns (hash: Option<Hashed>)
      modifies this
      ensures var inserted := Insert(old(View()), env);
              if inserted.1 then (View(), hash) == Transition(inserted.0, env, CreateChange(eventId, now))
              else View() == old(View()) && hash == None
    {
      var ok := InsertTransaction(env);
      if !ok { return None; }
      hash := Move(env, CreateChange(eventId, now));
    }

    method VerifyTransaction(txid: string) returns (verdict: Verdict)
      ensures verdict == Verify(View(), txid)
    {
      var rows := RowsOf(events, txid);
      var previous, expected := NoHash, 1;
      assert rows[..|rows|] == rows;
      for k := 0 to |rows|
        invariant previous == RowTail(rows[..k]) && expected == k + 1 && CheckRows(rows[..k]) == Accepted
      {
        assert rows[..k + 1][..k] == rows[..k];
        var row := rows[k];
        if row.raw.NotAnObject? { FirstFailureDecides(rows, k + 1); return Raised; }
        if !SelfConsistent(row, expected) || !Linked(Decoded(row), previous) {
          FirstFailureDecides(rows, k + 1);
          return Refused;
        }
        previous, expected := row.hash, expected + 1;
      }
      if |rows| > 0 && txid in transactions && transactions[txid].version == |rows|
        && transactions[txid].lastHash == previous {
        return Accepted;
      }
      return Refused;
    }
  }

  function CreateChange(eventId: string, now: string): Change {
    Change("received", "request-received", None, 0, Null, "pending", map[], eventId, now)
  }

  // ---------------------------------------------------------------- runs

  datatype Op = InsertOp(env: Envelope) | MoveOp(env: Envelope, change: Change)

  /** Operations of any number of interleaved creates and transitions; a create is an InsertOp and
      later a MoveOp. */
  function Step(s: Store, op: Op): Store {
    match op
    case InsertOp(env) => Insert(s, env).0
    case MoveOp(env, c) => Transition(s, env, c).0
  }

  function Run(ops: seq<Op>): Store {
    if ops == [] then EMPTY else Step(Run(ops[..|ops| - 1]), ops[|ops| - 1])
  }

  /** extra leaves event_hash alone, and sequence too unless it repeats the right number. */
  predicate Harmless(extra: Event, sequence: int) {
    "event_hash" !in extra && ("sequence" in extra ==> EqualsInt(extra["sequence"], sequence))
  }

  /** This operation adds an event to txid whose extra is harmful. */
  predicate Spoils(s: Store, op: Op, txid: string) {
    && op.MoveOp? && op.env.txid == txid && Transition(s, op.env, op.change).1.Some?
    && !Harmless(op.change.extra, s.transactions[txid].version + 1)
  }

  predicate Clean(ops: seq<Op>, txid: string) {
    ops == [] || (Clean(ops[..|ops| - 1], txid) && !Spoils(Run(ops[..|ops| - 1]), ops[|ops| - 1], txid))
  }

  /** The projection always agrees with the events. */
  predicate Consistent(s: Store, txid: string) {
    var rows := RowsOf(s.events, txid);
    if txid in s.transactions then s.transactions[txid].version == |rows|
      && s.transactions[txid].lastHash == RowTail(rows)
    else rows == []
  }

  lemma BodyEntries(env: Envelope, p: Projection, c: Change)
    ensures var body := EventBody(env, p, c);
            && "sequence" in body
            && body["sequence"] == (if "sequence" in c.extra then c.extra["sequence"] else Num(p.version + 1))
            && ("event_hash" in body <==> "event_hash" in c.extra)
  {
  }

  /** A row just written passes the check exactly when its extra was harmless. */
  lemma NewRowChecks(env: Envelope, p: Projection, c: Change)
    ensures CheckRow(NewRow(env, p, c), p.version + 1, p.lastHash)
            == if Harmless(c.extra, p.version + 1) then Accepted else Refused
  {
    var body := EventBody(env, p, c);
    var row := NewRow(env, p, c);
    BodyEntries(env, p, c);
    var popped := Popped(row.raw.event);
    assert popped["sequence"] == body["sequence"];
    if "event_hash" in c.extra {
      assert "event_hash" !in popped && popped != body;
    } else {
      assert popped == body;
    }
  }

  lemma StepOnOther(s: Store, op: Op, txid: string)
    requires op.env.txid != txid
    ensures RowsOf(Step(s, op).events, txid) == RowsOf(s.events, txid)
    ensures txid in Step(s, op).transactions <==> txid in s.transactions
    ensures txid in s.transactions ==> Step(s, op).transactions[txid] == s.transactions[txid]
  {
    var events := Step(s, op).events;
    assert |events| > |s.events| ==> events[..|events| - 1] == s.events;
  }

  /** What one committed transition does to its own rows and to their check. */
  lemma MoveAppends(s: Store, env: Envelope, c: Change)
    requires Consistent(s, env.txid) && Transition(s, env, c).1.Some?
    ensures var s' := Transition(s, env, c).0;
            var p := s.transactions[env.txid];
            && RowsOf(s'.events, env.txid) == RowsOf(s.events, env.txid) + [NewRow(env, p, c)]
            && Consistent(s', env.txid)
            && CheckRows(RowsOf(s'.events, env.txid))
               == (if CheckRows(RowsOf(s.events, env.txid)) == Accepted && !Harmless(c.extra, p.version + 1)
                 then Refused
                   else CheckRows(RowsOf(s.events, env.txid)))
  {
    var s' := Transition(s, env, c).0;
    var p := s.transactions[env.txid];
    var rows := RowsOf(s.events, env.txid);
    var row := NewRow(env, p, c);
    assert s'.events[..|s.events|] == s.events;
    assert (rows + [row])[..|rows|] == rows;
    NewRowChecks(env, p, c);
  }

  lemma {:induction false} RunInvariant(ops: seq<Op>, txid: string)
    ensures Consistent(Run(ops), txid)
    ensures CheckRows(RowsOf(Run(ops).events, txid)) == if Clean(ops, txid) then Accepted else Refused
  {
    if ops != [] {
      var before, op := Run(ops[..|ops| - 1]), ops[|ops| - 1];
      RunInvariant(ops[..|ops| - 1], txid);
      if op.env.txid != txid {
        StepOnOther(before, op, txid);
      } else if op.MoveOp? && Transition(before, op.env, op.change).1.Some? {
        MoveAppends(before, op.env, op.change);
      }
    }
  }

  /** After every run the projection's version is the number of events and its last hash their
      tail, and verify accepts exactly the transactions that have an event and whose every committed
      extra left sequence and event_hash alone. */
  lemma VerifyAcceptsExactlyCleanRuns(ops: seq<Op>, txid: string)
    ensures var s := Run(ops);
            var rows := RowsOf(s.events, txid);
            && (txid in s.transactions ==>
                  s.transactions[txid].version == |rows| && s.transactions[txid].lastHash == RowTail(rows))
            && (txid !in s.transactions ==> rows == [])
            && Verify(s, txid) == if rows != [] && Clean(ops, txid) then Accepted else Refused
  {
    RunInvariant(ops, txid);
  }

  lemma {:induction false} CleanBefore(ops: seq<Op>, more: seq<Op>, txid: string)
    ensures Clean(ops + more, txid) ==> Clean(ops, txid)
  {
    if more == [] {
      assert ops + more == ops;
    } else {
      assert (ops + more)[..|ops + more| - 1] == ops + more[..|more| - 1];
      CleanBefore(ops, more[..|more| - 1], txid);
    }
  }

  /** One committed event with a harmful extra makes verify refuse its transaction after every
      continuation of the run. */
  lemma HarmfulExtraSpoilsForGood(ops: seq<Op>, env: Envelope, c: Change, more: seq<Op>)
    requires Spoils(Run(ops), MoveOp(env, c), env.txid)
    ensures Verify(Run(ops + [MoveOp(env, c)] + more), env.txid) == Refused
  {
    var one := ops + [MoveOp(env, c)];
    assert one[..|ops|] == ops && one[|ops|] == MoveOp(env, c);
    assert !Clean(one, env.txid);
    CleanBefore(one, more, env.txid);
    VerifyAcceptsExactlyCleanRuns(one + more, env.txid);
  }

  lemma InsertedThenMoved(env: Envelope, c: Change)
    requires c.expected.None? && "event_id" !in c.extra && "event_hash" in c.extra
    ensures Spoils(Insert(EMPTY, env).0, MoveOp(env, c), env.txid)
  {
    var s := Insert(EMPTY, env).0;
    assert EventBody(env, s.transactions[env.txid], c)["event_id"] == Text(c.eventId);
  }

  /** Such runs exist from the empty store on: any first transition whose extra names event_hash. */
  lemma EventHashInExtraSpoils(env: Envelope, c: Change, more: seq<Op>)
    requires c.expected.None? && "event_id" !in c.extra && "event_hash" in c.extra
    ensures Verify(Run([InsertOp(env), MoveOp(env, c)] + more), env.txid) == Refused
  {
    var ops := [InsertOp(env)];
    assert ops[..0] == [] && ops[0] == InsertOp(env) && Run([]) == EMPTY;
    assert Run(ops) == Insert(EMPTY, env).0;
    InsertedThenMoved(env, c);
    HarmfulExtraSpoilsForGood(ops, env, c, more);
    assert ops + [MoveOp(env, c)] + more == [InsertOp(env), MoveOp(env, c)] + more;
  }

  /** The second transaction of create, on a transaction that has no event yet. */
  lemma CreateMoves(s: Store, env: Envelope, eventId: string, now: string)
    requires env.txid in s.transactions && Consistent(s, env.txid) && s.transactions[env.txid].version == 0
    requires IdIsFree(s.events, Text(eventId))
    ensures Verify(Transition(s, env, CreateChange(eventId, now)).0, env.txid) == Accepted
  {
    var c := CreateChange(eventId, now);
    assert NewRow(env, s.transactions[env.txid], c).eventId == Text(eventId);
    MoveAppends(s, env, c);
  }

  /** Between the two transactions of create the new transaction does not verify; after the second
      it does. */
  lemma CreateHasAGap(ops: seq<Op>, env: Envelope, eventId: string, now: string)
    requires env.txid !in Run(ops).transactions && IdIsFree(Run(ops).events, Text(eventId))
    ensures var one := Insert(Run(ops), env).0;
            && Verify(one, env.txid) == Refused
            && Verify(Transition(one, env, CreateChange(eventId, now)).0, env.txid) == Accepted
  {
    RunInvariant(ops, env.txid);
    CreateMoves(Insert(Run(ops), env).0, env, eventId, now);
  }

  // ---------------------------------------------------------------- tamper evidence

  function DecodedRows(rows: seq<EventRow>): (links: seq<Link<Event>>)
    ensures |links| == |rows| && forall k :: 0 <= k < |rows| ==> links[k] == Decoded(rows[k])
  {
    seq(|rows|, k requires 0 <= k < |rows| => Decoded(rows[k]))
  }

  lemma {:induction false} AcceptedRowsAreChained(rows: seq<EventRow>)
    requires CheckRows(rows) == Accepted
    ensures Chained(DecodedRows(rows)) && Tail(DecodedRows(rows)) == RowTail(rows)
  {
    if rows != [] {
      var n := |rows| - 1;
      AcceptedRowsAreChained(rows[..n]);
      assert DecodedRows(rows)[..n] == DecodedRows(rows[..n]);
      ChainedPrefix(DecodedRows(rows));
    }
  }

  /** Whatever is done to the event table behind a projection row that stays as a run left it: if
      verify still accepts, every event decodes as before, with the same hash and link, and none was
      added, dropped or moved. */
  lemma AcceptedTablesAgree(ops: seq<Op>, altered: Store, txid: string)
    requires Clean(ops, txid) && txid in Run(ops).transactions && txid in altered.transactions
    requires altered.transactions[txid] == Run(ops).transactions[txid]
    requires Verify(altered, txid) == Accepted
    ensures DecodedRows(RowsOf(altered.events, txid)) == DecodedRows(RowsOf(Run(ops).events, txid))
  {
    RunInvariant(ops, txid);
    AcceptedRowsAreChained(RowsOf(Run(ops).events, txid));
    AcceptedRowsAreChained(RowsOf(altered.events, txid));
    SameTailSameChain(DecodedRows(RowsOf(altered.events, txid)), DecodedRows(RowsOf(Run(ops).events, txid)));
  }
}
