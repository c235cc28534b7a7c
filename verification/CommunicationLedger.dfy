/** CommunicationLedger of communications.py: one append-only log of hash-chained events for each
    message, with callback ids that make a repeated callback return the first event. */
module CommunicationLedger {
  import opened Identity
  import opened HashChain

  datatype RequestStatus = Created | Validated | Authorized | Rejected | RequestCancelled | RequestExpired
  datatype ProviderStatus = AcceptedByProvider | PolicyChecked | Scheduled | Queued | Routing | SubmittedToRail
                          | PartiallyCompleted | Completed | Failed | Retrying | Escalated | Recovered | Cancelled
  datatype RailStatus = NotRequired | NotSubmitted | Submitted | RailAccepted | RailQueued | RailProcessing | RailSent
                      | RailDelivered | RailFailed | RailRejected | RailExpired | RailUnknown
  datatype RecipientStatus =
    | NotObserved | Received | Opened | Acknowledged | Responded | Declined | Unreachable | RecipientUnknown
  datatype ReconciliationStatus =
    | Pending | ProviderReported | RailReportedStatus | RecipientConfirmedStatus | ReconciledStatus | DisputedStatus
    | Inconclusive | Reversed
  datatype EvidenceStatus = NotRecorded | Recorded | HashVerified | SignatureVerified | ReceiptVerified
    | IndependentlyVerified | Invalid
  datatype Truth = Requested | InternallyObserved | G3tReported | RailReported | RecipientConfirmed | Reconciled
                 | ExternallyVerified | Disputed | Unknown

  datatype State = State(
    request: RequestStatus, provider: ProviderStatus, rail: RailStatus, recipient: RecipientStatus,
    reconciliation: ReconciliationStatus, evidence: EvidenceStatus, truth: Truth)

  /** The arguments of append that end up in the event besides its state, with the fresh event id
      and the clock made explicit. */
  datatype Details = Details(
    eventId: string, timestamp: string, attempt: int, reason: string, copied: map<string, string>)

  /** The event without its evidence_hash, which is hashed as "pending". */
  datatype Body = Event(message: string, details: Details, previous: Option<State>, next: State) | Foreign(id: nat)

  type Hashed = Digest<Body>

  /** The event_json column: unusable text, or an object with its stored evidence hash. A Foreign
      body is an object of any shape that append does not write. */
  datatype Raw = Broken | Object(body: Body, stored: Hashed)

  datatype Row = Row(
    eventId: string, callback: Option<string>, message: string, raw: Raw, hash: Hashed, previous: Hashed)

  type Log = seq<Row>

  // ---------------------------------------------------------------- append as a function

  /** _validate: None when the transition may be recorded, and otherwise which rule it breaks. */
  datatype Rule = RecipientEvidence | ReconciliationTruth | IndependentEvidence | FailureReason | ConflictingRail

  function Validate(previous: Option<State>, next: State, reason: string): Option<Rule> {
    if next.recipient.Acknowledged?
      && !(next.truth.RecipientConfirmed? || next.truth.Reconciled? || next.truth.ExternallyVerified?)
    then Some(RecipientEvidence)
    else if next.reconciliation.ReconciledStatus? && !(next.truth.Reconciled? || next.truth.ExternallyVerified?)
    then Some(ReconciliationTruth)
    else if next.truth.ExternallyVerified? && !next.evidence.IndependentlyVerified? then Some(IndependentEvidence)
    else if next.provider.Failed? && reason == "" then Some(FailureReason)
    else if previous.Some? && next.rail != previous.value.rail && next.reconciliation.ProviderReported?
      then Some(ConflictingRail)
    else None
  }

  function RowsOf(log: Log, message: string): seq<Row> {
    if log == [] then []
    else
      var last := log[|log| - 1];
      RowsOf(log[..|log| - 1], message) + if last.message == message then [last] else []
  }

  /** The state the last event of a message left behind, as `events` decodes it. */
  function StateAfter(rows: seq<Row>): Option<State> {
    if rows == [] then None
    else
      var raw := rows[|rows| - 1].raw;
      if raw.Object? && raw.body.Event? then Some(raw.body.next) else None
  }

  function StoredAfter(rows: seq<Row>): Hashed {
    if rows == [] then NoHash
    else
      var raw := rows[|rows| - 1].raw;
      if raw.Object? then raw.stored else NoHash
  }

  function NewRow(log: Log, message: string, next: State, details: Details, callback: Option<string>): Row {
    var prior := RowsOf(log, message);
    var body := Event(message, details, StateAfter(prior), next);
    var hash := DigestOf(body, StoredAfter(prior));
    Row(details.eventId, callback, message, Object(body, hash), hash, StoredAfter(prior))
  }

  /** event_id and callback_id are UNIQUE; any number of rows may have no callback id. */
  predicate Insertable(log: Log, row: Row) {
    forall i :: 0 <= i < |log| ==>
      log[i].eventId != row.eventId && (row.callback.None? || log[i].callback != row.callback)
  }

  /** fetchone by callback id. */
  function FindCallback(log: Log, callback: Option<string>): Option<Row> {
    if log == [] then None
    else if log[0].callback == callback then Some(log[0]) else FindCallback(log[1..], callback)
  }

  datatype Outcome = Appended(row: Row) | Existing(row: Row) | Invalid(rule: Rule) | Conflict

  function Append(log: Log, message: string, next: State, details: Details, callback: Option<string>): (Log, Outcome) {
    var verdict := Validate(StateAfter(RowsOf(log, message)), next, details.reason);
    if verdict.Some? then (log, Outcome.Invalid(verdict.value))
    else
      var row := NewRow(log, message, next, details, callback);
      if Insertable(log, row) then (log + [row], Appended(row))
      else if callback.None? || callback.value == "" then (log, Conflict)
      else match FindCallback(log, callback)
        case Some(first) => (log, Existing(first))
        case None => (log, Conflict)
  }

  // ---------------------------------------------------------------- verify

  predicate SelfConsistent(row: Row) { row.raw.Object? && row.raw.stored == row.hash }

  function Decoded(row: Row): Link<Body> {
    Link(if row.raw.Object? then row.raw.body else Foreign(0), row.hash, row.previous)
  }

  function DecodedRows(rows: seq<Row>): (links: seq<Link<Body>>)
    ensures |links| == |rows| && forall k :: 0 <= k < |rows| ==> links[k] == Decoded(rows[k])
  {
    seq(|rows|, k requires 0 <= k < |rows| => Decoded(rows[k]))
  }

  /** Every row is self-consistent and the rows are one hash chain. */
  predicate Verifies(rows: seq<Row>) {
    (forall k :: 0 <= k < |rows| ==> SelfConsistent(rows[k])) && Chained(DecodedRows(rows))
  }

  class Ledger {
    var log: Log

    constructor ()
      ensures log == []
    {
      log := [];
    }

    method AppendEvent(message: string, next: State, details: Details, callback: Option<string>)
        returns (outcome: Outcome)
      modifies this
      ensures (log, outcome) == Append(old(log), message, next, details, callback)
    {
      var prior := RowsOf(log, message);
      var broken := Validate(StateAfter(prior), next, details.reason);
      if broken.Some? { return Outcome.Invalid(broken.value); }
      var row := NewRow(log, message, next, details, callback);
      var unique := Insertable(log, row);
      if unique {
        log := log + [row];
        return Appended(row);
      }
      if callback.Some? && callback.value != "" {
        var first := FindCallback(log, callback);
        if first.Some? { return Existing(first.value); }
      }
      return Conflict;
    }

    method Verify(message: string) returns (ok: bool)
      ensures ok <==> Verifies(RowsOf(log, message))
    {
      var rows := RowsOf(log, message);
      ghost var links := DecodedRows(rows);
      var previous := NoHash;
      for k := 0 to |rows|
        invariant previous == Tail(links[..k])
        invariant forall j :: 0 <= j < k ==> SelfConsistent(rows[j]) && Linked(links[j], Tail(links[..j]))
      {
        if !SelfConsistent(rows[k]) || !Linked(Decoded(rows[k]), previous) { return false; }
        previous := rows[k].hash;
      }
      return true;
    }
  }

  // ---------------------------------------------------------------- runs of appends

  datatype Op = Op(message: string, next: State, details: Details, callback: Option<string>)

  function Step(log: Log, op: Op): Log { Append(log, op.message, op.next, op.details, op.callback).0 }

  function Run(ops: seq<Op>): Log {
    if ops == [] then [] else Step(Run(ops[..|ops| - 1]), ops[|ops| - 1])
  }

  /** What the truth-promotion rules mean for one recorded event, whatever came before it. */
  predicate Truthful(body: Body) {
    && body.Event?
    && var next := body.next;
       && (next.recipient == Acknowledged ==> next.truth in {RecipientConfirmed, Reconciled, ExternallyVerified})
       && (next.reconciliation == ReconciledStatus ==> next.truth in {Reconciled, ExternallyVerified})
       && (next.truth == ExternallyVerified ==> next.evidence == IndependentlyVerified)
       && (next.provider == Failed ==> body.details.reason != "")
       && (body.previous.Some? && next.reconciliation == ProviderReported ==> next.rail == body.previous.value.rail)
  }

  /** The k-th event of a message is truthful and starts in the state its predecessor left. */
  predicate EventInPlace(rows: seq<Row>, k: nat)
    requires k < |rows|
  {
    && rows[k].raw.Object? && Truthful(rows[k].raw.body)
    && rows[k].raw.body.message == rows[k].message
    && rows[k].raw.body.previous == StateAfter(rows[..k])
    && (k > 0 ==> rows[k].raw.body.previous.Some?)
  }

  predicate InPlace(rows: seq<Row>) { forall k :: 0 <= k < |rows| ==> EventInPlace(rows, k) }

  lemma ValidMeansTruthful(message: string, details: Details, previous: Option<State>, next: State)
    ensures Validate(previous, next, details.reason).None? <==> Truthful(Event(message, details, previous, next))
  {
  }

  lemma GrowVerifies(rows: seq<Row>, row: Row)
    requires Verifies(rows) && SelfConsistent(row) && Linked(Decoded(row), Tail(DecodedRows(rows)))
    ensures Verifies(rows + [row])
  {
    var links := DecodedRows(rows + [row]);
    assert links[..|rows|] == DecodedRows(rows);
    ChainedPrefix(links);
  }

  lemma GrowInPlace(rows: seq<Row>, row: Row)
    requires InPlace(rows) && EventInPlace(rows + [row], |rows|)
    ensures InPlace(rows + [row])
  {
    var all := rows + [row];
    forall k | 0 <= k < |rows|
      ensures EventInPlace(all, k)
    {
      assert all[..k] == rows[..k] && EventInPlace(rows, k);
    }
  }

  lemma AppendedVerifies(log: Log, op: Op)
    requires Append(log, op.message, op.next, op.details, op.callback).1.Appended?
    requires Verifies(RowsOf(log, op.message)) && InPlace(RowsOf(log, op.message))
    ensures Verifies(RowsOf(Step(log, op), op.message)) && InPlace(RowsOf(Step(log, op), op.message))
  {
    var rows := RowsOf(log, op.message);
    var row := NewRow(log, op.message, op.next, op.details, op.callback);
    assert (log + [row])[..|log|] == log;
    assert (rows + [row])[..|rows|] == rows;
    ValidMeansTruthful(op.message, op.details, StateAfter(rows), op.next);
    if rows != [] {
      assert SelfConsistent(rows[|rows| - 1]) && EventInPlace(rows, |rows| - 1);
    }
    assert StoredAfter(rows) == Tail(DecodedRows(rows));
    GrowVerifies(rows, row);
    GrowInPlace(rows, row);
  }

  lemma StepOnOthers(log: Log, op: Op, message: string)
    requires op.message != message || !Append(log, op.message, op.next, op.details, op.callback).1.Appended?
    ensures RowsOf(Step(log, op), message) == RowsOf(log, message)
  {
    var after := Step(log, op);
    assert |after| > |log| ==> after[..|log|] == log;
  }

  /** In every run of appends, repeated and failing ones included, each message's rows verify, each
      event starts in its predecessor's new state, and every stored state obeys the rules. */
  lemma {:induction false} EveryChainVerifies(ops: seq<Op>, message: string)
    ensures Verifies(RowsOf(Run(ops), message)) && InPlace(RowsOf(Run(ops), message))
  {
    if ops != [] {
      var before, op := Run(ops[..|ops| - 1]), ops[|ops| - 1];
      EveryChainVerifies(ops[..|ops| - 1], message);
      if op.message == message && Append(before, op.message, op.next, op.details, op.callback).1.Appended? {
        AppendedVerifies(before, op);
      } else {
        StepOnOthers(before, op, message);
      }
    }
  }

  lemma AppendsWhenInsertable(log: Log, op: Op)
    ensures var row := NewRow(log, op.message, op.next, op.details, op.callback);
            Step(log, op) == log || (Step(log, op) == log + [row] && Insertable(log, row))
  {
  }

  predicate IdsDiffer(a: Row, b: Row) {
    a.eventId != b.eventId && (a.callback.None? || a.callback != b.callback)
  }

  /** No two rows share an event id, or a callback id. */
  predicate IdsAreUnique(log: Log) { forall i, j :: 0 <= i < j < |log| ==> IdsDiffer(log[i], log[j]) }

  lemma {:induction false} CallbacksAreUnique(ops: seq<Op>)
    ensures IdsAreUnique(Run(ops))
  {
    if ops != [] {
      var before := Run(ops[..|ops| - 1]);
      CallbacksAreUnique(ops[..|ops| - 1]);
      AppendsWhenInsertable(before, ops[|ops| - 1]);
      var log := Run(ops);
      forall i, j | 0 <= i < j < |log|
        ensures IdsDiffer(log[i], log[j])
      {
        assert j < |before| ==> IdsDiffer(before[i], before[j]);
      }
    }
  }

  lemma {:induction false} FindsTheCallback(log: Log, i: nat)
    requires i < |log| && log[i].callback.Some?
    requires forall j :: 0 <= j < i ==> log[j].callback != log[i].callback
    ensures FindCallback(log, log[i].callback) == Some(log[i])
  {
    if i > 0 { FindsTheCallback(log[1..], i - 1); }
  }

  /** Repeating a callback id that some row of a run already has never changes the log. It returns
      that row, whatever message and state the repetition names, unless validation rejects the
      repetition or its id is the empty string. */
  lemma RepeatedCallbackChangesNothing(ops: seq<Op>, i: nat, again: Op)
    requires i < |Run(ops)| && Run(ops)[i].callback.Some? && again.callback == Run(ops)[i].callback
    ensures var log := Run(ops);
            var outcome := Append(log, again.message, again.next, again.details, again.callback).1;
            var broken := Validate(StateAfter(RowsOf(log, again.message)), again.next, again.details.reason);
            && Step(log, again) == log
            && outcome == (if broken.Some? then Outcome.Invalid(broken.value)
                           else if again.callback == Some("") then Conflict else Existing(log[i]))
  {
    var log := Run(ops);
    CallbacksAreUnique(ops);
    assert forall j :: 0 <= j < i ==> IdsDiffer(log[j], log[i]);
    FindsTheCallback(log, i);
    var row := NewRow(log, again.message, again.next, again.details, again.callback);
    assert log[i].callback == row.callback;
  }

  /** Two row sequences that verify and end in the same hash hold the same events, in the same
      order and number: the last hash alone certifies a message's whole history. */
  lemma SameFinalHashSameHistory(a: seq<Row>, b: seq<Row>)
    requires Verifies(a) && Verifies(b) && a != [] && b != [] && a[|a| - 1].hash == b[|b| - 1].hash
    ensures |a| == |b| && forall k :: 0 <= k < |a| ==> Decoded(a[k]) == Decoded(b[k])
  {
    SameTailSameChain(DecodedRows(a), DecodedRows(b));
  }

  // ---------------------------------------------------------------- when an event is appended

  ghost predicate Unused(log: Log, op: Op) {
    forall i :: 0 <= i < |log| ==>
      log[i].eventId != op.details.eventId && (op.callback.None? || log[i].callback != op.callback)
  }

  /** The state and hash that the last event of a message left, read from its row. */
  ghost predicate LastLeft(rows: seq<Row>, previous: Option<State>, hash: Hashed) {
    if rows == [] then previous == None && hash == NoHash
    else
      var last := rows[|rows| - 1];
      && last.raw.Object? && last.raw.body.Event? && previous == Some(last.raw.body.next)
      && last.raw.stored == last.hash == hash
  }

  lemma RunsLeaveAState(ops: seq<Op>, message: string)
    ensures var rows := RowsOf(Run(ops), message);
            LastLeft(rows, StateAfter(rows), StoredAfter(rows))
  {
    EveryChainVerifies(ops, message);
    var rows := RowsOf(Run(ops), message);
    if rows != [] { assert SelfConsistent(rows[|rows| - 1]) && EventInPlace(rows, |rows| - 1); }
  }

  /** After every run: an event is appended exactly when it is truthful after the state its message is in
      and its event id and callback id are unused. Its row holds the message, the details and both
      states, hashed onto the message's last hash. Otherwise the log stays as it was: the event is invalid
      when it is not truthful, and else an existing row is returned when its callback id names one. */
  lemma AppendedExactlyWhen(ops: seq<Op>, op: Op, previous: Option<State>, last: Hashed)
    requires LastLeft(RowsOf(Run(ops), op.message), previous, last)
    ensures var log := Run(ops);
            var (log', outcome) := Append(log, op.message, op.next, op.details, op.callback);
            var body := Event(op.message, op.details, previous, op.next);
            var row := Row(op.details.eventId, op.callback, op.message, Object(body, DigestOf(body, last)),
              DigestOf(body, last), last);
            var repeated := op.callback.Some? && op.callback.value != ""
              && exists i :: 0 <= i < |log| && log[i].callback == op.callback;
            if Truthful(body) && Unused(log, op) then log' == log + [row] && outcome == Appended(row)
            else
              && log' == log
              && (outcome.Invalid? <==> !Truthful(body))
              && (Truthful(body) && repeated ==>
                   outcome.Existing? && outcome.row in log && outcome.row.callback == op.callback)
              && (Truthful(body) && !repeated ==> outcome == Conflict)
  {
    var log := Run(ops);
    RunsLeaveAState(ops, op.message);
    ValidMeansTruthful(op.message, op.details, previous, op.next);
    FoundByCallback(log, op.callback);
  }

  lemma {:induction false} FoundByCallback(log: Log, callback: Option<string>)
    ensures FindCallback(log, callback).Some? <==> exists i :: 0 <= i < |log| && log[i].callback == callback
    ensures FindCallback(log, callback).Some? ==>
              var row := FindCallback(log, callback).value; row in log && row.callback == callback
  {
    if log != [] {
      FoundByCallback(log[1..], callback);
      assert log == [log[0]] + log[1..];
      assert forall i :: 1 <= i < |log| ==> log[i] == log[1..][i - 1];
    }
  }
}
