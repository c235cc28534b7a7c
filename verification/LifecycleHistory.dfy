/** What the two lifecycle tables say after every run: each row tells one committed transition, in order,
    and the projection is where the last of them left it. */
module LifecycleHistory {
  import opened Identity
  import opened HashChain
  import opened Lifecycle
  import Numerals = Text

  // ---------------------------------------------------------------- when an operation commits

  /** A value SQLite takes for a TEXT column that must not be null. */
  ghost predicate Bindable(v: Val) {
    v.Bool? || v.Frac? || v.Text? || v.Hash? || (v.Num? && -9223372036854775808 <= v.n <= 9223372036854775807)
  }

  /** Decimal digits, most significant first and without a leading zero. */
  ghost predicate Spells(s: string, n: nat) {
    && s != "" && (forall i :: 0 <= i < |s| ==> '0' <= s[i] <= '9') && (|s| > 1 ==> s[0] != '0')
    && Numerals.DecimalValue(seq(|s|, i requires 0 <= i < |s| && '0' <= s[i] <= '9' => s[i] as int - '0' as int)) == n
  }

  lemma DigitsSpell(n: nat)
    ensures Spells(DigitsText(Numerals.Decimal(n)), n)
  {
    var ds := Numerals.Decimal(n);
    var s := DigitsText(ds);
    Numerals.DecimalRoundTrip(n);
    assert seq(|s|, i requires 0 <= i < |s| && '0' <= s[i] <= '9' => s[i] as int - '0' as int) == ds;
  }

  /** What the column keeps of a value it can bind: text as it is, a bool as 1 or 0, and a number as its
      decimal text, with a minus sign exactly when it is negative. */
  lemma ColumnKeeps(v: Val)
    ensures ColumnText(v).Some? <==> Bindable(v)
    ensures v.Text? || v.Hash? || v.Frac? ==> ColumnText(v) == Some(v)
    ensures ColumnText(Bool(true)) == Some(Text("1")) && ColumnText(Bool(false)) == Some(Text("0"))
    ensures v.Num? && Bindable(v) ==>
              && ColumnText(v).value.Text?
              && var s := ColumnText(v).value.s;
                 if v.n < 0 then s != "" && s[0] == '-' && Spells(s[1..], -v.n) else Spells(s, v.n)
  {
    if v.Num? {
      if v.n < 0 { DigitsSpell(-v.n); } else { DigitsSpell(v.n); }
    }
  }

  ghost function EventId(c: Change): Val { if "event_id" in c.extra then c.extra["event_id"] else Text(c.eventId) }

  /** A transition commits exactly when its transaction is there, at the expected version if one is
      named, and its event id can be stored and is in no row yet. Otherwise nothing changes. */
  lemma TransitionCommitsExactlyWhen(s: Store, env: Envelope, c: Change)
    ensures var (s', hash) := Transition(s, env, c);
            && (hash.Some? <==>
                 && env.txid in s.transactions
                 && (c.expected == None || c.expected == Some(s.transactions[env.txid].version))
                 && Bindable(EventId(c))
                 && forall i :: 0 <= i < |s.events| ==> Some(s.events[i].eventId) != ColumnText(EventId(c)))
            && (hash.None? ==> s' == s)
  {
    if env.txid in s.transactions {
      assert EventBody(env, s.transactions[env.txid], c)["event_id"] == EventId(c);
    }
  }

  /** An insertion adds a fresh projection exactly for an unknown transaction. */
  lemma InsertsOnce(s: Store, env: Envelope)
    ensures Insert(s, env)
            == if env.txid in s.transactions then (s, false)
              else (Store(s.transactions[env.txid := Projection(0, NoHash, "received", 0, Null, "pending")], s.events),
                    true)
  {
  }

  // ---------------------------------------------------------------- verify, row by row

  ghost predicate RowVerifies(rows: seq<EventRow>, k: nat)
    requires k < |rows|
  {
    var row := rows[k];
    && row.raw.Object?
    && (var event := row.raw.event;
        && "event_hash" in event && event["event_hash"] == Hash(row.hash)
        && "sequence" in event
        && (event["sequence"] == Num(k + 1) || event["sequence"] == Frac((k + 1) as real)
            || (k == 0 && event["sequence"] == Bool(true)))
        && row.hash == DigestOf(event - {"event_hash"}, row.previous))
    && row.previous == if k == 0 then NoHash else rows[k - 1].hash
  }

  lemma RowByRow(rows: seq<EventRow>, k: nat)
    requires k < |rows|
    ensures CheckRow(rows[k], k + 1, RowTail(rows[..k])) == Accepted <==> RowVerifies(rows, k)
  {
  }

  lemma {:induction false} RowsVerify(rows: seq<EventRow>)
    ensures CheckRows(rows) == Accepted <==> forall k :: 0 <= k < |rows| ==> RowVerifies(rows, k)
  {
    if rows != [] {
      var n := |rows| - 1;
      var front := rows[..n];
      RowsVerify(front);
      RowByRow(rows, n);
      assert forall k :: 0 <= k < n ==> (RowVerifies(front, k) <==> RowVerifies(rows, k));
      assert RowVerifies(rows, n) || !RowVerifies(rows, n);
    }
  }

  ghost predicate RaisesAt(rows: seq<EventRow>, k: nat)
    requires k < |rows|
  {
    rows[k].raw.NotAnObject? && CheckRows(rows[..k]) == Accepted
  }

  lemma RaisedAtTheLastRow(rows: seq<EventRow>)
    requires rows != []
    ensures CheckRows(rows) == Raised <==> CheckRows(rows[..|rows| - 1]) == Raised || RaisesAt(rows, |rows| - 1)
  {
  }

  lemma RaisesBefore(rows: seq<EventRow>, k: nat)
    requires rows != [] && k < |rows| - 1
    ensures RaisesAt(rows[..|rows| - 1], k) <==> RaisesAt(rows, k)
  {
    assert rows[..|rows| - 1][..k] == rows[..k];
  }

  lemma {:induction false} RaisedAtARow(rows: seq<EventRow>)
    ensures CheckRows(rows) == Raised <==> exists k: nat :: k < |rows| && RaisesAt(rows, k)
  {
    if rows != [] {
      var n := |rows| - 1;
      RaisedAtARow(rows[..n]);
      RaisedAtTheLastRow(rows);
      forall k: nat | k < n
        ensures RaisesAt(rows[..n], k) <==> RaisesAt(rows, k)
      {
        RaisesBefore(rows, k);
      }
    }
  }

  lemma RaisesBehindGoodRows(rows: seq<EventRow>, k: nat)
    requires k < |rows|
    ensures RaisesAt(rows, k) <==> rows[k].raw.NotAnObject? && forall i :: 0 <= i < k ==> RowVerifies(rows, i)
  {
    RowsVerify(rows[..k]);
    assert forall i :: 0 <= i < k ==> (RowVerifies(rows[..k], i) <==> RowVerifies(rows, i));
  }

  /** On any tables, even altered ones: verify accepts exactly when the transaction has rows, each of
      them stores its own number and hash and hashes its event onto its predecessor, and the projection
      holds their count and last hash. It raises exactly at a row that decodes to no object behind
      rows that verify. */
  lemma VerifiesExactlyWhen(s: Store, txid: string)
    ensures var rows := RowsOf(s.events, txid);
            && (Verify(s, txid) == Accepted <==>
                 && rows != [] && (forall k :: 0 <= k < |rows| ==> RowVerifies(rows, k))
                 && txid in s.transactions && s.transactions[txid].version == |rows|
                 && s.transactions[txid].lastHash == rows[|rows| - 1].hash)
            && (Verify(s, txid) == Raised <==>
                 exists k: nat :: k < |rows| && rows[k].raw.NotAnObject?
                   && forall i :: 0 <= i < k ==> RowVerifies(rows, i))
  {
    var rows := RowsOf(s.events, txid);
    RowsVerify(rows);
    RaisedAtARow(rows);
    forall k: nat | k < |rows|
      ensures RaisesAt(rows, k) <==>
                rows[k].raw.NotAnObject? && forall i :: 0 <= i < k ==> RowVerifies(rows, i)
    {
      RaisesBehindGoodRows(rows, k);
    }
  }

  lemma {:induction false} RowsAreOfTheirTransaction(events: seq<EventRow>, txid: string)
    ensures forall k :: 0 <= k < |RowsOf(events, txid)| ==> RowsOf(events, txid)[k].txid == txid
  {
    if events != [] { RowsAreOfTheirTransaction(events[..|events| - 1], txid); }
  }

  lemma PoppedTwiceIsSame(a: Event, b: Event)
    requires "event_hash" in a && "event_hash" in b && a["event_hash"] == b["event_hash"]
    requires a - {"event_hash"} == b - {"event_hash"}
    ensures a == b
  {
    forall key | key in a || key in b
      ensures key in a && key in b && a[key] == b[key]
    {
      assert key != "event_hash" ==> (key in a <==> key in a - {"event_hash"});
      assert key != "event_hash" ==> (key in b <==> key in b - {"event_hash"});
      assert key != "event_hash" && key in a ==> a[key] == (a - {"event_hash"})[key];
      assert key != "event_hash" && key in b ==> b[key] == (b - {"event_hash"})[key];
    }
  }

  /** Alter the event table as you like, behind a projection that stays as the run left it: when verify
      accepts, the rows are the run's rows, whole events included, apart from the event_id column. */
  lemma AcceptedRowsAreTheRunsRows(ops: seq<Op>, altered: Store, txid: string)
    requires Clean(ops, txid) && txid in Run(ops).transactions && txid in altered.transactions
    requires altered.transactions[txid] == Run(ops).transactions[txid]
    requires Verify(altered, txid) == Accepted
    ensures var rows, rows' := RowsOf(Run(ops).events, txid), RowsOf(altered.events, txid);
            |rows'| == |rows| && forall k :: 0 <= k < |rows| ==> rows'[k] == rows[k].(eventId := rows'[k].eventId)
  {
    var rows, rows' := RowsOf(Run(ops).events, txid), RowsOf(altered.events, txid);
    AcceptedTablesAgree(ops, altered, txid);
    RunInvariant(ops, txid);
    RowsVerify(rows);
    RowsVerify(rows');
    RowsAreOfTheirTransaction(Run(ops).events, txid);
    RowsAreOfTheirTransaction(altered.events, txid);
    forall k | 0 <= k < |rows|
      ensures rows'[k] == rows[k].(eventId := rows'[k].eventId)
    {
      assert DecodedRows(rows)[k] == DecodedRows(rows')[k];
      assert RowVerifies(rows, k) && RowVerifies(rows', k);
      PoppedTwiceIsSame(rows[k].raw.event, rows'[k].raw.event);
    }
  }

  // ---------------------------------------------------------------- what a run wrote

  /** The transitions of a transaction that a run committed, oldest first. */
  datatype Commit = Commit(env: Envelope, change: Change)

  function Commits(ops: seq<Op>, txid: string): seq<Commit> {
    if ops == [] then []
    else
      var before, op := ops[..|ops| - 1], ops[|ops| - 1];
      Commits(before, txid)
      + if op.MoveOp? && op.env.txid == txid && Transition(Run(before), op.env, op.change).1.Some?
          then [Commit(op.env, op.change)] else []
  }

  ghost function StatusBefore(cs: seq<Commit>, k: nat): string
    requires k <= |cs|
  {
    if k == 0 then "received" else cs[k - 1].change.newState
  }

  ghost function Retries(cs: seq<Commit>): int {
    if cs == [] then 0 else Retries(cs[..|cs| - 1]) + cs[|cs| - 1].change.retryIncrement
  }

  /** The entry of an event under one key: extra before the transition's own, and those before the
      envelope's. */
  ghost function Entry(c: Commit, sequence: int, status: string, previous: Hashed, key: string): Option<Val> {
    if key in c.change.extra then Some(c.change.extra[key])
    else if key == "event_id" then Some(Text(c.change.eventId))
    else if key == "timestamp" then Some(Text(c.change.now))
    else if key == "sequence" then Some(Num(sequence))
    else if key == "previous_state" then Some(Text(status))
    else if key == "new_state" then Some(Text(c.change.newState))
    else if key == "reason_code" then Some(Text(c.change.reason))
    else if key == "reconciliation_state" then Some(Text(c.change.reconciliation))
    else if key == "previous_event_hash" then Some(if previous == NoHash then Null else Hash(previous))
    else if key in c.env.copied then Some(c.env.copied[key])
    else None
  }

  ghost predicate Holds(event: Event, key: string, v: Option<Val>) {
    if v.Some? then key in event && event[key] == v.value else key !in event
  }

  ghost predicate BodyOf(body: Event, c: Commit, sequence: int, status: string, previous: Hashed) {
    forall key :: Holds(body, key, Entry(c, sequence, status, previous, key))
  }

  /** The row records that commit: its entries under every key, hashed onto the row before. */
  ghost predicate Tells(row: EventRow, c: Commit, sequence: int, status: string, previous: Hashed) {
    exists body: Event ::
      && BodyOf(body, c, sequence, status, previous)
      && row.raw == Object(body["event_hash" := Hash(row.hash)])
      && row.hash == DigestOf(body, previous) && row.previous == previous && row.txid == c.env.txid
      && Some(row.eventId) == ColumnText(EventId(c.change))
  }

  lemma BodyHolds(env: Envelope, p: Projection, c: Change, commit: Commit, sequence: int, key: string)
    requires commit == Commit(env, c) && sequence == p.version + 1
    ensures Holds(EventBody(env, p, c), key, Entry(commit, sequence, p.status, p.lastHash, key))
  {
  }

  lemma BodyIsWritten(env: Envelope, p: Projection, c: Change, commit: Commit, sequence: int)
    requires commit == Commit(env, c) && sequence == p.version + 1
    ensures BodyOf(EventBody(env, p, c), commit, sequence, p.status, p.lastHash)
  {
    forall key: string
      ensures Holds(EventBody(env, p, c), key, Entry(commit, sequence, p.status, p.lastHash, key))
    {
      BodyHolds(env, p, c, commit, sequence, key);
    }
  }

  lemma NewRowTells(env: Envelope, p: Projection, c: Change)
    requires Bindable(EventId(c))
    ensures Tells(NewRow(env, p, c), Commit(env, c), p.version + 1, p.status, p.lastHash)
  {
    BodyIsWritten(env, p, c, Commit(env, c), p.version + 1);
    assert EventBody(env, p, c)["event_id"] == EventId(c);
  }

  ghost function HashBefore(rows: seq<EventRow>, k: nat): Hashed
    requires k <= |rows|
  {
    if k == 0 then NoHash else rows[k - 1].hash
  }

  ghost predicate ToldAt(rows: seq<EventRow>, cs: seq<Commit>, k: nat)
    requires k < |rows| && k < |cs|
  {
    Tells(rows[k], cs[k], k + 1, StatusBefore(cs, k), HashBefore(rows, k))
  }

  ghost predicate Told(rows: seq<EventRow>, cs: seq<Commit>) {
    |rows| == |cs| && forall k :: 0 <= k < |rows| ==> ToldAt(rows, cs, k)
  }

  /** Where the commits leave the projection. */
  ghost predicate Projects(p: Projection, rows: seq<EventRow>, cs: seq<Commit>) {
    && p.version == |cs| && p.lastHash == RowTail(rows) && p.status == StatusBefore(cs, |cs|)
    && p.retries == Retries(cs)
    && p.blocker == (if cs == [] then Null else cs[|cs| - 1].change.blocker)
    && p.reconciliation == (if cs == [] then "pending" else cs[|cs| - 1].change.reconciliation)
  }

  ghost predicate History(s: Store, txid: string, cs: seq<Commit>) {
    var rows := RowsOf(s.events, txid);
    Told(rows, cs) && if txid in s.transactions then Projects(s.transactions[txid], rows, cs) else cs == []
  }

  lemma ToldEarlier(rows: seq<EventRow>, cs: seq<Commit>, row: EventRow, c: Commit, k: nat)
    requires k < |rows| && k < |cs| && ToldAt(rows, cs, k)
    ensures ToldAt(rows + [row], cs + [c], k)
  {
    var rows', cs' := rows + [row], cs + [c];
    assert rows'[k] == rows[k] && cs'[k] == cs[k];
    assert StatusBefore(cs', k) == StatusBefore(cs, k) && HashBefore(rows', k) == HashBefore(rows, k);
  }

  lemma ToldLast(rows: seq<EventRow>, cs: seq<Commit>, row: EventRow, c: Commit)
    requires |rows| == |cs| && Tells(row, c, |cs| + 1, StatusBefore(cs, |cs|), RowTail(rows))
    ensures ToldAt(rows + [row], cs + [c], |rows|)
  {
    var rows', cs' := rows + [row], cs + [c];
    assert rows'[|rows|] == row && cs'[|rows|] == c;
    assert StatusBefore(cs', |rows|) == StatusBefore(cs, |cs|) && HashBefore(rows', |rows|) == RowTail(rows);
  }

  lemma OneMoreTold(rows: seq<EventRow>, cs: seq<Commit>, row: EventRow, c: Commit)
    requires Told(rows, cs) && Tells(row, c, |cs| + 1, StatusBefore(cs, |cs|), RowTail(rows))
    ensures Told(rows + [row], cs + [c])
  {
    forall k | 0 <= k < |rows| + 1
      ensures ToldAt(rows + [row], cs + [c], k)
    {
      if k < |rows| { ToldEarlier(rows, cs, row, c, k); } else { ToldLast(rows, cs, row, c); }
    }
  }

  lemma CommitExtendsHistory(s: Store, env: Envelope, c: Change, cs: seq<Commit>)
    requires History(s, env.txid, cs) && Transition(s, env, c).1.Some?
    ensures History(Transition(s, env, c).0, env.txid, cs + [Commit(env, c)])
  {
    var s' := Transition(s, env, c).0;
    var p := s.transactions[env.txid];
    var rows, row := RowsOf(s.events, env.txid), NewRow(env, p, c);
    var cs' := cs + [Commit(env, c)];
    assert s'.events[..|s.events|] == s.events;
    assert RowsOf(s'.events, env.txid) == rows + [row];
    TransitionCommitsExactlyWhen(s, env, c);
    NewRowTells(env, p, c);
    OneMoreTold(rows, cs, row, Commit(env, c));
    assert cs'[..|cs'| - 1] == cs;
  }

  /** Insertions, refused transitions and operations on other transactions tell nothing. */
  lemma NothingToTell(s: Store, op: Op, txid: string, cs: seq<Commit>)
    requires History(s, txid, cs)
    requires op.env.txid != txid || op.InsertOp? || Transition(s, op.env, op.change).1.None?
    ensures History(Step(s, op), txid, cs)
  {
    var rows := RowsOf(s.events, txid);
    if op.env.txid != txid { StepOnOther(s, op, txid); }
    assert RowsOf(Step(s, op).events, txid) == rows;
    if txid !in s.transactions { assert rows == []; }
  }

  lemma OneMoreCommit(before: seq<Op>, op: Op, txid: string)
    ensures Commits(before + [op], txid)
            == if op.MoveOp? && op.env.txid == txid && Transition(Run(before), op.env, op.change).1.Some?
                 then Commits(before, txid) + [Commit(op.env, op.change)] else Commits(before, txid)
    ensures Run(before + [op]) == Step(Run(before), op)
  {
    assert (before + [op])[..|before|] == before;
  }

  lemma TellOneMore(before: seq<Op>, op: Op, txid: string)
    requires History(Run(before), txid, Commits(before, txid))
    ensures History(Run(before + [op]), txid, Commits(before + [op], txid))
  {
    OneMoreCommit(before, op, txid);
    if op.MoveOp? && op.env.txid == txid && Transition(Run(before), op.env, op.change).1.Some? {
      CommitExtendsHistory(Run(before), op.env, op.change, Commits(before, txid));
    } else {
      NothingToTell(Run(before), op, txid, Commits(before, txid));
    }
  }

  lemma NothingTold(txid: string)
    ensures History(EMPTY, txid, [])
  {
    assert RowsOf([], txid) == [];
  }

  /** After every run of interleaved creates and transitions: the rows of a transaction tell its commits in
      order, each starting in the state the one before left, and the projection holds their number, the
      last hash, state, blocker and reconciliation, and the sum of the retries. */
  lemma {:induction false} RowsTellTheCommits(ops: seq<Op>, txid: string)
    ensures History(Run(ops), txid, Commits(ops, txid))
  {
    if ops == [] {
      NothingTold(txid);
    } else {
      var n := |ops| - 1;
      RowsTellTheCommits(ops[..n], txid);
      TellOneMore(ops[..n], ops[n], txid);
      assert ops[..n] + [ops[n]] == ops;
    }
  }

  ghost predicate Keeps(c: Change, key: string) { key !in c.extra }

  /** So the states form one chain from "received" to the projection's status: wherever extra leaves
      previous_state and new_state alone, every event starts where its predecessor ended. */
  lemma StatesFormAChain(ops: seq<Op>, txid: string, k: nat)
    requires k < |Commits(ops, txid)|
    ensures var cs, rows := Commits(ops, txid), RowsOf(Run(ops).events, txid);
            && |rows| == |cs| && txid in Run(ops).transactions && rows[k].raw.Object?
            && (Keeps(cs[k].change, "previous_state") && k == 0 ==>
                 Holds(rows[k].raw.event, "previous_state", Some(Text("received"))))
            && (Keeps(cs[k].change, "previous_state") && k > 0 && Keeps(cs[k - 1].change, "new_state") ==>
                 && rows[k - 1].raw.Object? && "new_state" in rows[k - 1].raw.event
                 && Holds(rows[k].raw.event, "previous_state", Some(rows[k - 1].raw.event["new_state"])))
            && (Keeps(cs[k].change, "new_state") && k == |cs| - 1 ==>
                 Holds(rows[k].raw.event, "new_state", Some(Text(Run(ops).transactions[txid].status))))
  {
    RowsTellTheCommits(ops, txid);
    ChainAt(RowsOf(Run(ops).events, txid), Commits(ops, txid), k);
  }

  lemma ChainAt(rows: seq<EventRow>, cs: seq<Commit>, k: nat)
    requires Told(rows, cs) && k < |cs|
    ensures rows[k].raw.Object?
    ensures Keeps(cs[k].change, "previous_state") ==>
              Holds(rows[k].raw.event, "previous_state", Some(Text(StatusBefore(cs, k))))
    ensures Keeps(cs[k].change, "new_state") ==>
              Holds(rows[k].raw.event, "new_state", Some(Text(cs[k].change.newState)))
    ensures k > 0 && Keeps(cs[k - 1].change, "new_state") ==>
              rows[k - 1].raw.Object? && Holds(rows[k - 1].raw.event, "new_state", Some(Text(StatusBefore(cs, k))))
  {
    assert ToldAt(rows, cs, k) && (k > 0 ==> ToldAt(rows, cs, k - 1));
    StatesOfRow(rows[k], cs[k], k + 1, StatusBefore(cs, k), HashBefore(rows, k));
    if k > 0 {
      StatesOfRow(rows[k - 1], cs[k - 1], k, StatusBefore(cs, k - 1), HashBefore(rows, k - 1));
    }
  }

  lemma StatesOfRow(row: EventRow, c: Commit, sequence: int, status: string, previous: Hashed)
    requires Tells(row, c, sequence, status, previous)
    ensures row.raw.Object?
    ensures Keeps(c.change, "previous_state") ==> Holds(row.raw.event, "previous_state", Some(Text(status)))
    ensures Keeps(c.change, "new_state") ==> Holds(row.raw.event, "new_state", Some(Text(c.change.newState)))
  {
    var body: Event :| BodyOf(body, c, sequence, status, previous)
      && row.raw == Object(body["event_hash" := Hash(row.hash)])
      && row.hash == DigestOf(body, previous) && row.previous == previous && row.txid == c.env.txid
      && Some(row.eventId) == ColumnText(EventId(c.change));
    assert Holds(body, "previous_state", Entry(c, sequence, status, previous, "previous_state"));
    assert Holds(body, "new_state", Entry(c, sequence, status, previous, "new_state"));
  }
}
