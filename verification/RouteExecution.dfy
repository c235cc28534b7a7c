/** RouteExecutionEngine and PortDirectory.resolve of strata_network.py. */
module RouteExecution {
  import opened Identity
  import opened Text

  datatype RouteMode = Direct | Split | Multicast

  type Payload = map<string, string>

  datatype PayloadHash = HashOf(payload: Payload) | OtherHash(text: string)

  /** The signature covers every field but itself, attempt included. */
  datatype Signature = Unsigned | Signed(fields: Fields)

  datatype Fields = Fields(
    txid: string, destination: string, mode: RouteMode, targets: seq<string>, payload: Payload,
    payloadHash: PayloadHash,
    disclosure: seq<string>, capability: string, classification: string, organization: string, tenant: string,
    attempt: int)

  datatype Envelope = Envelope(fields: Fields, signature: Signature)

  // ---------------------------------------------------------------- the directory

  datatype Health = Healthy | Degraded | UnavailableHealth
  datatype Readiness = Ready | Blocked | Maintenance

  datatype Registration = Registration(
    health: Health, readiness: Readiness, maintenance: bool, capabilities: set<string>, classifications: set<string>,
    modes: set<RouteMode>)

  datatype Failure = ValueError | LookupError | PermissionError | BlockedError | Exhausted | ReconcilerError

  /** resolve, as the failure it raises. */
  function Resolve(directory: map<string, Registration>, port: string, e: Fields): Option<Failure> {
    if port !in directory then Some(LookupError)
    else if e.organization == "" || e.tenant == "" then Some(PermissionError)
    else
      var r := directory[port];
      if r.maintenance || r.readiness != Ready || r.health == UnavailableHealth then Some(BlockedError)
      else if e.capability !in r.capabilities || e.classification !in r.classifications || e.mode !in r.modes
        then Some(PermissionError)
      else None
  }

  // ---------------------------------------------------------------- children

  /** The keys the index-th target may see under split: none without a policy entry. */
  function Allowed(e: Fields, index: nat): seq<string> {
    if index < |e.disclosure| then Text.Split(e.disclosure[index], ',') else []
  }

  function ChildPayload(e: Fields, index: nat): Payload {
    if e.mode.Split? then map key | key in e.payload && key in Allowed(e, index) :: e.payload[key] else e.payload
  }

  /** The child of one target, signed with its parent's attempt number. */
  function Child(e: Fields, index: nat): Envelope
    requires index < |e.targets|
  {
    var payload := ChildPayload(e, index);
    var fields := e.(destination := e.targets[index], payload := payload, payloadHash := HashOf(payload),
                     txid := e.txid + ":" + e.targets[index]);
    Envelope(fields, Signed(fields))
  }

  /** replace(child, attempt=attempt) keeps the signature. */
  function Numbered(child: Envelope, attempt: int): Envelope { child.(fields := child.fields.(attempt := attempt)) }

  // ---------------------------------------------------------------- dispatch with retries

  datatype Call = Call(target: string, envelope: Envelope)
  datatype Receipt = Receipt(portStatus: string, id: nat)

  /** What a transport call does: a receipt, or an exception named by its type. */
  datatype Answer = Delivered(receipt: Receipt) | Raised(kind: string)

  datatype DeadLetter = DeadLetter(
    txid: string, port: string, attempts: int, lastError: Option<string>, payloadHash: PayloadHash)

  /** Everything the engine has sent so far, and its dead letters. The n-th call ever gets answers(n). */
  datatype Log = Log(calls: seq<Call>, letters: seq<DeadLetter>)

  function Retry(max: int, answers: nat -> Answer, log: Log, target: string, child: Envelope, attempt: nat,
      error: Option<string>)
    : (Log, Option<Receipt>)
    decreases max - attempt
  {
    if attempt > max then
      (log.(letters := log.letters + [DeadLetter(child.fields.txid, target, max, error, child.fields.payloadHash)]),
        None)
    else
      var sent := log.(calls := log.calls + [Call(target, Numbered(child, attempt))]);
      match answers(|log.calls|)
      case Delivered(receipt) => (sent, Some(receipt))
      case Raised(kind) => Retry(max, answers, sent, target, child, attempt + 1, Some(kind))
  }

  /** The loop over the targets from index on. */
  function Route(max: int, answers: nat -> Answer, directory: map<string, Registration>, e: Fields, index: nat,
      log: Log, receipts: seq<Receipt>)
    : (Log, seq<Receipt>, Option<Failure>)
    requires index <= |e.targets|
    decreases |e.targets| - index
  {
    if index == |e.targets| then (log, receipts, None)
    else match Resolve(directory, e.targets[index], e)
      case Some(failure) => (log, receipts, Some(failure))
      case None =>
        var (next, receipt) := Retry(max, answers, log, e.targets[index], Child(e, index), 1, None);
        if receipt.None? then (next, receipts, Some(Exhausted))
        else Route(max, answers, directory, e, index + 1, next, receipts + [receipt.value])
  }

  datatype Result = Failed(failure: Failure)
    | Done(receipts: seq<Receipt>, status: string, complete: bool, partial: bool)

  predicate Completed(r: Receipt) { r.portStatus == "completed" }

  predicate WrongTargetCount(e: Fields) { if e.mode.Direct? then |e.targets| != 1 else |e.targets| < 2 }

  /** None is a reconciler that raises. */
  function Conclude(receipts: seq<Receipt>, status: Option<string>): Result {
    if status.None? then Failed(ReconcilerError)
    else
      var complete := (forall i :: 0 <= i < |receipts| ==> Completed(receipts[i])) && status.value == "reconciled";
      Done(receipts, status.value, complete, (exists i :: 0 <= i < |receipts| && Completed(receipts[i])) && !complete)
  }

  function Execute(max: int, answers: nat -> Answer, directory: map<string, Registration>,
      reconcile: seq<Receipt> -> Option<string>, e: Fields, log: Log)
    : (Log, Result)
  {
    if WrongTargetCount(e) then (log, Failed(ValueError))
    else
      var (next, receipts, failure) := Route(max, answers, directory, e, 0, log, []);
      if failure.Some? then (next, Failed(failure.value)) else (next, Conclude(receipts, reconcile(receipts)))
  }

  class RouteExecutionEngine {
    const maxAttempts: int
    var calls: seq<Call>
    var letters: seq<DeadLetter>

    function View(): Log
      reads this
    {
      Log(calls, letters)
    }

    constructor (maxAttempts: int)
      ensures this.maxAttempts == maxAttempts && View() == Log([], [])
    {
      this.maxAttempts := maxAttempts;
      calls, letters := [], [];
    }

    method DispatchTarget(answers: nat -> Answer, target: string, child: Envelope) returns (receipt: Option<Receipt>)
      modifies this
      ensures (View(), receipt) == Retry(maxAttempts, answers, old(View()), target, child, 1, None)
    {
      var error: Option<string> := None;
      var attempt: nat := 1;
      while attempt <= maxAttempts
        invariant Retry(maxAttempts, answers, View(), target, child, attempt, error)
                  == Retry(maxAttempts, answers, old(View()), target, child, 1, None)
      {
        var answer := answers(|calls|);
        calls := calls + [Call(target, Numbered(child, attempt))];
        if answer.Delivered? { return Some(answer.receipt); }
        error, attempt := Some(answer.kind), attempt + 1;
      }
      letters := letters + [DeadLetter(child.fields.txid, target, maxAttempts, error, child.fields.payloadHash)];
      return None;
    }

    method ExecuteRoute(answers: nat -> Answer, directory: map<string, Registration>,
        reconcile: seq<Receipt> -> Option<string>, e: Fields)
      returns (result: Result)
      modifies this
      ensures (View(), result) == Execute(maxAttempts, answers, directory, reconcile, e, old(View()))
    {
      if e.mode.Direct? && |e.targets| != 1 { return Failed(ValueError); }
      if !e.mode.Direct? && |e.targets| < 2 { return Failed(ValueError); }
      var receipts := [];
      for index := 0 to |e.targets|
        invariant Route(maxAttempts, answers, directory, e, index, View(), receipts)
                  == Route(maxAttempts, answers, directory, e, 0, old(View()), [])
      {
        var failure := Resolve(directory, e.targets[index], e);
        if failure.Some? { return Failed(failure.value); }
        var receipt := DispatchTarget(answers, e.targets[index], Child(e, index));
        if receipt.None? { return Failed(Exhausted); }
        receipts := receipts + [receipt.value];
      }
      return Conclude(receipts, reconcile(receipts));
    }
  }

  // ---------------------------------------------------------------- what a route sends

  /** Attempts 1 to n of one child. */
  function Tries(target: string, child: Envelope, n: nat): (r: seq<Call>)
    ensures |r| == n && forall k :: 0 <= k < n ==> r[k] == Call(target, Numbered(child, k + 1))
  {
    seq(n, k requires 0 <= k < n => Call(target, Numbered(child, k + 1)))
  }

  /** Target after target, from index on, counts[k] tries for the k-th of them. */
  function AllTries(e: Fields, index: nat, counts: seq<nat>): seq<Call>
    requires index + |counts| <= |e.targets|
    decreases |counts|
  {
    if counts == [] then []
    else Tries(e.targets[index], Child(e, index), counts[0]) + AllTries(e, index + 1, counts[1..])
  }

  /** Call n is answered with this receipt. */
  predicate Answers(answers: nat -> Answer, n: nat, receipt: Receipt) { answers(n) == Delivered(receipt) }

  /** The exception of the last of n calls. */
  function LastError(answers: nat -> Answer, start: nat, n: nat): Option<string> {
    if n > 0 && answers(start + n - 1).Raised? then Some(answers(start + n - 1).kind) else None
  }

  /** How one target's retries go: n tries, all but the last raising; then a receipt, or after the
      last allowed try one dead letter. */
  ghost predicate Retried(max: int, answers: nat -> Answer, log: Log, target: string, child: Envelope, next: Log,
      receipt: Option<Receipt>, n: nat) {
    && n <= max && next.calls == log.calls + Tries(target, child, n)
    && (forall k: nat :: |log.calls| <= k < |log.calls| + n && (receipt.Some? ==> k < |log.calls| + n - 1) ==>
       answers(k).Raised?)
    && (if receipt.Some? then n >= 1 && next.letters == log.letters
       && Answers(answers, |log.calls| + n - 1, receipt.value)
        else n == max
             && next.letters == log.letters + [DeadLetter(child.fields.txid, target, max,
                LastError(answers, |log.calls|, n), child.fields.payloadHash)])
  }

  lemma {:induction false} RetryCounts(max: int, answers: nat -> Answer, start: Log, log: Log, target: string,
      child: Envelope, attempt: nat, error: Option<string>)
    returns (n: nat)
    requires max >= 0 && 1 <= attempt <= max + 1
    requires log.letters == start.letters && log.calls == start.calls + Tries(target, child, attempt - 1)
    requires error == LastError(answers, |start.calls|, attempt - 1)
    requires forall k: nat :: |start.calls| <= k < |start.calls| + attempt - 1 ==> answers(k).Raised?
    ensures var (next, receipt) := Retry(max, answers, log, target, child, attempt, error);
            Retried(max, answers, start, target, child, next, receipt, n)
    decreases max - attempt
  {
    var (next, receipt) := Retry(max, answers, log, target, child, attempt, error);
    if attempt > max {
      n := attempt - 1;
    } else {
      var sent := log.(calls := log.calls + [Call(target, Numbered(child, attempt))]);
      assert sent.calls == start.calls + Tries(target, child, attempt);
      if answers(|log.calls|).Delivered? {
        n := attempt;
      } else {
        n := RetryCounts(max, answers, start, sent, target, child, attempt + 1, Some(answers(|log.calls|).kind));
      }
    }
  }

  predicate LetterFor(e: Fields, index: nat, max: int, letter: DeadLetter)
    requires index < |e.targets|
  {
    && letter.txid == e.txid + ":" + e.targets[index] && letter.port == e.targets[index]
    && letter.attempts == max && letter.payloadHash == HashOf(ChildPayload(e, index))
  }

  /** A route from index on sends counts[k] tries to its k-th target and then stops: with a receipt
      for every target; or with one new dead letter, for the last target it tried, max times; or at a
      target that does not resolve, which gets no try. */
  predicate Routed(max: int, e: Fields, index: nat, log: Log, next: Log, got: seq<Receipt>, failure: Option<Failure>,
      counts: seq<nat>)
    requires index <= |e.targets|
  {
    && index + |counts| <= |e.targets|
    && (forall k :: 0 <= k < |counts| ==> counts[k] <= max && (max >= 1 ==> counts[k] >= 1))
    && next.calls == log.calls + AllTries(e, index, counts)
    && (match failure
        case None => index + |counts| == |e.targets| && |got| == |counts| && next.letters == log.letters
        case Some(Exhausted) =>
          && |counts| == |got| + 1 && counts[|counts| - 1] == max && |next.letters| == |log.letters| + 1
          && next.letters[..|log.letters|] == log.letters
             && LetterFor(e, index + |counts| - 1, max, next.letters[|log.letters|])
        case Some(_) => |counts| == |got| && index + |counts| < |e.targets| && next.letters == log.letters)
  }

  lemma RoutedStep(max: int, answers: nat -> Answer, e: Fields, index: nat, log: Log, mid: Log, next: Log,
                   receipt: Receipt, got: seq<Receipt>, failure: Option<Failure>, n: nat, counts: seq<nat>)
    requires max >= 0 && index < |e.targets|
    requires Retried(max, answers, log, e.targets[index], Child(e, index), mid, Some(receipt), n)
    requires Routed(max, e, index + 1, mid, next, got, failure, counts)
    ensures Routed(max, e, index, log, next, [receipt] + got, failure, [n] + counts)
  {
    var all := [n] + counts;
    assert all[1..] == counts;
    var now := Tries(e.targets[index], Child(e, index), n);
    assert log.calls + now + AllTries(e, index + 1, counts) == log.calls + (now + AllTries(e, index + 1, counts));
  }

  lemma RoutedExhausted(max: int, answers: nat -> Answer, e: Fields, index: nat, log: Log, mid: Log, n: nat)
    requires max >= 0 && index < |e.targets|
    requires Retried(max, answers, log, e.targets[index], Child(e, index), mid, None, n)
    ensures Routed(max, e, index, log, mid, [], Some(Exhausted), [n])
  {
    assert [n][1..] == [];
    var now := Tries(e.targets[index], Child(e, index), n);
    assert AllTries(e, index + 1, []) == [] && now + [] == now;
  }

  lemma {:induction false} RouteCounts(max: int, answers: nat -> Answer, directory: map<string, Registration>,
      e: Fields, index: nat, log: Log, receipts: seq<Receipt>)
    returns (counts: seq<nat>, got: seq<Receipt>)
    requires max >= 0 && index <= |e.targets|
    ensures var (next, all, failure) := Route(max, answers, directory, e, index, log, receipts);
            all == receipts + got && Routed(max, e, index, log, next, got, failure, counts)
    decreases |e.targets| - index
  {
    var (next, all, failure) := Route(max, answers, directory, e, index, log, receipts);
    if index == |e.targets| || Resolve(directory, e.targets[index], e).Some? {
      counts, got := [], [];
      assert AllTries(e, index, counts) == [] && log.calls == log.calls + [];
    } else {
      var n := RetryCounts(max, answers, log, log, e.targets[index], Child(e, index), 1, None);
      var (mid, receipt) := Retry(max, answers, log, e.targets[index], Child(e, index), 1, None);
      if receipt.None? {
        RoutedExhausted(max, answers, e, index, log, mid, n);
        counts, got := [n], [];
      } else {
        counts, got := RouteCounts(max, answers, directory, e, index + 1, mid, receipts + [receipt.value]);
        RoutedStep(max, answers, e, index, log, mid, next, receipt.value, got, failure, n, counts);
        counts, got := [n] + counts, [receipt.value] + got;
      }
    }
  }

  /** A routed run with the result drawn from it. */
  predicate Ended(max: int, reconcile: seq<Receipt> -> Option<string>, e: Fields, log: Log, next: Log, result: Result,
                  counts: seq<nat>, receipts: seq<Receipt>, failure: Option<Failure>)
  {
    && Routed(max, e, 0, log, next, receipts, failure, counts)
    && result == (if failure.Some? then Failed(failure.value) else Conclude(receipts, reconcile(receipts)))
    && (result.Done? ==> |result.receipts| == |e.targets| && !(result.complete && result.partial))
  }

  /** A route run tries a prefix of its targets in order, each between one and max_attempts times. It
      ends in a result with one receipt for each target, or in an exhaustion that leaves exactly one
      new dead letter, or in an error before a target was tried; a result is never both complete and
      partial. */
  lemma RouteTriesAPrefix(max: int, answers: nat -> Answer, directory: map<string, Registration>,
                          reconcile: seq<Receipt> -> Option<string>, e: Fields, log: Log)
    requires max >= 1 && !WrongTargetCount(e)
    ensures var (next, result) := Execute(max, answers, directory, reconcile, e, log);
            exists counts, receipts, failure :: Ended(max, reconcile, e, log, next, result, counts, receipts, failure)
  {
    var counts, got := RouteCounts(max, answers, directory, e, 0, log, []);
    var (next, all, failure) := Route(max, answers, directory, e, 0, log, []);
    var result := Execute(max, answers, directory, reconcile, e, log).1;
    assert all == got;
    assert Ended(max, reconcile, e, log, next, result, counts, got, failure);
  }

  /** Some try of target k's child. */
  predicate IsTry(call: Call, e: Fields, k: nat)
    requires k < |e.targets|
  {
    call.target == e.targets[k] && call.envelope == Numbered(Child(e, k), call.envelope.fields.attempt)
  }

  /** Call n of the log went to target k and was answered with this receipt. */
  predicate Served(answers: nat -> Answer, e: Fields, log: Log, k: nat, n: nat, receipt: Receipt)
    requires k < |e.targets|
  {
    n < |log.calls| && IsTry(log.calls[n], e, k) && Answers(answers, n, receipt)
  }

  predicate Increasing(start: nat, positions: seq<nat>) {
    && (forall k :: 0 <= k < |positions| ==> start <= positions[k])
    && (forall j, k :: 0 <= j < k < |positions| ==> positions[j] < positions[k])
  }

  ghost predicate AllServed(answers: nat -> Answer, e: Fields, index: nat, next: Log, got: seq<Receipt>,
      positions: seq<nat>) {
    && |positions| == |got| && index + |got| <= |e.targets|
    && (forall k :: 0 <= k < |positions| ==> Served(answers, e, next, index + k, positions[k], got[k]))
  }

  ghost predicate OthersRaised(answers: nat -> Answer, start: nat, end: nat, positions: seq<nat>) {
    forall n: nat :: start <= n < end && n !in positions ==> answers(n).Raised?
  }

  /** The calls of a route and the receipts it got match one to one: the k-th receipt is the answer to
      call positions[k], which went to target index + k; the positions increase, so no two receipts
      share a call; and every other call of the run raised. */
  ghost predicate Matched(answers: nat -> Answer, e: Fields, index: nat, log: Log, next: Log, got: seq<Receipt>,
      positions: seq<nat>) {
    && log.calls <= next.calls && Increasing(|log.calls|, positions)
    && AllServed(answers, e, index, next, got, positions)
    && OthersRaised(answers, |log.calls|, |next.calls|, positions)
  }

  lemma FirstServed(answers: nat -> Answer, max: int, e: Fields, index: nat, log: Log, mid: Log, next: Log,
      receipt: Receipt, n: nat)
    requires index < |e.targets| && Retried(max, answers, log, e.targets[index], Child(e, index), mid, Some(receipt), n)
    requires mid.calls <= next.calls
    ensures log.calls <= next.calls && |mid.calls| == |log.calls| + n
            && Served(answers, e, next, index, |log.calls| + n - 1, receipt)
  {
    var first := |log.calls| + n - 1;
    assert mid.calls[first] == Call(e.targets[index], Numbered(Child(e, index), n))
           && next.calls[first] == mid.calls[first];
  }

  lemma AllServedStep(answers: nat -> Answer, e: Fields, index: nat, next: Log, first: nat, receipt: Receipt,
      got: seq<Receipt>, positions: seq<nat>)
    requires index < |e.targets| && Served(answers, e, next, index, first, receipt)
    requires AllServed(answers, e, index + 1, next, got, positions)
    ensures AllServed(answers, e, index, next, [receipt] + got, [first] + positions)
  {
    var all := [first] + positions;
    forall k | 0 <= k < |all|
      ensures Served(answers, e, next, index + k, all[k], ([receipt] + got)[k])
    {
      assert k > 0 ==> Served(answers, e, next, index + 1 + (k - 1), positions[k - 1], got[k - 1]);
    }
  }

  lemma OthersRaisedStep(answers: nat -> Answer, start: nat, first: nat, end: nat, positions: seq<nat>)
    requires start <= first && OthersRaised(answers, first + 1, end, positions)
    requires forall n: nat :: start <= n < first ==> answers(n).Raised?
    ensures OthersRaised(answers, start, end, [first] + positions)
  {
    var all := [first] + positions;
    forall n: nat | start <= n < end && n !in all
      ensures answers(n).Raised?
    {
      assert first in all && forall m :: m in positions ==> m in all;
    }
  }

  lemma IncreasingStep(start: nat, first: nat, positions: seq<nat>)
    requires start <= first && Increasing(first + 1, positions)
    ensures Increasing(start, [first] + positions)
  {
  }

  lemma MatchedStep(answers: nat -> Answer, max: int, e: Fields, index: nat, log: Log, mid: Log, next: Log,
                    receipt: Receipt, got: seq<Receipt>, n: nat, positions: seq<nat>)
    requires index < |e.targets| && Retried(max, answers, log, e.targets[index], Child(e, index), mid, Some(receipt), n)
    requires Matched(answers, e, index + 1, mid, next, got, positions)
    ensures Matched(answers, e, index, log, next, [receipt] + got, [|log.calls| + n - 1] + positions)
  {
    var first := |log.calls| + n - 1;
    FirstServed(answers, max, e, index, log, mid, next, receipt, n);
    IncreasingStep(|log.calls|, first, positions);
    AllServedStep(answers, e, index, next, first, receipt, got, positions);
    OthersRaisedStep(answers, |log.calls|, first, |next.calls|, positions);
  }

  lemma NothingMatched(answers: nat -> Answer, max: int, e: Fields, index: nat, log: Log, next: Log, n: nat)
    requires index < |e.targets| && Retried(max, answers, log, e.targets[index], Child(e, index), next, None, n)
    ensures Matched(answers, e, index, log, next, [], [])
  {
  }

  type Ending = (Log, seq<Receipt>, Option<Failure>)

  /** What a route from index on adds to the receipts so far, matched to its calls. */
  ghost predicate RouteMatched(answers: nat -> Answer, e: Fields, index: nat, log: Log, receipts: seq<Receipt>,
      end: Ending,
                               got: seq<Receipt>, positions: seq<nat>)
  {
    && end.1 == receipts + got && Matched(answers, e, index, log, end.0, got, positions)
    && (end.2.None? ==> index + |got| == |e.targets|)
  }

  lemma OneMore(before: seq<Receipt>, receipt: Receipt, after: seq<Receipt>)
    ensures before + [receipt] + after == before + ([receipt] + after)
  {
  }

  lemma RouteMatchedOnward(max: int, answers: nat -> Answer, e: Fields, index: nat, log: Log, receipts: seq<Receipt>,
      end: Ending,
                           mid: Log, receipt: Receipt, n: nat, got: seq<Receipt>, positions: seq<nat>)
    requires index < |e.targets| && Retried(max, answers, log, e.targets[index], Child(e, index), mid, Some(receipt), n)
    requires RouteMatched(answers, e, index + 1, mid, receipts + [receipt], end, got, positions)
    ensures RouteMatched(answers, e, index, log, receipts, end, [receipt] + got, [|log.calls| + n - 1] + positions)
  {
    MatchedStep(answers, max, e, index, log, mid, end.0, receipt, got, n, positions);
    OneMore(receipts, receipt, got);
  }

  lemma {:induction false} RouteMatches(max: int, answers: nat -> Answer, directory: map<string, Registration>,
      e: Fields,
                                        index: nat, log: Log, receipts: seq<Receipt>)
    returns (got: seq<Receipt>, positions: seq<nat>)
    requires max >= 0 && index <= |e.targets|
    ensures RouteMatched(answers, e, index, log, receipts, Route(max, answers, directory, e, index, log, receipts), got,
            positions)
    decreases |e.targets| - index
  {
    got, positions := [], [];
    if index < |e.targets| && Resolve(directory, e.targets[index], e).None? {
      var n := RetryCounts(max, answers, log, log, e.targets[index], Child(e, index), 1, None);
      var (mid, receipt) := Retry(max, answers, log, e.targets[index], Child(e, index), 1, None);
      if receipt.None? {
        NothingMatched(answers, max, e, index, log, mid, n);
      } else {
        var end := Route(max, answers, directory, e, index, log, receipts);
        got, positions := RouteMatches(max, answers, directory, e, index + 1, mid, receipts + [receipt.value]);
        RouteMatchedOnward(max, answers, e, index, log, receipts, end, mid, receipt.value, n, got, positions);
        got, positions := [receipt.value] + got, [|log.calls| + n - 1] + positions;
      }
    }
  }

  ghost predicate ResultMatched(answers: nat -> Answer, e: Fields, log: Log, next: Log, result: Result,
                                receipts: seq<Receipt>, positions: seq<nat>)
  {
    && Matched(answers, e, 0, log, next, receipts, positions)
    && (result.Done? ==> result.receipts == receipts && |receipts| == |e.targets|)
  }

  /** However a route run ends, the receipts it got match the calls that delivered one to one, each
      with its own target; when it returns a result there is one for every target. */
  lemma ReceiptsMatchTargets(max: int, answers: nat -> Answer, directory: map<string, Registration>,
                             reconcile: seq<Receipt> -> Option<string>, e: Fields, log: Log)
    requires max >= 0 && !WrongTargetCount(e)
    ensures var (next, result) := Execute(max, answers, directory, reconcile, e, log);
            exists receipts, positions :: ResultMatched(answers, e, log, next, result, receipts, positions)
  {
    var (next, all, failure) := Route(max, answers, directory, e, 0, log, []);
    var got, positions := RouteMatches(max, answers, directory, e, 0, log, []);
    var result := Execute(max, answers, directory, reconcile, e, log).1;
    assert all == got;
    assert ResultMatched(answers, e, log, next, result, got, positions);
  }

  // ---------------------------------------------------------------- what each child discloses

  /** The key is one of the comma-free parts that the entry is made of. */
  ghost predicate Names(entry: string, key: string) {
    exists parts :: parts != [] && Join(parts, ',') == entry && key in parts
      && forall i :: 0 <= i < |parts| ==> ',' !in parts[i]
  }

  lemma SplitNames(entry: string, key: string)
    ensures key in Text.Split(entry, ',') <==> Names(entry, key)
  {
    JoinOfSplit(entry, ',');
    PartsHaveNoSeparator(entry, ',');
    forall parts | parts != [] && Join(parts, ',') == entry && forall i :: 0 <= i < |parts| ==> ',' !in parts[i]
      ensures parts == Text.Split(entry, ',')
    {
      SplitOfJoin(parts, ',');
    }
  }

  /** Every envelope sent under split carries exactly the parent's entries that its target's policy
      entry names between commas, nothing at all without a policy entry, and a hash that matches;
      under direct and multicast it carries the whole payload. */
  lemma ChildDisclosesExactly(e: Fields, index: nat, attempt: int, key: string)
    requires index < |e.targets|
    ensures var sent := Numbered(Child(e, index), attempt).fields;
            && sent.payloadHash == HashOf(sent.payload) && sent.destination == e.targets[index]
            && (e.mode != RouteMode.Split ==> sent.payload == e.payload)
            && (key in sent.payload ==> key in e.payload && sent.payload[key] == e.payload[key])
            && (e.mode == RouteMode.Split ==>
                  (key in sent.payload <==>
                     key in e.payload && index < |e.disclosure| && Names(e.disclosure[index], key)))
  {
    if index < |e.disclosure| { SplitNames(e.disclosure[index], key); }
  }

  /** The signature an attempt carries verifies exactly when its number is the one the child was
      signed with: the retries of an envelope whose attempt is 1 all carry a signature that does
      not. */
  lemma OnlyTheSignedAttemptVerifies(e: Fields, index: nat, attempt: int)
    requires index < |e.targets|
    ensures var sent := Numbered(Child(e, index), attempt);
            sent.signature == Signed(sent.fields) <==> attempt == e.attempt
  {
  }
}
