/** Which ports a route may reach, how a run of it ends, and what exactly each target is sent. */
module RouteOutcomes {
  import opened Identity
  import opened RouteExecution

  // ---------------------------------------------------------------- resolution

  /** Registered, ready, up and out of maintenance, and offering the capability, classification and mode
      to a named organization and tenant. */
  ghost predicate Open(directory: map<string, Registration>, port: string, e: Fields) {
    && port in directory && e.organization != "" && e.tenant != ""
    && directory[port].readiness == Ready && !directory[port].maintenance
    && (directory[port].health == Healthy || directory[port].health == Degraded)
    && e.capability in directory[port].capabilities && e.classification in directory[port].classifications
    && e.mode in directory[port].modes
  }

  /** A port resolves exactly when it is open; an unknown port is a LookupError, a known one that is down
      or under maintenance is blocked, and everything else is a matter of permission. */
  lemma ResolvesExactlyWhenOpen(directory: map<string, Registration>, port: string, e: Fields)
    ensures Resolve(directory, port, e) == None <==> Open(directory, port, e)
    ensures Resolve(directory, port, e) == Some(LookupError) <==> port !in directory
    ensures Resolve(directory, port, e) == Some(BlockedError) <==>
              && port in directory && e.organization != "" && e.tenant != ""
              && (directory[port].readiness != Ready || directory[port].maintenance
                  || directory[port].health == UnavailableHealth)
    ensures Resolve(directory, port, e) in {None, Some(LookupError), Some(BlockedError), Some(PermissionError)}
  {
  }

  // ---------------------------------------------------------------- calls

  /** What target k is sent on a try: the parent's fields but for the destination, the transaction, the
      disclosed payload with its hash, and the number of the try; signed as numbered by the parent. */
  ghost predicate SentTo(e: Fields, k: nat, call: Call)
    requires k < |e.targets|
  {
    var sent := call.envelope.fields;
    && call.target == e.targets[k]
    && sent == Fields(e.txid + ":" + e.targets[k], e.targets[k], e.mode, e.targets, sent.payload,
                 HashOf(sent.payload), e.disclosure, e.capability, e.classification, e.organization, e.tenant,
                 sent.attempt)
    && call.envelope.signature == Signed(sent.(attempt := e.attempt))
    && (forall key :: key in sent.payload ==> key in e.payload && sent.payload[key] == e.payload[key])
    && (forall key :: key in e.payload ==>
         (key in sent.payload <==>
            e.mode != RouteMode.Split || (k < |e.disclosure| && Names(e.disclosure[k], key))))
  }

  lemma TryIsSent(e: Fields, k: nat, attempt: int)
    requires k < |e.targets|
    ensures SentTo(e, k, Call(e.targets[k], Numbered(Child(e, k), attempt)))
  {
    var sent := Numbered(Child(e, k), attempt).fields;
    forall key: string
      ensures key in sent.payload ==> key in e.payload && sent.payload[key] == e.payload[key]
      ensures key in e.payload ==>
                (key in sent.payload <==>
                   e.mode != RouteMode.Split || (k < |e.disclosure| && Names(e.disclosure[k], key)))
    {
      ChildDisclosesExactly(e, k, attempt, key);
    }
  }

  /** The call went to some open target of the route and carries what that target is to be sent. */
  ghost predicate LawfulCall(directory: map<string, Registration>, e: Fields, call: Call) {
    exists k :: 0 <= k < |e.targets| && Open(directory, e.targets[k], e) && SentTo(e, k, call)
  }

  ghost predicate LawfulSince(directory: map<string, Registration>, e: Fields, start: nat, calls: seq<Call>) {
    forall n :: start <= n < |calls| ==> LawfulCall(directory, e, calls[n])
  }

  lemma {:induction false} RetriesAreLawful(directory: map<string, Registration>, max: int, answers: nat -> Answer,
      start: nat, log: Log, e: Fields, k: nat, attempt: nat, error: Option<string>)
    requires k < |e.targets| && Open(directory, e.targets[k], e)
    requires LawfulSince(directory, e, start, log.calls)
    ensures LawfulSince(directory, e, start,
              Retry(max, answers, log, e.targets[k], Child(e, k), attempt, error).0.calls)
    decreases max - attempt
  {
    if attempt <= max {
      var call := Call(e.targets[k], Numbered(Child(e, k), attempt));
      TryIsSent(e, k, attempt);
      assert LawfulCall(directory, e, call);
      if answers(|log.calls|).Raised? {
        RetriesAreLawful(directory, max, answers, start, log.(calls := log.calls + [call]), e, k, attempt + 1,
          Some(answers(|log.calls|).kind));
      }
    }
  }

  /** How the loop from index on can end without a receipt for every target. */
  ghost predicate StopsAtClosed(directory: map<string, Registration>, e: Fields, index: nat, failure: Option<Failure>) {
    && (failure.None? ==> forall k :: index <= k < |e.targets| ==> Open(directory, e.targets[k], e))
    && (failure.Some? && failure != Some(Exhausted) ==>
         exists k :: index <= k < |e.targets| && !Open(directory, e.targets[k], e)
           && failure == Resolve(directory, e.targets[k], e)
           && forall j :: index <= j < k ==> Open(directory, e.targets[j], e))
  }

  lemma StopsHere(directory: map<string, Registration>, e: Fields, index: nat)
    requires index < |e.targets| && Resolve(directory, e.targets[index], e).Some?
    ensures StopsAtClosed(directory, e, index, Resolve(directory, e.targets[index], e))
  {
    ResolvesExactlyWhenOpen(directory, e.targets[index], e);
  }

  lemma StopsLater(directory: map<string, Registration>, e: Fields, index: nat, failure: Option<Failure>)
    requires index < |e.targets| && Open(directory, e.targets[index], e)
    requires StopsAtClosed(directory, e, index + 1, failure)
    ensures StopsAtClosed(directory, e, index, failure)
  {
    if failure.Some? && failure != Some(Exhausted) {
      var k :| index + 1 <= k < |e.targets| && !Open(directory, e.targets[k], e)
        && failure == Resolve(directory, e.targets[k], e)
        && forall j :: index + 1 <= j < k ==> Open(directory, e.targets[j], e);
      assert forall j :: index <= j < k ==> Open(directory, e.targets[j], e);
    }
  }

  lemma {:induction false} RouteIsLawful(directory: map<string, Registration>, max: int, answers: nat -> Answer,
      start: nat, e: Fields, index: nat, log: Log, receipts: seq<Receipt>)
    requires index <= |e.targets| && LawfulSince(directory, e, start, log.calls)
    ensures var (next, _, failure) := Route(max, answers, directory, e, index, log, receipts);
            LawfulSince(directory, e, start, next.calls) && StopsAtClosed(directory, e, index, failure)
    decreases |e.targets| - index
  {
    if index < |e.targets| {
      ResolvesExactlyWhenOpen(directory, e.targets[index], e);
      if Resolve(directory, e.targets[index], e).Some? {
        StopsHere(directory, e, index);
      } else {
        RetriesAreLawful(directory, max, answers, start, log, e, index, 1, None);
        var (next, receipt) := Retry(max, answers, log, e.targets[index], Child(e, index), 1, None);
        if receipt.Some? {
          RouteIsLawful(directory, max, answers, start, e, index + 1, next, receipts + [receipt.value]);
          var failure := Route(max, answers, directory, e, index + 1, next, receipts + [receipt.value]).2;
          StopsLater(directory, e, index, failure);
        }
      }
    }
  }

  // ---------------------------------------------------------------- results

  /** A route with the wrong number of targets sends nothing. In any other, every call goes to an open
      target and carries exactly what that target is to be sent; a result means all targets are open;
      and a resolution failure is that of the first target that is not. */
  lemma RoutesReachOpenPortsOnly(directory: map<string, Registration>, max: int, answers: nat -> Answer,
      reconcile: seq<Receipt> -> Option<string>, e: Fields, log: Log)
    ensures var (next, result) := Execute(max, answers, directory, reconcile, e, log);
            var wrong := if e.mode == Direct then |e.targets| != 1 else |e.targets| < 2;
            && (result == Failed(ValueError) <==> wrong)
            && (wrong ==> next == log)
            && LawfulSince(directory, e, |log.calls|, next.calls)
            && (result.Done? ==> forall k :: 0 <= k < |e.targets| ==> Open(directory, e.targets[k], e))
            && (result.Failed? && result.failure in {LookupError, PermissionError, BlockedError} ==>
                 StopsAtClosed(directory, e, 0, Some(result.failure)))
  {
    RouteIsLawful(directory, max, answers, |log.calls|, e, 0, log, []);
    var (next, receipts, failure) := Route(max, answers, directory, e, 0, log, []);
    if failure.Some? && failure != Some(Exhausted) {
      var k :| 0 <= k < |e.targets| && !Open(directory, e.targets[k], e)
        && failure == Resolve(directory, e.targets[k], e)
        && forall j :: 0 <= j < k ==> Open(directory, e.targets[j], e);
      ResolvesExactlyWhenOpen(directory, e.targets[k], e);
    }
  }

  /** A result is complete exactly when every receipt says "completed" and the receipts reconciled, and
      partial exactly when it is not complete and some receipt says so. Its receipts are those the
      reconciler decided on. */
  lemma CompleteAndPartialExactlyWhen(directory: map<string, Registration>, max: int, answers: nat -> Answer,
      reconcile: seq<Receipt> -> Option<string>, e: Fields, log: Log)
    requires Execute(max, answers, directory, reconcile, e, log).1.Done?
    ensures var result := Execute(max, answers, directory, reconcile, e, log).1;
            && reconcile(result.receipts) == Some(result.status)
            && (result.complete <==>
                 result.status == "reconciled" && forall r :: r in result.receipts ==> r.portStatus == "completed")
            && (result.partial <==>
                 !result.complete && exists r :: r in result.receipts && r.portStatus == "completed")
  {
    var result := Execute(max, answers, directory, reconcile, e, log).1;
    var receipts := Route(max, answers, directory, e, 0, log, []).1;
    ConcludedFlags(receipts, reconcile(receipts), result);
  }

  lemma ConcludedFlags(receipts: seq<Receipt>, status: Option<string>, result: Result)
    requires result == Conclude(receipts, status) && result.Done?
    ensures result.receipts == receipts && status == Some(result.status)
    ensures result.complete <==>
              result.status == "reconciled" && forall r :: r in receipts ==> r.portStatus == "completed"
    ensures result.partial <==> !result.complete && exists r :: r in receipts && r.portStatus == "completed"
  {
    assert forall i :: 0 <= i < |receipts| ==> receipts[i] in receipts;
    if exists r :: r in receipts && r.portStatus == "completed" {
      var r :| r in receipts && r.portStatus == "completed";
      var i :| 0 <= i < |receipts| && receipts[i] == r;
      assert Completed(receipts[i]);
    }
  }

  /** Open targets whose calls all deliver give a result, or the reconciler's failure: one call and one
      receipt for each target, in order. */
  lemma OpenTargetsAreServed(directory: map<string, Registration>, max: int, answers: nat -> Answer,
      reconcile: seq<Receipt> -> Option<string>, e: Fields, log: Log)
    requires max >= 1 && if e.mode == Direct then |e.targets| == 1 else |e.targets| >= 2
    requires forall k :: 0 <= k < |e.targets| ==> Open(directory, e.targets[k], e)
    requires forall n: nat :: |log.calls| <= n < |log.calls| + |e.targets| ==> answers(n).Delivered?
    ensures var (next, result) := Execute(max, answers, directory, reconcile, e, log);
            && |next.calls| == |log.calls| + |e.targets| && next.letters == log.letters
            && (result == Failed(ReconcilerError) || (result.Done? && |result.receipts| == |e.targets|
                && forall k :: 0 <= k < |e.targets| ==> answers(|log.calls| + k) == Delivered(result.receipts[k])))
  {
    ServedFrom(directory, max, answers, e, 0, log, log, []);
  }

  lemma {:induction false} ServedFrom(directory: map<string, Registration>, max: int, answers: nat -> Answer,
      e: Fields, index: nat, start: Log, log: Log, receipts: seq<Receipt>)
    requires max >= 1 && index <= |e.targets| && |log.calls| == |start.calls| + index && log.letters == start.letters
    requires forall k :: 0 <= k < |e.targets| ==> Open(directory, e.targets[k], e)
    requires forall n: nat :: |start.calls| <= n < |start.calls| + |e.targets| ==> answers(n).Delivered?
    requires |receipts| == index && forall k :: 0 <= k < index ==> answers(|start.calls| + k) == Delivered(receipts[k])
    ensures var (next, got, failure) := Route(max, answers, directory, e, index, log, receipts);
            && failure == None && |next.calls| == |start.calls| + |e.targets| && next.letters == start.letters
            && |got| == |e.targets|
            && forall k :: 0 <= k < |e.targets| ==> answers(|start.calls| + k) == Delivered(got[k])
    decreases |e.targets| - index
  {
    if index < |e.targets| {
      ResolvesExactlyWhenOpen(directory, e.targets[index], e);
      var (next, receipt) := Retry(max, answers, log, e.targets[index], Child(e, index), 1, None);
      assert answers(|log.calls|).Delivered?;
      ServedFrom(directory, max, answers, e, index + 1, start, next, receipts + [receipt.value]);
    }
  }
}
