/** What each message, timeout, exit and close does to the requests in flight, in every run: one good
    reply settles one request, and anything else that concerns the pipe ends it and rejects the rest. */
module WorkerFailure {
  import opened Identity
  import opened WorkerTransfer

  /** The pipe ended: nothing is in flight, and what was settled on the way are rejections of exactly
      the requests that were pending. */
  ghost predicate Ended(p: Pipe, p': Pipe) {
    && p'.closed && p'.pending == [] && p'.inputs == p.inputs && p'.nextId == p.nextId && p.settled <= p'.settled
    && (forall id :: Pending(p, id) ==> Settlement(id, Rejected) in p'.settled)
    && (forall k :: |p.settled| <= k < |p'.settled| ==>
          p'.settled[k].outcome == Rejected && Pending(p, p'.settled[k].id))
  }

  /** One request left the table with these bytes; the others wait on. */
  ghost predicate ResolvedOne(p: Pipe, p': Pipe, id: nat, bytes: Bytes) {
    && !p'.closed && p'.inputs == p.inputs && p'.nextId == p.nextId
    && p'.settled == p.settled + [Settlement(id, Resolved(bytes))]
    && (forall other :: Pending(p', other) <==> other != id && Pending(p, other))
  }

  lemma FailEnds(p: Pipe)
    requires !p.closed
    ensures Ended(p, Fail(p))
  {
    var p' := Fail(p);
    forall id | Pending(p, id)
      ensures Settlement(id, Rejected) in p'.settled
    {
      var i :| 0 <= i < |p.pending| && p.pending[i].id == id;
      assert p'.settled[|p.settled| + i] == Settlement(id, Rejected);
    }
    forall k | |p.settled| <= k < |p'.settled|
      ensures p'.settled[k].outcome == Rejected && Pending(p, p'.settled[k].id)
    {
      assert p'.settled[k] == Settlement(p.pending[k - |p.settled|].id, Rejected);
    }
  }

  lemma TakenOut(p: Pipe, i: nat, outcome: Outcome, other: nat)
    requires IdsDistinct(p) && i < |p.pending|
    ensures Pending(Settle(p, i, outcome), other) <==> other != p.pending[i].id && Pending(p, other)
  {
    var q := Settle(p, i, outcome);
    assert forall k :: 0 <= k < |q.pending| ==> q.pending[k] == if k < i then p.pending[k] else p.pending[k + 1];
    if other != p.pending[i].id && Pending(p, other) { RemovalKeepsOthers(p, i, outcome, other); }
  }

  lemma BadReplyEnds(p: Pipe, i: nat)
    requires IdsDistinct(p) && !p.closed && i < |p.pending|
    ensures Ended(p, Fail(Settle(p, i, Rejected)))
  {
    var q := Settle(p, i, Rejected);
    var p' := Fail(q);
    FailEnds(q);
    forall id: nat
      ensures Pending(q, id) <==> id != p.pending[i].id && Pending(p, id)
    {
      TakenOut(p, i, Rejected, id);
    }
    assert q.settled[|p.settled|] == Settlement(p.pending[i].id, Rejected);
    assert p'.settled[|p.settled|] == q.settled[|p.settled|];
  }

  /** The reply returns exactly the bytes that the request it names was made with. */
  ghost predicate ReturnsInput(p: Pipe, reply: Reply) {
    && 1 <= reply.id <= |p.inputs|
    && var input := p.inputs[reply.id - 1]; reply == Returned(reply.id, input, |input|, Sha256(input))
  }

  lemma FoundMeansPending(p: Pipe, id: nat)
    ensures Find(p.pending, id) < |p.pending| <==> Pending(p, id)
  {
  }

  lemma ReceiveEffect(limits: Limits, p: Pipe, reply: Reply)
    requires Inv(limits, p) && !p.closed
    ensures var p' := Receive(p, reply);
            if !Pending(p, reply.id) then p' == p
            else if ReturnsInput(p, reply) then
              ResolvedOne(p, p', reply.id, p.inputs[reply.id - 1]) && Resolves(p, reply)
            else Ended(p, p') && !Resolves(p, reply)
  {
    var i := Find(p.pending, reply.id);
    FoundMeansPending(p, reply.id);
    if i < |p.pending| {
      assert Describes(p, p.pending[i]);
      BadReplyEnds(p, i);
      if ReturnsInput(p, reply) {
        forall other: nat
          ensures Pending(Settle(p, i, Resolved(reply.contents)), other) <==> other != reply.id && Pending(p, other)
        {
          TakenOut(p, i, Resolved(reply.contents), other);
        }
      }
    }
  }

  /** In every run, the next reply to an open pipe: one that names no pending request changes nothing;
      one that returns the input of the request it names resolves that request alone, and the caller has
      its buffer; any other ends the pipe and rejects every request, and its buffer is lost. */
  lemma ReplySettlesOneOrEndsAll(limits: Limits, events: seq<Event>)
    requires !Run(limits, events).pipe.closed && Run(limits, events).outbox != []
    ensures var s := Run(limits, events);
            var s' := Step(limits, s, DeliverReply);
            var reply, buffer := s.outbox[0].reply, s.outbox[0].buffer;
            var good := Pending(s.pipe, reply.id) && ReturnsInput(s.pipe, reply);
            && (!Pending(s.pipe, reply.id) ==> s'.pipe == s.pipe)
            && (good ==> ResolvedOne(s.pipe, s'.pipe, reply.id, s.pipe.inputs[reply.id - 1]))
            && (Pending(s.pipe, reply.id) && !good ==> Ended(s.pipe, s'.pipe))
            && s'.outbox == s.outbox[1..] && s'.inbox == s.inbox
            && s'.caller == s.caller + (if good && buffer.Some? then {buffer.value} else {})
  {
    var s := Run(limits, events);
    RunKeepsInv(limits, events);
    ReceiveEffect(limits, s.pipe, s.outbox[0].reply);
    FoundMeansPending(s.pipe, s.outbox[0].reply.id);
  }

  /** So a delivered reply leaves an open pipe open exactly when it names no pending request or returns
      that request's input. */
  lemma OpenExactlyAfterGoodReplies(limits: Limits, events: seq<Event>)
    requires !Run(limits, events).pipe.closed && Run(limits, events).outbox != []
    ensures var s := Run(limits, events);
            var reply := s.outbox[0].reply;
            !Step(limits, s, DeliverReply).pipe.closed <==> !Pending(s.pipe, reply.id) || ReturnsInput(s.pipe, reply)
  {
    ReplySettlesOneOrEndsAll(limits, events);
  }

  /** A timeout of a request still in flight, a worker error, its exit and a close all end an open pipe;
      the timeout of a settled request does nothing. */
  lemma FailuresEndThePipe(limits: Limits, events: seq<Event>, e: Event)
    requires !Run(limits, events).pipe.closed && (e.Timeout? || e.WorkerError? || e.WorkerExit? || e.CallClose?)
    ensures var s := Run(limits, events);
            var s' := Step(limits, s, e);
            && s' == s.(pipe := s'.pipe)
            && (if e.Timeout? && !Pending(s.pipe, e.id) then s' == s else Ended(s.pipe, s'.pipe))
  {
    var s := Run(limits, events);
    if e.Timeout? { FoundMeansPending(s.pipe, e.id); }
    FailEnds(s.pipe);
  }

  /** The pipe with one more request in flight. */
  ghost function WithRequest(p: Pipe, bytes: Bytes): Pipe {
    Pipe(p.pending + [Request(p.nextId, |bytes|, Sha256(bytes))], p.nextId + 1, p.closed, p.inputs + [bytes], p.settled)
  }

  /** In every run a transfer is admitted exactly when the pipe is open, the buffer the caller holds has
      1 to maxBytes bytes and fewer than maxInflight requests are in flight. An admitted buffer that moved
      is the worker's and its request waits; one that did not move ends the pipe, its own request rejected
      with the others. A refused call changes nothing. */
  lemma TransferAdmitsExactlyWhen(limits: Limits, events: seq<Event>, buffer: nat, post: Post)
    ensures var s := Run(limits, events);
            var s' := Step(limits, s, CallTransfer(buffer, post));
            var bytes := if buffer in s.caller && buffer < |s.contents| then s.contents[buffer] else [];
            var admitted := !s.pipe.closed && 1 <= |bytes| <= limits.maxBytes && |s.pipe.pending| < limits.maxInflight;
            && (!admitted ==> s' == s)
            && (admitted && post == Detached ==>
                 s' == s.(pipe := WithRequest(s.pipe, bytes), caller := s.caller - {buffer},
                          inbox := s.inbox + [Parcel(s.pipe.nextId, buffer)]))
            && (admitted && post != Detached ==>
                 s' == s.(pipe := s'.pipe) && Ended(WithRequest(s.pipe, bytes), s'.pipe)
                   && Settlement(s.pipe.nextId, Rejected) in s'.pipe.settled)
  {
    var s := Run(limits, events);
    var bytes := HeldBytes(s, buffer);
    var grown := WithRequest(s.pipe, bytes);
    assert grown.pending[|s.pipe.pending|].id == s.pipe.nextId;
    if !s.pipe.closed { FailEnds(grown); }
  }
}
