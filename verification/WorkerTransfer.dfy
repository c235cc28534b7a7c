/** DirectPipeWorkerTransfer against its worker: a table of requests in flight, one reply per
    request, and buffers that move instead of being copied. */
module WorkerTransfer {
  import opened Identity

  /** SHA-256 hex text, named by what it is the digest of. */
  datatype Digest = Sha256(of: Bytes)

  datatype Request = Request(id: nat, logicalBytes: nat, expectedSha256: Digest)

  datatype Outcome = Resolved(output: Bytes) | Rejected

  datatype Settlement = Settlement(id: nat, outcome: Outcome)

  datatype Limits = Limits(maxBytes: nat, maxInflight: nat)

  /** A message from the worker: an error, or a buffer with the length and digest it claims. */
  datatype Reply = Failed(id: nat) | Returned(id: nat, contents: Bytes, byteLength: nat, sha256: Digest)

  /** What postMessage did: moved the buffer, left it in place, or threw. */
  datatype Post = Detached | NotDetached | Threw

  datatype Admission = Admitted(id: nat) | PipeClosed | SizeRejected | CapacityExceeded

  /** The object's fields (the request table in insertion order), and two histories: the bytes of
      every admitted transfer, id n at index n - 1, and every promise settled so far. */
  datatype Pipe = Pipe(pending: seq<Request>, nextId: nat, closed: bool, inputs: seq<Bytes>, settled: seq<Settlement>)

  const OPEN := Pipe([], 1, false, [], [])

  function RejectAll(requests: seq<Request>): (r: seq<Settlement>)
    ensures |r| == |requests| && forall i :: 0 <= i < |r| ==> r[i] == Settlement(requests[i].id, Rejected)
  {
    seq(|requests|, i requires 0 <= i < |requests| => Settlement(requests[i].id, Rejected))
  }

  /** #fail: once only; reject everything in flight. */
  function Fail(p: Pipe): Pipe {
    if p.closed then p else p.(closed := true, pending := [], settled := p.settled + RejectAll(p.pending))
  }

  /** transfer: `bytes` is what the buffer holds, empty if it was detached before. */
  function Transfer(limits: Limits, p: Pipe, bytes: Bytes, post: Post): (r: (Pipe, Admission)) {
    if p.closed then (p, PipeClosed)
    else if |bytes| < 1 || |bytes| > limits.maxBytes then (p, SizeRejected)
    else if |p.pending| >= limits.maxInflight then (p, CapacityExceeded)
    else
      var admitted := p.(pending := p.pending + [Request(p.nextId, |bytes|, Sha256(bytes))],
                         nextId := p.nextId + 1, inputs := p.inputs + [bytes]);
      (if post.Detached? then admitted else Fail(admitted), Admitted(p.nextId))
  }

  /** The position of a request in the table, or its length. */
  function Find(pending: seq<Request>, id: nat): (i: nat)
    ensures i <= |pending|
    ensures i < |pending| ==> pending[i].id == id
    ensures forall k :: 0 <= k < i ==> pending[k].id != id
  {
    if pending == [] || pending[0].id == id then 0 else 1 + Find(pending[1..], id)
  }

  predicate Intact(r: Request, reply: Reply) {
    && reply.Returned? && reply.byteLength == r.logicalBytes && |reply.contents| == r.logicalBytes
    && reply.sha256 == r.expectedSha256 && Sha256(reply.contents) == r.expectedSha256
  }

  /** Take request i out of the table and settle its promise. */
  function Settle(p: Pipe, i: nat, outcome: Outcome): Pipe
    requires i < |p.pending|
  {
    p.(pending := p.pending[..i] + p.pending[i + 1..], settled := p.settled + [Settlement(p.pending[i].id, outcome)])
  }

  /** #receive: drop unknown ids, otherwise settle the request and fail the pipe on any mismatch. */
  function Receive(p: Pipe, reply: Reply): Pipe {
    var i := Find(p.pending, reply.id);
    if i == |p.pending| then p else
    if Intact(p.pending[i], reply) then Settle(p, i, Resolved(reply.contents)) else Fail(Settle(p, i, Rejected))
  }

  class DirectPipeWorkerTransfer {
    const limits: Limits
    var pending: seq<Request>
    var nextId: nat
    var closed: bool
    ghost var inputs: seq<Bytes>
    ghost var settled: seq<Settlement>

    ghost function View(): Pipe
      reads this
    {
      Pipe(pending, nextId, closed, inputs, settled)
    }

    constructor (limits: Limits)
      ensures this.limits == limits && View() == OPEN
    {
      this.limits := limits;
      pending, nextId, closed, inputs, settled := [], 1, false, [], [];
    }

    method TransferBuffer(bytes: Bytes, post: Post) returns (admission: Admission)
      modifies this
      ensures (View(), admission) == Transfer(limits, old(View()), bytes, post)
    {
      if closed { return PipeClosed; }
      if |bytes| < 1 || |bytes| > limits.maxBytes { return SizeRejected; }
      if |pending| >= limits.maxInflight { return CapacityExceeded; }
      var id := nextId;
      nextId := nextId + 1;
      inputs := inputs + [bytes];
      pending := pending + [Request(id, |bytes|, Sha256(bytes))];
      if !post.Detached? { FailAll(); }
      admission := Admitted(id);
    }

    method ReceiveReply(reply: Reply)
      modifies this
      ensures View() == Receive(old(View()), reply)
      ensures !closed ==>
                || View() == old(View())
                || (reply.Returned? && Settlement(reply.id, Resolved(reply.contents)) in settled)
    {
      var i := 0;
      while i < |pending| && pending[i].id != reply.id
        invariant 0 <= i <= |pending|
        invariant forall k :: 0 <= k < i ==> pending[k].id != reply.id
      {
        i := i + 1;
      }
      FoundAt(pending, reply.id, i);
      if i == |pending| { return; }
      var request := pending[i];
      pending := pending[..i] + pending[i + 1..];
      if Intact(request, reply) {
        settled := settled + [Settlement(reply.id, Resolved(reply.contents))];
      } else {
        settled := settled + [Settlement(reply.id, Rejected)];
        FailAll();
      }
    }

    /** The loop of #fail. */
    method FailAll()
      modifies this
      ensures View() == Fail(old(View()))
    {
      if closed { return; }
      closed := true;
      var i := 0;
      while i < |pending|
        invariant 0 <= i <= |pending|
        invariant settled == old(settled) + RejectAll(pending[..i])
        invariant closed && pending == old(pending) && nextId == old(nextId) && inputs == old(inputs)
      {
        settled := settled + [Settlement(pending[i].id, Rejected)];
        i := i + 1;
        assert RejectAll(pending[..i]) == RejectAll(pending[..i - 1]) + [Settlement(pending[i - 1].id, Rejected)];
      }
      assert pending[..i] == pending;
      pending := [];
    }

    method Close()
      modifies this
      ensures View() == Fail(old(View()))
    {
      if !closed { FailAll(); }
    }
  }

  lemma {:induction false} FoundAt(pending: seq<Request>, id: nat, i: nat)
    requires i <= |pending| && (i < |pending| ==> pending[i].id == id) && forall k :: 0 <= k < i ==> pending[k].id != id
    ensures Find(pending, id) == i
  {
    var j := Find(pending, id);
    assert j < |pending| ==> pending[j].id == id;
  }

  // ---------------------------------------------------------------- promises

  ghost predicate Pending(p: Pipe, id: nat) { exists i :: 0 <= i < |p.pending| && p.pending[i].id == id }
  ghost predicate Settled(p: Pipe, id: nat) { exists i :: 0 <= i < |p.settled| && p.settled[i].id == id }

  ghost predicate IdsDistinct(p: Pipe) {
    && (forall i, j :: 0 <= i < j < |p.pending| ==> p.pending[i].id != p.pending[j].id)
    && (forall i, j :: 0 <= i < j < |p.settled| ==> p.settled[i].id != p.settled[j].id)
    && (forall i, j :: 0 <= i < |p.pending| && 0 <= j < |p.settled| ==> p.pending[i].id != p.settled[j].id)
  }

  ghost predicate Describes(p: Pipe, r: Request) {
    && 1 <= r.id <= |p.inputs|
    && r.logicalBytes == |p.inputs[r.id - 1]| && r.expectedSha256 == Sha256(p.inputs[r.id - 1])
  }

  ghost predicate Honours(p: Pipe, s: Settlement) {
    1 <= s.id <= |p.inputs| && (s.outcome.Resolved? ==> s.outcome.output == p.inputs[s.id - 1])
  }

  ghost predicate RequestsDescribeInputs(p: Pipe) {
    && (forall i :: 0 <= i < |p.pending| ==> Describes(p, p.pending[i]))
    && (forall i :: 0 <= i < |p.settled| ==> Honours(p, p.settled[i]))
  }

  ghost predicate Inv(limits: Limits, p: Pipe) {
    && p.nextId == |p.inputs| + 1 && |p.pending| <= limits.maxInflight && (p.closed ==> p.pending == [])
    && IdsDistinct(p)
    && RequestsDescribeInputs(p)
    && (forall id :: 1 <= id < p.nextId ==> Pending(p, id) || Settled(p, id))
  }

  lemma FailKeepsInv(limits: Limits, p: Pipe)
    requires Inv(limits.(maxInflight := limits.maxInflight + 1), p) && (p.closed ==> p.pending == [])
    requires |p.pending| <= limits.maxInflight || !p.closed
    ensures Inv(limits, Fail(p))
  {
    var q := Fail(p);
    forall id | 1 <= id < p.nextId
      ensures Settled(q, id) || Pending(q, id)
    {
      if Pending(p, id) && !p.closed {
        var i :| 0 <= i < |p.pending| && p.pending[i].id == id;
        assert q.settled[|p.settled| + i].id == id;
      } else if Settled(p, id) {
        var i :| 0 <= i < |p.settled| && p.settled[i].id == id;
        assert q.settled[i].id == id;
      }
    }
  }

  lemma TransferKeepsInv(limits: Limits, p: Pipe, bytes: Bytes, post: Post)
    requires Inv(limits, p)
    ensures Inv(limits, Transfer(limits, p, bytes, post).0)
  {
    var (q, admission) := Transfer(limits, p, bytes, post);
    if admission.Admitted? {
      var admitted := Transfer(limits, p, bytes, Detached).0;
      forall id | 1 <= id < admitted.nextId
        ensures Pending(admitted, id) || Settled(admitted, id)
      {
        if id == p.nextId {
          assert admitted.pending[|p.pending|].id == id;
        } else if Pending(p, id) {
          var i :| 0 <= i < |p.pending| && p.pending[i].id == id;
          assert admitted.pending[i].id == id;
        }
      }
      assert Inv(limits, admitted);
      FailKeepsInv(limits, admitted);
    }
  }

  lemma SettlingKeepsIds(p: Pipe, i: nat, outcome: Outcome)
    requires i < |p.pending| && IdsDistinct(p)
    ensures IdsDistinct(Settle(p, i, outcome))
  {
    var q := Settle(p, i, outcome);
    assert forall k :: 0 <= k < |q.pending| ==> q.pending[k] == if k < i then p.pending[k] else p.pending[k + 1];
  }

  lemma SettlingLosesNobody(p: Pipe, i: nat, outcome: Outcome, id: nat)
    requires i < |p.pending| && (Pending(p, id) || Settled(p, id))
    ensures Pending(Settle(p, i, outcome), id) || Settled(Settle(p, i, outcome), id)
  {
    var q := Settle(p, i, outcome);
    if Pending(p, id) {
      var k :| 0 <= k < |p.pending| && p.pending[k].id == id;
      if k == i {
        assert q.settled[|p.settled|].id == id;
      } else {
        assert q.pending[if k < i then k else k - 1].id == id;
      }
    } else {
      var k :| 0 <= k < |p.settled| && p.settled[k].id == id;
      assert q.settled[k].id == id;
    }
  }

  lemma SettlingKeepsInv(limits: Limits, p: Pipe, i: nat, outcome: Outcome)
    requires Inv(limits, p) && i < |p.pending|
    requires outcome.Resolved? ==>
               1 <= p.pending[i].id <= |p.inputs| && outcome.output == p.inputs[p.pending[i].id - 1]
    ensures Inv(limits, Settle(p, i, outcome))
  {
    var q := Settle(p, i, outcome);
    SettlingKeepsIds(p, i, outcome);
    assert Describes(p, p.pending[i]);
    forall k | 0 <= k < |q.pending|
      ensures Describes(q, q.pending[k])
    {
      assert Describes(p, if k < i then p.pending[k] else p.pending[k + 1]);
    }
    forall k | 0 <= k < |q.settled|
      ensures Honours(q, q.settled[k])
    {
      assert k < |p.settled| ==> Honours(p, p.settled[k]);
    }
    forall id | 1 <= id < q.nextId
      ensures Pending(q, id) || Settled(q, id)
    {
      SettlingLosesNobody(p, i, outcome, id);
    }
  }

  lemma ReceiveKeepsInv(limits: Limits, p: Pipe, reply: Reply)
    requires Inv(limits, p)
    ensures Inv(limits, Receive(p, reply))
  {
    var i := Find(p.pending, reply.id);
    if i < |p.pending| {
      var intact := Intact(p.pending[i], reply);
      assert Describes(p, p.pending[i]);
      SettlingKeepsInv(limits, p, i, if intact then Resolved(reply.contents) else Rejected);
      if !intact {
        FailKeepsInv(limits, Settle(p, i, Rejected));
      }
    }
  }

  // ---------------------------------------------------------------- the whole system

  /** A buffer on its way, with the request it belongs to. */
  datatype Parcel = Parcel(id: nat, buffer: nat)
  datatype Answer = Answer(reply: Reply, buffer: Option<nat>)

  /** Buffers are named by number. `caller` holds those the main thread can read, `inbox` those posted
      to the worker, `outbox` those posted back; `lost` is garbage. */
  datatype System = System(
    pipe: Pipe, contents: seq<Bytes>, caller: set<nat>, inbox: seq<Parcel>, outbox: seq<Answer>, lost: multiset<nat>)

  const IDLE := System(OPEN, [], {}, [], [], multiset{})

  datatype Behaviour = Echo | Fails | Faulty(id: nat, bytes: Bytes, byteLength: nat, sha256: Digest)

  datatype Event =
    | Allocate(bytes: Bytes)
    | CallTransfer(buffer: nat, post: Post)
    | WorkerTurn(behaviour: Behaviour)
    | DeliverReply
    | Timeout(id: nat)
    | WorkerError
    | WorkerExit
    | CallClose

  function HeldBytes(s: System, buffer: nat): Bytes {
    if buffer in s.caller && buffer < |s.contents| then s.contents[buffer] else []
  }

  function DoTransfer(limits: Limits, s: System, buffer: nat, post: Post): System {
    var (pipe, admission) := Transfer(limits, s.pipe, HeldBytes(s, buffer), post);
    if admission.Admitted? && post.Detached?
    then s.(pipe := pipe, caller := s.caller - {buffer}, inbox := s.inbox + [Parcel(admission.id, buffer)])
    else s.(pipe := pipe)
  }

  function DoWorker(s: System, behaviour: Behaviour): System {
    if s.pipe.closed || s.inbox == [] || s.inbox[0].buffer >= |s.contents| then s else
    var parcel := s.inbox[0];
    var rest := s.(inbox := s.inbox[1..]);
    match behaviour
    case Echo =>
      var bytes := s.contents[parcel.buffer];
      rest.(outbox := s.outbox + [Answer(Returned(parcel.id, bytes, |bytes|, Sha256(bytes)), Some(parcel.buffer))])
    case Fails =>
      rest.(outbox := s.outbox + [Answer(Failed(parcel.id), None)], lost := s.lost + multiset{parcel.buffer})
    case Faulty(id, bytes, byteLength, sha256) =>
      rest.(contents := s.contents[parcel.buffer := bytes],
            outbox := s.outbox + [Answer(Returned(id, bytes, byteLength, sha256), Some(parcel.buffer))])
  }

  /** A delivered buffer belongs to the caller if its request resolved, otherwise to nobody. */
  function DoDeliver(s: System): System {
    if s.outbox == [] then s else
    var answer := s.outbox[0];
    var pipe := Receive(s.pipe, answer.reply);
    var next := s.(pipe := pipe, outbox := s.outbox[1..]);
    if answer.buffer.None? then next
    else if Resolves(s.pipe, answer.reply) then next.(caller := s.caller + {answer.buffer.value})
    else next.(lost := s.lost + multiset{answer.buffer.value})
  }

  predicate Resolves(p: Pipe, reply: Reply) {
    var i := Find(p.pending, reply.id);
    i < |p.pending| && Intact(p.pending[i], reply)
  }

  function Step(limits: Limits, s: System, e: Event): System {
    match e
    case Allocate(bytes) => s.(contents := s.contents + [bytes], caller := s.caller + {|s.contents|})
    case CallTransfer(buffer, post) => DoTransfer(limits, s, buffer, post)
    case WorkerTurn(behaviour) => DoWorker(s, behaviour)
    case DeliverReply => DoDeliver(s)
    case Timeout(id) => if Find(s.pipe.pending, id) < |s.pipe.pending| then s.(pipe := Fail(s.pipe)) else s
    case WorkerError => s.(pipe := Fail(s.pipe))
    case WorkerExit => s.(pipe := Fail(s.pipe))
    case CallClose => s.(pipe := Fail(s.pipe))
  }

  function Run(limits: Limits, events: seq<Event>): System
    decreases |events|
  {
    if events == [] then IDLE else Step(limits, Run(limits, events[..|events| - 1]), events[|events| - 1])
  }

  // ---------------------------------------------------------------- ownership

  ghost function InboxBuffers(q: seq<Parcel>): multiset<nat> {
    if q == [] then multiset{} else multiset{q[0].buffer} + InboxBuffers(q[1..])
  }

  ghost function OutboxBuffers(q: seq<Answer>): multiset<nat> {
    if q == [] then multiset{}
    else (if q[0].buffer.Some? then multiset{q[0].buffer.value} else multiset{}) + OutboxBuffers(q[1..])
  }

  /** Every place a buffer can be. */
  ghost function Holders(s: System): multiset<nat> {
    multiset(s.caller) + InboxBuffers(s.inbox) + OutboxBuffers(s.outbox) + s.lost
  }

  /** Each allocated buffer is in exactly one place, exactly once. */
  ghost predicate OneOwnerEach(s: System) {
    forall b: nat :: Holders(s)[b] == if b < |s.contents| then 1 else 0
  }

  /** Buffers on their way back still hold what their reply carries. */
  ghost predicate RepliesMatchBuffers(s: System) {
    forall i :: 0 <= i < |s.outbox| && s.outbox[i].buffer.Some? ==>
      s.outbox[i].reply.Returned? && s.outbox[i].buffer.value < |s.contents|
        && s.contents[s.outbox[i].buffer.value] == s.outbox[i].reply.contents
  }

  lemma {:induction false} InboxAppend(q: seq<Parcel>, x: Parcel)
    ensures InboxBuffers(q + [x]) == InboxBuffers(q) + multiset{x.buffer}
  {
    if q != [] {
      assert (q + [x])[1..] == q[1..] + [x];
      InboxAppend(q[1..], x);
    }
  }

  lemma {:induction false} OutboxAppend(q: seq<Answer>, x: Answer)
    ensures OutboxBuffers(q + [x]) == OutboxBuffers(q) + if x.buffer.Some? then multiset{x.buffer.value} else multiset{}
  {
    if q != [] {
      assert (q + [x])[1..] == q[1..] + [x];
      OutboxAppend(q[1..], x);
    } else {
      assert [x][1..] == [];
    }
  }

  lemma {:induction false} OutboxMember(q: seq<Answer>, i: nat)
    requires i < |q| && q[i].buffer.Some?
    ensures OutboxBuffers(q)[q[i].buffer.value] >= 1
  {
    if i > 0 {
      OutboxMember(q[1..], i - 1);
    }
  }

  /** Buffers on their way to the worker hold what was transferred. */
  ghost predicate ParcelsHoldInputs(s: System) {
    forall i :: 0 <= i < |s.inbox| ==>
      1 <= s.inbox[i].id <= |s.pipe.inputs| && s.inbox[i].buffer < |s.contents|
      && s.contents[s.inbox[i].buffer] == s.pipe.inputs[s.inbox[i].id - 1]
  }

  ghost predicate SystemInv(limits: Limits, s: System) {
    Inv(limits, s.pipe) && OneOwnerEach(s) && RepliesMatchBuffers(s) && ParcelsHoldInputs(s)
  }

  lemma {:induction false} InboxMember(q: seq<Parcel>, i: nat)
    requires i < |q|
    ensures InboxBuffers(q)[q[i].buffer] >= 1
    ensures i > 0 && q[0].buffer == q[i].buffer ==> InboxBuffers(q)[q[i].buffer] >= 2
  {
    if i > 0 {
      InboxMember(q[1..], i - 1);
    }
  }

  lemma TransferMovesBuffer(limits: Limits, s: System, buffer: nat, post: Post)
    requires OneOwnerEach(s)
    ensures Holders(DoTransfer(limits, s, buffer, post)) == Holders(s)
  {
    var s' := DoTransfer(limits, s, buffer, post);
    if s'.inbox != s.inbox {
      var parcel := s'.inbox[|s.inbox|];
      InboxAppend(s.inbox, parcel);
      assert buffer in s.caller;
      assert multiset(s.caller) == multiset(s.caller - {buffer}) + multiset{buffer};
    }
  }

  lemma WorkerMovesBuffer(s: System, behaviour: Behaviour)
    ensures Holders(DoWorker(s, behaviour)) == Holders(s)
    ensures |DoWorker(s, behaviour).contents| == |s.contents|
  {
    var s' := DoWorker(s, behaviour);
    if s'.outbox != s.outbox {
      OutboxAppend(s.outbox, s'.outbox[|s.outbox|]);
      assert InboxBuffers(s.inbox) == multiset{s.inbox[0].buffer} + InboxBuffers(s.inbox[1..]);
    }
  }

  lemma Regroup(c: multiset<nat>, i: multiset<nat>, x: multiset<nat>, o: multiset<nat>, l: multiset<nat>)
    ensures (c + x) + i + o + l == c + i + (x + o) + l
    ensures c + i + o + (l + x) == c + i + (x + o) + l
  {
  }

  lemma ReturnedToCaller(s: System, b: nat)
    requires OneOwnerEach(s) && s.outbox != [] && s.outbox[0].buffer == Some(b)
    ensures Holders(s.(outbox := s.outbox[1..], caller := s.caller + {b})) == Holders(s)
  {
    OutboxMember(s.outbox, 0);
    assert Holders(s)[b] <= 1;
    assert multiset(s.caller + {b}) == multiset(s.caller) + multiset{b};
    Regroup(multiset(s.caller), InboxBuffers(s.inbox), multiset{b}, OutboxBuffers(s.outbox[1..]), s.lost);
  }

  lemma LostOnTheWay(s: System, b: nat)
    requires s.outbox != [] && s.outbox[0].buffer == Some(b)
    ensures Holders(s.(outbox := s.outbox[1..], lost := s.lost + multiset{b})) == Holders(s)
  {
    Regroup(multiset(s.caller), InboxBuffers(s.inbox), multiset{b}, OutboxBuffers(s.outbox[1..]), s.lost);
  }

  lemma PipeHoldsNoBuffer(s: System, p: Pipe)
    ensures Holders(s.(pipe := p)) == Holders(s)
  {
  }

  lemma DeliveryMovesBuffer(s: System)
    requires OneOwnerEach(s)
    ensures Holders(DoDeliver(s)) == Holders(s)
  {
    if s.outbox != [] {
      var pipe := Receive(s.pipe, s.outbox[0].reply);
      var moved := s.(outbox := s.outbox[1..]);
      match s.outbox[0].buffer {
        case None => PipeHoldsNoBuffer(moved, pipe);
        case Some(b) =>
          ReturnedToCaller(s, b);
          LostOnTheWay(s, b);
          PipeHoldsNoBuffer(moved.(caller := s.caller + {b}), pipe);
          PipeHoldsNoBuffer(moved.(lost := s.lost + multiset{b}), pipe);
      }
    }
  }

  lemma WorkerKeepsReplies(s: System, behaviour: Behaviour)
    requires OneOwnerEach(s) && RepliesMatchBuffers(s)
    ensures RepliesMatchBuffers(DoWorker(s, behaviour))
  {
    var s' := DoWorker(s, behaviour);
    if s' != s {
      var b := s.inbox[0].buffer;
      assert InboxBuffers(s.inbox)[b] >= 1;
      forall i | 0 <= i < |s'.outbox| && s'.outbox[i].buffer.Some?
        ensures s'.outbox[i].reply.Returned? && s'.outbox[i].buffer.value < |s'.contents|
                && s'.contents[s'.outbox[i].buffer.value] == s'.outbox[i].reply.contents
      {
        if i < |s.outbox| {
          OutboxMember(s.outbox, i);
          assert Holders(s)[b] <= 1;
          assert s.outbox[i].buffer.value != b;
        }
      }
    }
  }

  lemma WorkerKeepsParcels(s: System, behaviour: Behaviour)
    requires OneOwnerEach(s) && ParcelsHoldInputs(s)
    ensures ParcelsHoldInputs(DoWorker(s, behaviour))
  {
    var s' := DoWorker(s, behaviour);
    if s' != s {
      forall i | 0 <= i < |s'.inbox|
        ensures s'.inbox[i].buffer != s.inbox[0].buffer
      {
        InboxMember(s.inbox, i + 1);
        assert Holders(s)[s'.inbox[i].buffer] <= 1;
      }
    }
  }

  lemma TransferKeepsParcels(limits: Limits, s: System, buffer: nat, post: Post)
    requires SystemInv(limits, s)
    ensures ParcelsHoldInputs(DoTransfer(limits, s, buffer, post))
            && RepliesMatchBuffers(DoTransfer(limits, s, buffer, post))
  {
    var s' := DoTransfer(limits, s, buffer, post);
    if s'.inbox != s.inbox {
      assert Holders(s)[buffer] >= 1;
      assert s'.pipe.inputs == s.pipe.inputs + [HeldBytes(s, buffer)];
    }
  }

  lemma AllocationKeepsOwners(s: System, bytes: Bytes)
    requires OneOwnerEach(s)
    ensures OneOwnerEach(s.(contents := s.contents + [bytes], caller := s.caller + {|s.contents|}))
  {
    var next := |s.contents|;
    assert Holders(s)[next] == 0;
    assert multiset(s.caller + {next}) == multiset(s.caller) + multiset{next};
    Regroup(multiset(s.caller), InboxBuffers(s.inbox), multiset{next}, OutboxBuffers(s.outbox), s.lost);
    assert Holders(s.(contents := s.contents + [bytes], caller := s.caller + {next})) == Holders(s) + multiset{next};
  }

  lemma FailingKeepsSystem(limits: Limits, s: System)
    requires SystemInv(limits, s)
    ensures SystemInv(limits, s.(pipe := Fail(s.pipe)))
  {
    FailKeepsInv(limits, s.pipe);
    assert Holders(s.(pipe := Fail(s.pipe))) == Holders(s);
  }

  lemma ReceiveKeepsInputs(p: Pipe, reply: Reply)
    ensures Receive(p, reply).inputs == p.inputs
  {
  }

  lemma DeliveryKeepsMessages(s: System)
    requires ParcelsHoldInputs(s) && RepliesMatchBuffers(s)
    ensures ParcelsHoldInputs(DoDeliver(s)) && RepliesMatchBuffers(DoDeliver(s))
    ensures DoDeliver(s).contents == s.contents
  {
    var s' := DoDeliver(s);
    if s.outbox != [] {
      ReceiveKeepsInputs(s.pipe, s.outbox[0].reply);
      assert s'.outbox == s.outbox[1..] && s'.inbox == s.inbox && s'.contents == s.contents
             && s'.pipe.inputs == s.pipe.inputs;
    }
  }

  lemma DeliveryKeepsInv(limits: Limits, s: System)
    requires SystemInv(limits, s)
    ensures Inv(limits, DoDeliver(s).pipe) && OneOwnerEach(DoDeliver(s))
    ensures ParcelsHoldInputs(DoDeliver(s)) && RepliesMatchBuffers(DoDeliver(s))
  {
    DeliveryKeepsMessages(s);
    DeliveryMovesBuffer(s);
    if s.outbox != [] {
      ReceiveKeepsInv(limits, s.pipe, s.outbox[0].reply);
      assert DoDeliver(s).pipe == Receive(s.pipe, s.outbox[0].reply);
    }
  }

  lemma TransferKeepsSystem(limits: Limits, s: System, buffer: nat, post: Post)
    requires SystemInv(limits, s)
    ensures SystemInv(limits, DoTransfer(limits, s, buffer, post))
  {
    TransferKeepsInv(limits, s.pipe, HeldBytes(s, buffer), post);
    TransferMovesBuffer(limits, s, buffer, post);
    TransferKeepsParcels(limits, s, buffer, post);
  }

  lemma WorkerKeepsSystem(limits: Limits, s: System, behaviour: Behaviour)
    requires SystemInv(limits, s)
    ensures SystemInv(limits, DoWorker(s, behaviour))
  {
    WorkerMovesBuffer(s, behaviour);
    WorkerKeepsReplies(s, behaviour);
    WorkerKeepsParcels(s, behaviour);
  }

  lemma AllocationKeepsSystem(limits: Limits, s: System, bytes: Bytes)
    requires SystemInv(limits, s)
    ensures SystemInv(limits, s.(contents := s.contents + [bytes], caller := s.caller + {|s.contents|}))
  {
    AllocationKeepsOwners(s, bytes);
  }

  lemma StepKeepsInv(limits: Limits, s: System, e: Event)
    requires SystemInv(limits, s)
    ensures SystemInv(limits, Step(limits, s, e))
  {
    match e
    case Allocate(bytes) => AllocationKeepsSystem(limits, s, bytes);
    case CallTransfer(buffer, post) => TransferKeepsSystem(limits, s, buffer, post);
    case WorkerTurn(behaviour) => WorkerKeepsSystem(limits, s, behaviour);
    case DeliverReply => DeliveryKeepsInv(limits, s);
    case _ => FailingKeepsSystem(limits, s);
  }

  lemma {:induction false} RunKeepsInv(limits: Limits, events: seq<Event>)
    ensures SystemInv(limits, Run(limits, events))
    decreases |events|
  {
    if events != [] {
      RunKeepsInv(limits, events[..|events| - 1]);
      StepKeepsInv(limits, Run(limits, events[..|events| - 1]), events[|events| - 1]);
    } else {
      assert multiset(IDLE.caller) == multiset{};
    }
  }

  ghost predicate SettledAlike(p: Pipe, id: nat) {
    forall i, j :: 0 <= i < |p.settled| && 0 <= j < |p.settled| && p.settled[i].id == id && p.settled[j].id == id ==>
      i == j
  }

  ghost predicate ResolvedFaithfully(p: Pipe) {
    forall i :: 0 <= i < |p.settled| && p.settled[i].outcome.Resolved? ==>
      1 <= p.settled[i].id <= |p.inputs| && p.settled[i].outcome.output == p.inputs[p.settled[i].id - 1]
  }

  lemma InvSettles(limits: Limits, p: Pipe, id: nat)
    requires Inv(limits, p)
    ensures SettledAlike(p, id) && ResolvedFaithfully(p) && !(Pending(p, id) && Settled(p, id))
    ensures Pending(p, id) || Settled(p, id) ==> 1 <= id < p.nextId
  {
    forall i | 0 <= i < |p.settled|
      ensures Honours(p, p.settled[i])
    {
    }
    forall i | 0 <= i < |p.pending|
      ensures Describes(p, p.pending[i])
    {
    }
  }

  /** In every interleaving, with any worker: an id is pending or settled exactly when it was admitted,
      never both and settled at most once; the table is bounded; closing leaves nothing pending; every
      buffer has one owner; and a resolved output is the input, byte for byte. */
  lemma EveryTransferSettlesOnce(limits: Limits, events: seq<Event>, id: nat)
    ensures var s := Run(limits, events);
            && (Pending(s.pipe, id) || Settled(s.pipe, id) <==> 1 <= id < s.pipe.nextId)
            && !(Pending(s.pipe, id) && Settled(s.pipe, id)) && SettledAlike(s.pipe, id) && ResolvedFaithfully(s.pipe)
            && |s.pipe.pending| <= limits.maxInflight && (s.pipe.closed ==> s.pipe.pending == [])
            && OneOwnerEach(s)
  {
    RunKeepsInv(limits, events);
    InvSettles(limits, Run(limits, events).pipe, id);
  }

  lemma ClosedStep(limits: Limits, s: System, e: Event)
    requires SystemInv(limits, s) && s.pipe.closed
    ensures Step(limits, s, e).pipe == s.pipe
  {
  }

  /** Closed is permanent, and a closed pipe admits and settles nothing more. */
  lemma {:induction false} ClosedIsPermanent(limits: Limits, events: seq<Event>, more: seq<Event>)
    requires Run(limits, events).pipe.closed
    ensures Run(limits, events + more).pipe == Run(limits, events).pipe
    decreases |more|
  {
    if more == [] {
      assert events + more == events;
    } else {
      var n := |more| - 1;
      var all := events + more;
      assert all[..|all| - 1] == events + more[..n] && all[|all| - 1] == more[n];
      ClosedIsPermanent(limits, events, more[..n]);
      RunKeepsInv(limits, events + more[..n]);
      ClosedStep(limits, Run(limits, events + more[..n]), more[n]);
    }
  }

  /** A reply that carries back the bytes of the transfer it names, as the worker sends it. */
  predicate Honest(p: Pipe, a: Answer) {
    && a.reply.Returned? && a.buffer.Some? && 1 <= a.reply.id <= |p.inputs|
    && var bytes := p.inputs[a.reply.id - 1];
       a.reply == Returned(a.reply.id, bytes, |bytes|, Sha256(bytes))
  }

  predicate AllHonest(s: System) { forall i :: 0 <= i < |s.outbox| ==> Honest(s.pipe, s.outbox[i]) }

  /** Everything on its way to the main thread arrives, in order. */
  function DeliverAll(s: System): System
    decreases |s.outbox|
  {
    if s.outbox == [] then s else DeliverAll(DoDeliver(s))
  }

  ghost predicate ResolvedAs(p: Pipe, id: nat, bytes: Bytes) { Settlement(id, Resolved(bytes)) in p.settled }

  lemma RemovalKeepsOthers(p: Pipe, i: nat, outcome: Outcome, id: nat)
    requires i < |p.pending| && p.pending[i].id != id && Pending(p, id)
    ensures Pending(Settle(p, i, outcome), id)
  {
    var k :| 0 <= k < |p.pending| && p.pending[k].id == id;
    assert Settle(p, i, outcome).pending[if k < i then k else k - 1].id == id;
  }

  /** What one honest reply does: its request resolves if it is still pending, and no other changes. */
  lemma HonestReceive(limits: Limits, p: Pipe, a: Answer, id: nat)
    requires Inv(limits, p) && !p.closed && Honest(p, a)
    ensures var q := Receive(p, a.reply);
            && !q.closed && q.inputs == p.inputs && p.settled <= q.settled
            && (Pending(p, a.reply.id) ==> Resolves(p, a.reply) && ResolvedAs(q, a.reply.id, p.inputs[a.reply.id - 1]))
            && (id != a.reply.id && Pending(p, id) ==> Pending(q, id))
  {
    var i := Find(p.pending, a.reply.id);
    if i < |p.pending| {
      assert Describes(p, p.pending[i]);
      var q := Settle(p, i, Resolved(a.reply.contents));
      assert q.settled[|p.settled|] == Settlement(a.reply.id, Resolved(a.reply.contents));
      if id != a.reply.id && Pending(p, id) { RemovalKeepsOthers(p, i, Resolved(a.reply.contents), id); }
    }
  }

  lemma HonestDelivery(limits: Limits, s: System, id: nat)
    requires SystemInv(limits, s) && !s.pipe.closed && AllHonest(s) && s.outbox != []
    ensures var t := DoDeliver(s);
            var first := s.outbox[0];
            && SystemInv(limits, t) && !t.pipe.closed && AllHonest(t) && t.outbox == s.outbox[1..]
            && t.pipe.inputs == s.pipe.inputs && s.pipe.settled <= t.pipe.settled && s.caller <= t.caller
            && (Pending(s.pipe, first.reply.id) ==>
                  first.buffer.value in t.caller
                    && ResolvedAs(t.pipe, first.reply.id, s.pipe.inputs[first.reply.id - 1]))
            && (id != first.reply.id && Pending(s.pipe, id) ==> Pending(t.pipe, id))
  {
    assert Honest(s.pipe, s.outbox[0]);
    HonestReceive(limits, s.pipe, s.outbox[0], id);
    DeliveryKeepsInv(limits, s);
    forall i | 0 <= i < |s.outbox[1..]|
      ensures Honest(DoDeliver(s).pipe, s.outbox[1..][i])
    {
      assert Honest(s.pipe, s.outbox[i + 1]);
    }
  }

  /** Delivering a queue of honest replies keeps what was resolved and what the caller holds. */
  lemma {:induction false} QueueOnlyAdds(limits: Limits, s: System)
    requires SystemInv(limits, s) && !s.pipe.closed && AllHonest(s)
    ensures var end := DeliverAll(s);
            !end.pipe.closed && s.pipe.settled <= end.pipe.settled && s.caller <= end.caller
              && end.pipe.inputs == s.pipe.inputs
    decreases |s.outbox|
  {
    if s.outbox != [] {
      HonestDelivery(limits, s, 0);
      QueueOnlyAdds(limits, DoDeliver(s));
    }
  }

  /** Reply k of the queue resolves its request in the end and its buffer is back. */
  ghost predicate ReplyLands(s: System, k: nat, end: System)
    requires k < |s.outbox|
  {
    var id := s.outbox[k].reply.id;
    && 1 <= id <= |s.pipe.inputs| && ResolvedAs(end.pipe, id, s.pipe.inputs[id - 1])
    && s.outbox[k].buffer.Some? && s.outbox[k].buffer.value in end.caller
  }

  lemma HeadLands(limits: Limits, s: System)
    requires SystemInv(limits, s) && !s.pipe.closed && AllHonest(s) && s.outbox != []
             && Pending(s.pipe, s.outbox[0].reply.id)
    ensures ReplyLands(s, 0, DeliverAll(s))
  {
    assert Honest(s.pipe, s.outbox[0]);
    HonestDelivery(limits, s, 0);
    QueueOnlyAdds(limits, DoDeliver(s));
  }

  /** The first reply in the queue that names a pending request resolves it and returns its buffer. */
  lemma {:induction false} QueueResolves(limits: Limits, s: System, k: nat)
    requires SystemInv(limits, s) && !s.pipe.closed && AllHonest(s) && k < |s.outbox|
             && Pending(s.pipe, s.outbox[k].reply.id)
    requires forall i :: 0 <= i < k ==> s.outbox[i].reply.id != s.outbox[k].reply.id
    ensures ReplyLands(s, k, DeliverAll(s))
    decreases |s.outbox|
  {
    if k == 0 {
      HeadLands(limits, s);
    } else {
      var next := DoDeliver(s);
      HonestDelivery(limits, s, s.outbox[k].reply.id);
      assert next.outbox[k - 1] == s.outbox[k];
      QueueResolves(limits, next, k - 1);
    }
  }

  lemma EchoJoinsTheQueue(limits: Limits, s: System)
    requires SystemInv(limits, s) && s.inbox != [] && !s.pipe.closed && AllHonest(s)
    ensures var next := DoWorker(s, Echo);
            && SystemInv(limits, next) && next.pipe == s.pipe && AllHonest(next) && |next.outbox| == |s.outbox| + 1
            && next.outbox[..|s.outbox|] == s.outbox && next.outbox[|s.outbox|].reply.id == s.inbox[0].id
            && next.outbox[|s.outbox|].buffer == Some(s.inbox[0].buffer)
  {
    WorkerKeepsSystem(limits, s, Echo);
    var next := DoWorker(s, Echo);
    assert 1 <= s.inbox[0].id <= |s.pipe.inputs|;
    forall i | 0 <= i < |next.outbox|
      ensures Honest(next.pipe, next.outbox[i])
    {
      assert i < |s.outbox| ==> Honest(s.pipe, s.outbox[i]);
    }
  }

  /** The position of the first reply naming an id. */
  lemma FirstNamed(outbox: seq<Answer>, id: nat, k: nat) returns (first: nat)
    requires k < |outbox| && outbox[k].reply.id == id
    ensures first <= k && outbox[first].reply.id == id && forall i :: 0 <= i < first ==> outbox[i].reply.id != id
  {
    first := 0;
    while outbox[first].reply.id != id
      invariant first <= k && forall i :: 0 <= i < first ==> outbox[i].reply.id != id
      decreases k - first
    {
      first := first + 1;
    }
  }

  /** What EchoResolves promises of the state in which everything has arrived. */
  ghost predicate Echoed(s: System, end: System)
    requires s.inbox != []
  {
    var id := s.inbox[0].id;
    && !end.pipe.closed && 1 <= id <= |s.pipe.inputs| && ResolvedAs(end.pipe, id, s.pipe.inputs[id - 1])
    && ((forall i :: 0 <= i < |s.outbox| ==> s.outbox[i].reply.id != id) ==> s.inbox[0].buffer in end.caller)
  }

  lemma EchoLands(limits: Limits, s: System)
    requires SystemInv(limits, s) && s.inbox != [] && !s.pipe.closed && AllHonest(s) && Pending(s.pipe, s.inbox[0].id)
    ensures Echoed(s, DeliverAll(DoWorker(s, Echo)))
  {
    EchoJoinsTheQueue(limits, s);
    var next := DoWorker(s, Echo);
    var first := FirstNamed(next.outbox, s.inbox[0].id, |s.outbox|);
    assert first < |s.outbox| ==> next.outbox[..|s.outbox|][first] == s.outbox[first];
    QueueResolves(limits, next, first);
    QueueOnlyAdds(limits, next);
  }

  /** An honest worker answers the oldest parcel while any number of other honest replies are on their
      way. Once they have all arrived its request, if it was still pending, is resolved with the bytes
      transferred, the pipe is still open, and the same buffer is back unless an earlier reply in the
      queue named the same request. */
  lemma EchoResolves(limits: Limits, events: seq<Event>)
    requires var s := Run(limits, events);
             s.inbox != [] && !s.pipe.closed && AllHonest(s) && Pending(s.pipe, s.inbox[0].id)
    ensures var s := Run(limits, events);
            Echoed(s, DeliverAll(DoWorker(s, Echo)))
  {
    RunKeepsInv(limits, events);
    EchoLands(limits, Run(limits, events));
  }
}
