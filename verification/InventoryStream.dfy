/**
 The inventory control stream of api/client/inventory.go.

 One half of the stream is a send loop, a receive loop and any number of user goroutines calling
 `Send`, `Recv`, `Close` and `CloseWithError`.  They share unbuffered channels, a mutex-guarded
 error and a done channel; each `Send` brings its own reply channel with room for one error.  The
 two halves run the same code over different message types, so both are modelled here, told apart
 by `Half`.  What the underlying gRPC stream does is left open at every step.
 */
module InventoryStream {
  import opened Options

  // ---------- Messages ----------

  /** The agent's half (`downstreamICS`) and the controller's half (`upstreamICS`). */
  datatype Half = Agent | Controller

  function Peer(h: Half): Half { if h.Agent? then Controller else Agent }

  datatype Kind = UpstreamHello | Heartbeat | Pong | DownstreamHello | Ping | Unexpected

  datatype Msg = Msg(kind: Kind, body: nat)

  /** The types the send loop can wrap. */
  predicate Sendable(h: Half, m: Msg) {
    match h
    case Agent => m.kind.UpstreamHello? || m.kind.Heartbeat? || m.kind.Pong?
    case Controller => m.kind.DownstreamHello? || m.kind.Ping?
  }

  /** The variants the receive loop can unwrap; it skips all others. */
  predicate Known(h: Half, m: Msg) {
    match h
    case Agent => m.kind.DownstreamHello? || m.kind.Ping?
    case Controller => m.kind.UpstreamHello? || m.kind.Heartbeat? || m.kind.Pong?
  }

  /** Every kind but the unexpected is sent by one half only, and is what the other can unwrap. */
  lemma KindsMatch(m: Msg)
    ensures Sendable(Agent, m) <==> m.kind.UpstreamHello? || m.kind.Heartbeat? || m.kind.Pong?
    ensures !m.kind.Unexpected? <==> Sendable(Agent, m) != Sendable(Controller, m)
    ensures forall h: Half :: Known(Peer(h), m) == Sendable(h, m)
  {
    assert Peer(Agent) == Controller && Peer(Controller) == Agent;
  }

  // ---------- State ----------

  datatype Err = Eof | RecvFailed(why: nat) | SendFailed(why: nat) | FromUser(why: nat)

  /** What `stream.Send` or `stream.Recv` fails with. */
  datatype IoErr = IoEof | IoErr(why: nat)

  datatype Reply = Ok | BadType | Broken(io: IoErr)

  datatype SendResult =
    | Replied(reply: Reply)
    | ResultSkipped            // context done while waiting for the reply
    | NotSentContext           // context done before the loop took the message
    | NotSentClosed(err: Err)
    | ExternallyClosed

  datatype CallPhase = Offering | Awaiting | SawDone | Returned(result: SendResult)

  /** One call of `Send`, with its context and its reply channel. */
  datatype Call = Call(msg: Msg, phase: CallPhase, ctxDone: bool, errC: seq<Reply>)

  datatype SendLoop = Picking | Holding(id: nat) | Replying(id: nat, reply: Reply) | Failing(err: Err) | InClose | Ended

  datatype RecvLoop = Reading | Delivering(msg: Msg) | RecvFailing(err: Err) | RecvInClose | RecvEnded

  datatype Who = User | Sender | Receiver

  datatype Lock = Free | HeldBy(who: Who)

  datatype Item = Item(id: nat, msg: Msg)

  datatype Passed = Passed(id: nat, msg: Msg, ok: bool)

  datatype State = State(
    calls: seq<Call>,
    send: SendLoop,
    recv: RecvLoop,
    lock: Lock,               // held between setting the error and closing the done channel
    err: Option<Err>,
    closes: nat,              // how often the done channel has been closed
    accepted: seq<Item>,      // what the send loop took, in order
    replies: seq<Reply>,      // what it answered, in order
    wire: seq<Passed>,        // what it passed to the stream, in order
    read: seq<Msg>,           // what the receive loop read from the stream
    delivered: seq<Msg>)      // what it handed to users

  function Init(): State {
    State([], Picking, Reading, Free, None, 0, [], [], [], [], [])
  }

  predicate Done(s: State) { s.closes > 0 }

  // ---------- Steps ----------

  datatype Step =
    | NewCall(msg: Msg)
    | CtxDone(id: nat)
    | Offer(id: nat)
    | GiveUp(id: nat)
    | SeeDone(id: nat)
    | ReadError(id: nat)
    | TakeReply(id: nat)
    | SkipReply(id: nat)
    | Refuse
    | Pass(io: Option<IoErr>)       // None: the stream took the message
    | Answer
    | SenderSeesDone
    | SenderCloses
    | UserCloses(err: Option<Err>)
    | FinishClose
    | Read(msg: Msg)
    | ReadFails(cause: IoErr)
    | Deliver
    | ReceiverSeesDone
    | ReceiverCloses

  predicate CallAt(s: State, id: nat, p: CallPhase) {
    id < |s.calls| && s.calls[id].phase == p
  }

  predicate Enabled(h: Half, s: State, step: Step) {
    match step
    case NewCall(_) => true
    case CtxDone(id) => id < |s.calls|
    case Offer(id) => CallAt(s, id, Offering) && s.send.Picking?
    case GiveUp(id) => CallAt(s, id, Offering) && s.calls[id].ctxDone
    case SeeDone(id) => CallAt(s, id, Offering) && Done(s)
    case ReadError(id) => CallAt(s, id, SawDone) && s.lock.Free?
    case TakeReply(id) => CallAt(s, id, Awaiting) && s.calls[id].errC != []
    case SkipReply(id) => CallAt(s, id, Awaiting) && s.calls[id].ctxDone
    case Refuse => s.send.Holding? && s.send.id < |s.calls| && !Sendable(h, s.calls[s.send.id].msg)
    case Pass(_) => s.send.Holding? && s.send.id < |s.calls| && Sendable(h, s.calls[s.send.id].msg)
    case Answer => s.send.Replying? && s.send.id < |s.calls| && |s.calls[s.send.id].errC| < 1
    case SenderSeesDone => s.send.Picking? && Done(s)
    case SenderCloses => s.send.Failing? && s.lock.Free?
    case UserCloses(_) => s.lock.Free?
    case FinishClose => s.lock.HeldBy?
    case Read(_) => s.recv.Reading?
    case ReadFails(_) => s.recv.Reading?
    case Deliver => s.recv.Delivering?
    case ReceiverSeesDone => s.recv.Delivering? && Done(s)
    case ReceiverCloses => s.recv.RecvFailing? && s.lock.Free?
  }

  function Set(s: State, id: nat, p: CallPhase): State
    requires id < |s.calls|
  {
    s.(calls := s.calls[id := s.calls[id].(phase := p)])
  }

  function SendErr(io: IoErr): Err { if io.IoEof? then Eof else SendFailed(io.why) }

  function RecvErr(io: IoErr): Err { if io.IoEof? then Eof else RecvFailed(io.why) }

  /** Entering `CloseWithError` with the mutex: only the first closer sets the error. */
  function BeginClose(s: State, err: Err, who: Who): State {
    if s.err.Some? then s else s.(err := Some(err), lock := HeldBy(who))
  }

  function Apply(h: Half, s: State, step: Step): State
    requires Enabled(h, s, step)
  {
    match step
    case NewCall(m) => s.(calls := s.calls + [Call(m, Offering, false, [])])
    case CtxDone(id) => s.(calls := s.calls[id := s.calls[id].(ctxDone := true)])
    case Offer(id) =>
      Set(s, id, Awaiting).(send := Holding(id), accepted := s.accepted + [Item(id, s.calls[id].msg)])
    case GiveUp(id) => Set(s, id, Returned(NotSentContext))
    case SeeDone(id) => Set(s, id, SawDone)
    case ReadError(id) =>
      Set(s, id, Returned(if s.err.None? then ExternallyClosed else NotSentClosed(s.err.value)))
    case TakeReply(id) =>
      var c := s.calls[id];
      s.(calls := s.calls[id := c.(phase := Returned(Replied(c.errC[0])), errC := c.errC[1..])])
    case SkipReply(id) => Set(s, id, Returned(ResultSkipped))
    case Refuse => s.(send := Replying(s.send.id, BadType))
    case Pass(io) =>
      var id := s.send.id;
      s.(send := Replying(id, if io.None? then Ok else Broken(io.value)),
         wire := s.wire + [Passed(id, s.calls[id].msg, io.None?)])
    case Answer =>
      var id, r := s.send.id, s.send.reply;
      s.(calls := s.calls[id := s.calls[id].(errC := s.calls[id].errC + [r])],
         replies := s.replies + [r],
         send := if r.Broken? then Failing(SendErr(r.io)) else Picking)
    case SenderSeesDone => s.(send := Ended)
    case SenderCloses =>
      if s.err.Some? then s.(send := Ended) else BeginClose(s, s.send.err, Sender).(send := InClose)
    case UserCloses(err) => BeginClose(s, if err.None? then Eof else err.value, User)
    case FinishClose =>
      s.(closes := s.closes + 1, lock := Free,
         send := if s.lock.who.Sender? then Ended else s.send,
         recv := if s.lock.who.Receiver? then RecvEnded else s.recv)
    case Read(m) => s.(read := s.read + [m], recv := if Known(h, m) then Delivering(m) else Reading)
    case ReadFails(io) => s.(recv := RecvFailing(RecvErr(io)))
    case Deliver => s.(delivered := s.delivered + [s.recv.msg], recv := Reading)
    case ReceiverSeesDone => s.(recv := RecvEnded)
    case ReceiverCloses =>
      if s.err.Some? then s.(recv := RecvEnded) else BeginClose(s, s.recv.err, Receiver).(recv := RecvInClose)
  }

  ghost predicate Run(h: Half, s: State, steps: seq<Step>, t: State)
    decreases |steps|
  {
    if steps == [] then s == t
    else Enabled(h, s, steps[0]) && Run(h, Apply(h, s, steps[0]), steps[1..], t)
  }

  /** `s` is a state of half h under some interleaving of its goroutines. */
  ghost predicate Reachable(h: Half, steps: seq<Step>, s: State) {
    Run(h, Init(), steps, s)
  }

  // ---------- Closing ----------

  predicate Closing(s: State) {
    && s.closes + (if s.lock.HeldBy? then 1 else 0) == (if s.err.Some? then 1 else 0)
    && (s.lock == HeldBy(Sender) <==> s.send.InClose?)
    && (s.lock == HeldBy(Receiver) <==> s.recv.RecvInClose?)
    && (s.send.Ended? || s.recv.RecvEnded? ==> Done(s))
  }

  /** A call is told of a closed stream only when it is closed, and then finds the error. */
  predicate CallsSeeClose(s: State) {
    forall id :: 0 <= id < |s.calls| ==> SeesClose(s, s.calls[id].phase)
  }

  predicate SeesClose(s: State, p: CallPhase) {
    (p.SawDone? ==> Done(s)) && p != Returned(ExternallyClosed)
  }

  // ---------- Sending ----------

  /** What the send loop is working on. */
  predicate Busy(s: State) { s.send.Holding? || s.send.Replying? }

  /** Item i of the accepted ones belongs to an actual call, and no other item does. */
  predicate Owned(s: State) {
    && (forall i {:trigger s.accepted[i]} :: 0 <= i < |s.accepted| ==> OwnedItem(s, i))
    && (forall i, j :: 0 <= i < j < |s.accepted| ==> s.accepted[i].id != s.accepted[j].id)
  }

  predicate OwnedItem(s: State, i: int)
    requires 0 <= i < |s.accepted|
  {
    && s.accepted[i].id < |s.calls|
    && s.calls[s.accepted[i].id].msg == s.accepted[i].msg
    && Taken(s.calls[s.accepted[i].id].phase)
  }

  predicate Taken(p: CallPhase) {
    p.Awaiting? || (p.Returned? && (p.result.Replied? || p.result.ResultSkipped?))
  }

  /** One reply per accepted item, in order, except that the last item may still be in hand. */
  predicate Answered(s: State) {
    && |s.accepted| == |s.replies| + (if Busy(s) then 1 else 0)
    && (Busy(s) ==> s.accepted[|s.replies|].id == s.send.id)
  }

  /** The call was taken and has not been given its reply back yet. */
  predicate ReplyDue(p: CallPhase) {
    p.Awaiting? || p == Returned(ResultSkipped)
  }

  /** What is in a call's reply channel, or was taken out of it, is the reply to that call. */
  predicate Boxed(s: State) {
    forall i :: 0 <= i < |s.replies| && i < |s.accepted| && s.accepted[i].id < |s.calls| ==>
      HoldsReply(s.calls[s.accepted[i].id], s.replies[i])
  }

  predicate HoldsReply(c: Call, r: Reply) {
    && (ReplyDue(c.phase) ==> c.errC == [r])
    && (c.phase.Returned? && c.phase.result.Replied? ==> c.phase.result.reply == r)
  }

  /** Until then the reply channel is empty: giving the reply cannot block. */
  predicate BoxesEmpty(s: State) {
    && (Busy(s) && s.send.id < |s.calls| ==>
          s.calls[s.send.id].errC == [] && ReplyDue(s.calls[s.send.id].phase))
    && (forall id :: 0 <= id < |s.calls| && !Taken(s.calls[id].phase) ==> s.calls[id].errC == [])
  }

  /** A call that is waiting was taken by the loop. */
  ghost predicate WaitersTaken(s: State) {
    forall id :: 0 <= id < |s.calls| && Taken(s.calls[id].phase) ==> exists i :: Accepts(s, i, id)
  }

  predicate Accepts(s: State, i: int, id: nat) {
    0 <= i < |s.accepted| && s.accepted[i].id == id
  }

  /** The stream traffic that the replies to the items call for. */
  function Traffic(h: Half, items: seq<Item>, rs: seq<Reply>): seq<Passed>
    requires |items| == |rs|
  {
    if items == [] then []
    else
      var n := |items| - 1;
      var before := Traffic(h, items[..n], rs[..n]);
      if Sendable(h, items[n].msg) then before + [Passed(items[n].id, items[n].msg, rs[n].Ok?)] else before
  }

  predicate Honest(h: Half, m: Msg, r: Reply) {
    r.BadType? <==> !Sendable(h, m)
  }

  /** The replies decided on so far, whether given yet or not. */
  function Decided(s: State): seq<Reply> {
    if s.send.Replying? then s.replies + [s.send.reply] else s.replies
  }

  predicate OnWire(h: Half, s: State) {
    var rs := Decided(s);
    && |rs| <= |s.accepted|
    && s.wire == Traffic(h, s.accepted[..|rs|], rs)
    && (forall i :: 0 <= i < |rs| ==> Honest(h, s.accepted[i].msg, rs[i]))
  }

  /** After the stream has failed once, nothing more is sent. */
  predicate StopsAtFailure(s: State) {
    && (forall i :: 0 <= i < |s.replies| - 1 ==> !s.replies[i].Broken?)
    && (s.replies != [] && s.replies[|s.replies| - 1].Broken? ==> s.send.Failing? || s.send.InClose? || s.send.Ended?)
  }

  // ---------- Receiving ----------

  function Keep(h: Half, ms: seq<Msg>): seq<Msg> {
    if ms == [] then []
    else
      var before := Keep(h, ms[..|ms| - 1]);
      if Known(h, ms[|ms| - 1]) then before + [ms[|ms| - 1]] else before
  }

  predicate Receiving(h: Half, s: State) {
    var known := Keep(h, s.read);
    if s.recv.Delivering? then known == s.delivered + [s.recv.msg]
    else if s.recv.RecvEnded? then s.delivered <= known && |known| <= |s.delivered| + 1
    else known == s.delivered
  }

  ghost predicate Inv(h: Half, s: State) {
    && Closing(s)
    && CallsSeeClose(s)
    && Owned(s)
    && Answered(s)
    && Boxed(s)
    && BoxesEmpty(s)
    && WaitersTaken(s)
    && OnWire(h, s)
    && StopsAtFailure(s)
    && Receiving(h, s)
  }

  // ---------- Every step keeps the invariant ----------

  lemma ClosingKept(h: Half, s: State, step: Step)
    requires Closing(s) && Enabled(h, s, step)
    ensures Closing(Apply(h, s, step))
  {}

  lemma CallsSeeCloseKept(h: Half, s: State, step: Step)
    requires Closing(s) && CallsSeeClose(s) && Enabled(h, s, step)
    ensures CallsSeeClose(Apply(h, s, step))
  {
    var t := Apply(h, s, step);
    forall id | 0 <= id < |t.calls| ensures SeesClose(t, t.calls[id].phase) {
      SeesCloseKept(h, s, step, t, id);
    }
  }

  lemma SeesCloseKept(h: Half, s: State, step: Step, t: State, id: nat)
    requires Closing(s) && CallsSeeClose(s) && Enabled(h, s, step) && t == Apply(h, s, step) && id < |t.calls|
    ensures SeesClose(t, t.calls[id].phase)
  {
    assert id < |s.calls| ==> SeesClose(s, s.calls[id].phase);
  }

  lemma OwnedKept(h: Half, s: State, step: Step)
    requires Owned(s) && Enabled(h, s, step)
    ensures Owned(Apply(h, s, step))
  {
    var t := Apply(h, s, step);
    forall i | 0 <= i < |t.accepted| ensures OwnedItem(t, i) {
      OwnedItemKept(h, s, step, t, i);
    }
  }

  lemma OwnedItemKept(h: Half, s: State, step: Step, t: State, i: nat)
    requires Owned(s) && Enabled(h, s, step) && t == Apply(h, s, step) && i < |t.accepted|
    ensures OwnedItem(t, i)
  {
    assert i < |s.accepted| ==> OwnedItem(s, i);
  }

  lemma AnsweredKept(h: Half, s: State, step: Step)
    requires Closing(s) && Owned(s) && Answered(s) && Enabled(h, s, step)
    ensures Answered(Apply(h, s, step))
  {}

  lemma StopsAtFailureKept(h: Half, s: State, step: Step)
    requires StopsAtFailure(s) && Enabled(h, s, step)
    ensures StopsAtFailure(Apply(h, s, step))
  {}

  lemma ReceivingKept(h: Half, s: State, step: Step)
    requires Receiving(h, s) && Closing(s) && Enabled(h, s, step)
    ensures Receiving(h, Apply(h, s, step))
  {
    if step.Read? {
      assert (s.read + [step.msg])[..|s.read|] == s.read;
    }
  }

  lemma TrafficSnoc(h: Half, items: seq<Item>, rs: seq<Reply>, n: nat, r: Reply)
    requires n == |rs| < |items|
    ensures Traffic(h, items[..n + 1], rs + [r])
         == (if Sendable(h, items[n].msg)
             then Traffic(h, items[..n], rs) + [Passed(items[n].id, items[n].msg, r.Ok?)]
             else Traffic(h, items[..n], rs))
  {
    assert items[..n + 1][..n] == items[..n] && (rs + [r])[..n] == rs;
  }

  /** Deciding the next reply: the message has been refused, or passed to the stream. */
  predicate Decides(h: Half, s: State, t: State) {
    var n := |Decided(s)|;
    && t.accepted == s.accepted && n < |s.accepted|
    && t.send.Replying? && Decided(t) == Decided(s) + [t.send.reply]
    && Honest(h, s.accepted[n].msg, t.send.reply)
    && t.wire == (if Sendable(h, s.accepted[n].msg)
                  then s.wire + [Passed(s.accepted[n].id, s.accepted[n].msg, t.send.reply.Ok?)]
                  else s.wire)
  }

  lemma DecidedGrows(h: Half, s: State, step: Step)
    requires Closing(s) && Owned(s) && Answered(s) && Enabled(h, s, step)
    ensures var t := Apply(h, s, step);
      || Decides(h, s, t)
      || (s.accepted <= t.accepted && Decided(t) == Decided(s) && t.wire == s.wire)
  {}

  lemma OnWireStep(h: Half, s: State, t: State)
    requires OnWire(h, s)
    requires Decides(h, s, t) || (s.accepted <= t.accepted && Decided(t) == Decided(s) && t.wire == s.wire)
    ensures OnWire(h, t)
  {
    var rs := Decided(s);
    if Decides(h, s, t) {
      TrafficSnoc(h, s.accepted, rs, |rs|, t.send.reply);
    } else {
      assert t.accepted[..|rs|] == s.accepted[..|rs|];
    }
  }

  lemma WaitersTakenKept(h: Half, s: State, step: Step)
    requires WaitersTaken(s) && Enabled(h, s, step)
    ensures WaitersTaken(Apply(h, s, step))
  {
    var t := Apply(h, s, step);
    forall id | 0 <= id < |t.calls| && Taken(t.calls[id].phase) ensures exists i :: Accepts(t, i, id) {
      if id < |s.calls| && Taken(s.calls[id].phase) {
        var i :| Accepts(s, i, id);
        assert Accepts(t, i, id);
      } else {
        assert Accepts(t, |s.accepted|, id);
      }
    }
  }

  lemma BoxesEmptyKept(h: Half, s: State, step: Step)
    requires Closing(s) && Owned(s) && Answered(s) && BoxesEmpty(s) && Enabled(h, s, step)
    ensures BoxesEmpty(Apply(h, s, step))
  {
    var t := Apply(h, s, step);
    forall id | 0 <= id < |t.calls| && !Taken(t.calls[id].phase) ensures t.calls[id].errC == [] {
      BoxEmptyKept(h, s, step, t, id);
    }
  }

  lemma BoxEmptyKept(h: Half, s: State, step: Step, t: State, id: nat)
    requires Closing(s) && Owned(s) && Answered(s) && BoxesEmpty(s) && Enabled(h, s, step) && t == Apply(h, s, step)
    requires id < |t.calls| && !Taken(t.calls[id].phase)
    ensures t.calls[id].errC == []
  {}

  lemma BoxedKept(h: Half, s: State, step: Step)
    requires Owned(s) && Answered(s) && Boxed(s) && BoxesEmpty(s) && Enabled(h, s, step)
    ensures Boxed(Apply(h, s, step))
  {
    var t := Apply(h, s, step);
    forall i | 0 <= i < |t.replies| && i < |t.accepted| && t.accepted[i].id < |t.calls|
      ensures HoldsReply(t.calls[t.accepted[i].id], t.replies[i])
    {
      assert t.accepted[i] == s.accepted[i];
      if i < |s.replies| {
        assert HoldsReply(s.calls[s.accepted[i].id], s.replies[i]);
      }
    }
  }

  lemma InvKept(h: Half, s: State, step: Step)
    requires Inv(h, s) && Enabled(h, s, step)
    ensures Inv(h, Apply(h, s, step))
  {
    ClosingKept(h, s, step);
    CallsSeeCloseKept(h, s, step);
    OwnedKept(h, s, step);
    AnsweredKept(h, s, step);
    BoxedKept(h, s, step);
    BoxesEmptyKept(h, s, step);
    WaitersTakenKept(h, s, step);
    DecidedGrows(h, s, step);
    OnWireStep(h, s, Apply(h, s, step));
    StopsAtFailureKept(h, s, step);
    ReceivingKept(h, s, step);
  }

  lemma {:induction false} RunKeepsInv(h: Half, s: State, steps: seq<Step>, t: State)
    requires Inv(h, s) && Run(h, s, steps, t)
    ensures Inv(h, t)
    decreases |steps|
  {
    if steps != [] {
      InvKept(h, s, steps[0]);
      RunKeepsInv(h, Apply(h, s, steps[0]), steps[1..], t);
    }
  }

  lemma ReachableInv(h: Half, steps: seq<Step>, s: State)
    requires Reachable(h, steps, s)
    ensures Inv(h, s)
  {
    RunKeepsInv(h, Init(), steps, s);
  }

  // ---------- The send protocol ----------

  /** Every message the loop takes gets exactly one reply, in order; only the one in hand still waits. */
  lemma OneReplyEach(h: Half, steps: seq<Step>, s: State)
    requires Reachable(h, steps, s)
    ensures |s.accepted| == |s.replies| + (if Busy(s) then 1 else 0)
    ensures forall i, j :: 0 <= i < j < |s.accepted| ==> s.accepted[i].id != s.accepted[j].id
    ensures forall i :: 0 <= i < |s.replies| ==>
      s.accepted[i].id < |s.calls| && HoldsReply(s.calls[s.accepted[i].id], s.replies[i])
  {
    ReachableInv(h, steps, s);
  }

  /** The loop never blocks giving a reply, even if the caller has left. */
  lemma AnswerNeverBlocks(h: Half, steps: seq<Step>, s: State)
    requires Reachable(h, steps, s)
    ensures s.send.Replying? ==> Enabled(h, s, Answer)
  {
    ReachableInv(h, steps, s);
    if s.send.Replying? {
      assert s.accepted[|s.replies|].id == s.send.id;
    }
  }

  function Supported(h: Half, items: seq<Item>): seq<Item> {
    if items == [] then []
    else
      var n := |items| - 1;
      var before := Supported(h, items[..n]);
      if Sendable(h, items[n].msg) then before + [items[n]] else before
  }

  function Items(ps: seq<Passed>): seq<Item> {
    seq(|ps|, i requires 0 <= i < |ps| => Item(ps[i].id, ps[i].msg))
  }

  lemma {:induction false} TrafficIsSupported(h: Half, items: seq<Item>, rs: seq<Reply>)
    requires |items| == |rs|
    ensures Items(Traffic(h, items, rs)) == Supported(h, items)
  {
    if items != [] {
      var n := |items| - 1;
      TrafficIsSupported(h, items[..n], rs[..n]);
    }
  }

  /** What the loop took and is done with, as far as the stream is concerned. */
  function Handled(s: State): seq<Item> {
    if s.send.Holding? && s.accepted != [] then s.accepted[..|s.accepted| - 1] else s.accepted
  }

  /** Supported messages reach the stream in the order in which they were taken, none twice, none skipped. */
  lemma WireInOrder(h: Half, steps: seq<Step>, s: State)
    requires Reachable(h, steps, s)
    ensures Items(s.wire) == Supported(h, Handled(s))
  {
    ReachableInv(h, steps, s);
    var rs := Decided(s);
    TrafficIsSupported(h, s.accepted[..|rs|], rs);
    assert s.accepted[..|rs|] == Handled(s);
  }

  function PassedAs(ps: seq<Passed>, id: nat): seq<bool> {
    if ps == [] then []
    else
      var before := PassedAs(ps[..|ps| - 1], id);
      if ps[|ps| - 1].id == id then before + [ps[|ps| - 1].ok] else before
  }

  lemma {:induction false} TrafficOf(h: Half, items: seq<Item>, rs: seq<Reply>, k: nat, id: nat)
    requires |items| == |rs| && k <= |items|
    requires forall i, j :: 0 <= i < j < |items| ==> items[i].id != items[j].id
    requires if k < |items| then items[k].id == id else forall i :: 0 <= i < |items| ==> items[i].id != id
    ensures PassedAs(Traffic(h, items, rs), id)
         == (if k < |items| && Sendable(h, items[k].msg) then [rs[k].Ok?] else [])
  {
    if items != [] {
      var n := |items| - 1;
      var before := Traffic(h, items[..n], rs[..n]);
      TrafficOf(h, items[..n], rs[..n], if k < n then k else n, id);
      if Sendable(h, items[n].msg) {
        var all := before + [Passed(items[n].id, items[n].msg, rs[n].Ok?)];
        assert all[..|all| - 1] == before;
      }
    }
  }

  /** A `Send` that returns nil had its message passed to the stream exactly once, with success. */
  lemma NilMeansSent(h: Half, steps: seq<Step>, s: State, id: nat)
    requires Reachable(h, steps, s) && CallAt(s, id, Returned(Replied(Ok)))
    ensures PassedAs(s.wire, id) == [true]
  {
    ReachableInv(h, steps, s);
    RepliedLeavesTrace(h, s, id, Ok);
  }

  /** A call that got its reply back is one the loop is done with, and that was the reply. */
  lemma RepliedIsAnswered(s: State, id: nat, r: Reply) returns (k: nat)
    requires Owned(s) && Answered(s) && Boxed(s) && BoxesEmpty(s) && WaitersTaken(s)
    requires CallAt(s, id, Returned(Replied(r)))
    ensures k < |s.replies| && Accepts(s, k, id) && s.replies[k] == r
  {
    k :| Accepts(s, k, id);
    if k < |s.replies| {
      assert HoldsReply(s.calls[s.accepted[k].id], s.replies[k]);
    }
  }

  /** What such a call left on the stream: one message, unless it was refused for its type. */
  lemma RepliedLeavesTrace(h: Half, s: State, id: nat, r: Reply)
    requires Owned(s) && Answered(s) && Boxed(s) && BoxesEmpty(s) && WaitersTaken(s) && OnWire(h, s)
    requires CallAt(s, id, Returned(Replied(r)))
    ensures PassedAs(s.wire, id) == (if r.BadType? then [] else [r.Ok?])
  {
    var k := RepliedIsAnswered(s, id, r);
    var rs := Decided(s);
    assert rs[k] == r && Honest(h, s.accepted[k].msg, rs[k]);
    TrafficOf(h, s.accepted[..|rs|], rs, k, id);
  }

  lemma NeverTakenLeavesNoTrace(h: Half, s: State, id: nat)
    requires Owned(s) && OnWire(h, s) && forall i :: 0 <= i < |s.accepted| ==> s.accepted[i].id != id
    ensures PassedAs(s.wire, id) == []
  {
    var rs := Decided(s);
    TrafficOf(h, s.accepted[..|rs|], rs, |rs|, id);
  }

  /** A `Send` told "not sent", or refused for its type, left no trace on the stream. */
  lemma NotSentMeansNotSent(h: Half, steps: seq<Step>, s: State, id: nat)
    requires Reachable(h, steps, s) && id < |s.calls| && s.calls[id].phase.Returned?
    requires var r := s.calls[id].phase.result; r.NotSentContext? || r.NotSentClosed? || r == Replied(BadType)
    ensures PassedAs(s.wire, id) == []
  {
    ReachableInv(h, steps, s);
    if s.calls[id].phase.result == Replied(BadType) {
      RepliedLeavesTrace(h, s, id, BadType);
    } else {
      assert forall i :: 0 <= i < |s.accepted| ==> s.accepted[i].id != id;
      NeverTakenLeavesNoTrace(h, s, id);
    }
  }

  /** A step of call id itself, or of the send loop or a closer it may be waiting for. */
  predicate HelpsCall(next: Step, id: nat) {
    match next
    case Offer(k) => k == id
    case SeeDone(k) => k == id
    case ReadError(k) => k == id
    case TakeReply(k) => k == id
    case Refuse => true
    case Pass(_) => true
    case Answer => true
    case SenderCloses => true
    case FinishClose => true
    case _ => false
  }

  function LoopRank(l: SendLoop): nat {
    match l
    case Holding(_) => 3
    case Replying(_, _) => 2
    case Failing(_) => 1
    case _ => 0
  }

  function CallRank(p: CallPhase): nat {
    if p.Offering? then 4 else if p.Returned? then 0 else 1
  }

  /** How many helping steps call id can still need, at most. */
  function StepsLeft(s: State, id: nat): nat
    requires id < |s.calls|
  {
    10 * CallRank(s.calls[id].phase) + 2 * LoopRank(s.send) + (if s.lock.HeldBy? then 1 else 0)
  }

  /** Until a `Send` has returned, it can step, or the loop or a closer it waits for can. */
  lemma NoSendIsStranded(h: Half, s: State, id: nat) returns (next: Step)
    requires Inv(h, s) && id < |s.calls| && !s.calls[id].phase.Returned?
    ensures Enabled(h, s, next) && HelpsCall(next, id)
  {
    if s.lock.HeldBy? {
      return FinishClose;
    }
    match s.calls[id].phase {
      case SawDone => next := ReadError(id);
      case Awaiting => next := AwaitingMoves(h, s, id);
      case Offering => next := OfferingMoves(h, s, id);
    }
  }

  lemma BusyMoves(h: Half, s: State) returns (next: Step)
    requires Owned(s) && Answered(s) && BoxesEmpty(s) && Busy(s)
    ensures Enabled(h, s, next) && (next == Answer || next == Pass(None) || next == Refuse)
  {
    assert s.accepted[|s.replies|].id == s.send.id;
    next := if s.send.Replying? then Answer
            else if Sendable(h, s.calls[s.send.id].msg) then Pass(None) else Refuse;
  }

  lemma AwaitingMoves(h: Half, s: State, id: nat) returns (next: Step)
    requires Owned(s) && Answered(s) && Boxed(s) && BoxesEmpty(s) && WaitersTaken(s) && CallAt(s, id, Awaiting)
    ensures Enabled(h, s, next) && HelpsCall(next, id)
  {
    var k :| Accepts(s, k, id);
    if k < |s.replies| {
      assert HoldsReply(s.calls[s.accepted[k].id], s.replies[k]);
      next := TakeReply(id);
    } else {
      next := BusyMoves(h, s);
    }
  }

  lemma OfferingMoves(h: Half, s: State, id: nat) returns (next: Step)
    requires Closing(s) && Owned(s) && Answered(s) && BoxesEmpty(s) && s.lock.Free? && CallAt(s, id, Offering)
    ensures Enabled(h, s, next) && HelpsCall(next, id)
  {
    match s.send {
      case Picking => next := Offer(id);
      case Holding(_) => next := BusyMoves(h, s);
      case Replying(_, _) => next := BusyMoves(h, s);
      case Failing(_) => next := SenderCloses;
      case Ended => next := SeeDone(id);
    }
  }

  /** Whatever the stream answers, a helping step brings the `Send` nearer its end. */
  lemma HelpComesNearer(h: Half, s: State, step: Step, id: nat)
    requires id < |s.calls| && Enabled(h, s, step) && HelpsCall(step, id)
    ensures id < |Apply(h, s, step).calls| && StepsLeft(Apply(h, s, step), id) < StepsLeft(s, id)
  {}

  predicate AllHelp(steps: seq<Step>, id: nat) {
    forall i :: 0 <= i < |steps| ==> HelpsCall(steps[i], id)
  }

  lemma {:induction false} Completion(h: Half, s: State, id: nat) returns (more: seq<Step>, t: State)
    requires Inv(h, s) && id < |s.calls|
    ensures Run(h, s, more, t) && AllHelp(more, id) && |more| <= StepsLeft(s, id)
    ensures id < |t.calls| && t.calls[id].phase.Returned?
    decreases StepsLeft(s, id)
  {
    if s.calls[id].phase.Returned? {
      more, t := [], s;
    } else {
      var next := NoSendIsStranded(h, s, id);
      InvKept(h, s, next);
      HelpComesNearer(h, s, next, id);
      var rest;
      rest, t := Completion(h, Apply(h, s, next), id);
      more := [next] + rest;
      assert more[1..] == rest;
    }
  }

  /** From every reachable state each `Send` can return within 47 steps of its own, the loop and a closer. */
  lemma SendCanReturn(h: Half, steps: seq<Step>, s: State, id: nat) returns (more: seq<Step>, t: State)
    requires Reachable(h, steps, s) && id < |s.calls|
    ensures Run(h, s, more, t) && AllHelp(more, id) && |more| <= 47
    ensures id < |t.calls| && t.calls[id].phase.Returned?
  {
    ReachableInv(h, steps, s);
    more, t := Completion(h, s, id);
  }

  /** And those steps cannot go on for ever: every run of them has at most 47. */
  lemma {:induction false} HelpIsBounded(h: Half, s: State, more: seq<Step>, t: State, id: nat)
    requires id < |s.calls| && Run(h, s, more, t) && AllHelp(more, id)
    ensures |more| <= StepsLeft(s, id) <= 47
    decreases |more|
  {
    if more != [] {
      HelpComesNearer(h, s, more[0], id);
      HelpIsBounded(h, Apply(h, s, more[0]), more[1..], t, id);
    }
  }

  // ---------- Closing and receiving ----------

  /** The done channel is closed once, in the critical section that sets the error; a closed stream has an error. */
  lemma ClosedOnce(h: Half, steps: seq<Step>, s: State)
    requires Reachable(h, steps, s)
    ensures s.closes <= 1
    ensures s.lock.Free? ==> (s.closes == 1 <==> s.err.Some?)
    ensures s.closes == 1 ==> s.err.Some? && s.lock.Free?
  {
    ReachableInv(h, steps, s);
  }

  /** A step by which a loop of a closed stream comes to its end, stream calls in hand included. */
  predicate WindsUp(step: Step) {
    match step
    case Refuse => true
    case Pass(_) => true
    case Answer => true
    case SenderSeesDone => true
    case SenderCloses => true
    case ReadFails(_) => true
    case ReceiverSeesDone => true
    case ReceiverCloses => true
    case _ => false
  }

  /** How many such steps the two loops can still take, at most. */
  function LoopSteps(s: State): nat {
    (match s.send
     case Holding(_) => 3
     case Replying(_, _) => 2
     case Ended => 0
     case _ => 1)
    + (match s.recv case Reading => 2 case RecvEnded => 0 case _ => 1)
  }

  /** On a closed stream each loop that has not ended can go on towards its end by itself. */
  lemma ClosedLoopsMove(h: Half, s: State) returns (next: Step)
    requires Inv(h, s) && Done(s) && !(s.send.Ended? && s.recv.RecvEnded?)
    ensures Enabled(h, s, next) && WindsUp(next)
  {
    if !s.send.Ended? {
      match s.send {
        case Picking => next := SenderSeesDone;
        case Holding(_) => next := BusyMoves(h, s);
        case Replying(_, _) => next := BusyMoves(h, s);
        case Failing(_) => next := SenderCloses;
      }
    } else {
      next := match s.recv
        case Reading => ReadFails(IoEof)
        case Delivering(_) => ReceiverSeesDone
        case _ => ReceiverCloses;
    }
  }

  lemma WindingUp(h: Half, s: State, step: Step)
    requires Closing(s) && Done(s) && Enabled(h, s, step) && WindsUp(step)
    ensures Done(Apply(h, s, step)) && LoopSteps(Apply(h, s, step)) < LoopSteps(s)
  {}

  predicate AllWindUp(steps: seq<Step>) {
    forall i :: 0 <= i < |steps| ==> WindsUp(steps[i])
  }

  /** Every run from `after` can be had from s, with one step before it. */
  ghost predicate OneStepBefore(h: Half, s: State, next: Step, after: State) {
    forall more, t :: Run(h, after, more, t) ==> Run(h, s, [next] + more, t)
  }

  lemma StepBefore(h: Half, s: State, next: Step)
    requires Enabled(h, s, next)
    ensures OneStepBefore(h, s, next, Apply(h, s, next))
  {
    forall more, t | Run(h, Apply(h, s, next), more, t) ensures Run(h, s, [next] + more, t) {
      assert ([next] + more)[1..] == more;
    }
  }

  lemma WindUpOnce(h: Half, s: State) returns (next: Step, after: State)
    requires Inv(h, s) && Done(s) && !(s.send.Ended? && s.recv.RecvEnded?)
    ensures WindsUp(next) && OneStepBefore(h, s, next, after)
    ensures Inv(h, after) && Done(after) && LoopSteps(after) < LoopSteps(s)
  {
    next := ClosedLoopsMove(h, s);
    after := Apply(h, s, next);
    InvKept(h, s, next);
    WindingUp(h, s, next);
    StepBefore(h, s, next);
  }

  lemma {:induction false} WindUp(h: Half, s: State) returns (more: seq<Step>, t: State)
    requires Inv(h, s) && Done(s)
    ensures Run(h, s, more, t) && AllWindUp(more) && |more| <= LoopSteps(s)
    ensures t.send.Ended? && t.recv.RecvEnded?
    decreases LoopSteps(s)
  {
    if s.send.Ended? && s.recv.RecvEnded? {
      more, t := [], s;
    } else {
      var next, after := WindUpOnce(h, s);
      var rest;
      rest, t := WindUp(h, after);
      more := [next] + rest;
    }
  }

  /** Once the stream is closed both loops can end within five steps of their own, the pending read failing. */
  lemma LoopsCanEnd(h: Half, steps: seq<Step>, s: State) returns (more: seq<Step>, t: State)
    requires Reachable(h, steps, s) && Done(s)
    ensures Run(h, s, more, t) && AllWindUp(more) && |more| <= 5
    ensures t.send.Ended? && t.recv.RecvEnded?
  {
    ReachableInv(h, steps, s);
    more, t := WindUp(h, s);
  }

  /** And every run of such steps has at most five, whatever the stream answers. */
  lemma {:induction false} WindingUpIsBounded(h: Half, s: State, more: seq<Step>, t: State)
    requires Inv(h, s) && Done(s) && Run(h, s, more, t) && AllWindUp(more)
    ensures |more| <= LoopSteps(s) <= 5
    decreases |more|
  {
    if more != [] {
      InvKept(h, s, more[0]);
      WindingUp(h, s, more[0]);
      WindingUpIsBounded(h, Apply(h, s, more[0]), more[1..], t);
    }
  }

  /** The branch of `Send` for a stream closed without an error is never taken. */
  lemma NeverExternallyClosed(h: Half, steps: seq<Step>, s: State, id: nat)
    requires Reachable(h, steps, s) && id < |s.calls|
    ensures s.calls[id].phase != Returned(ExternallyClosed)
  {
    ReachableInv(h, steps, s);
  }

  // What the error is, read off the steps of a run.

  predicate Closes(step: Step) { step.UserCloses? || step.SenderCloses? || step.ReceiverCloses? }

  /** The latest failure of a stream call among the steps. */
  function LastFailure(steps: seq<Step>, sending: bool): Option<IoErr> {
    if steps == [] then None
    else
      var last := steps[|steps| - 1];
      if sending && last.Pass? && last.io.Some? then last.io
      else if !sending && last.ReadFails? then Some(last.cause)
      else LastFailure(steps[..|steps| - 1], sending)
  }

  /** A stream's end-of-file is passed on as it is, any other failure as a failure of that loop. */
  predicate TellsOf(e: Err, io: Option<IoErr>, sending: bool) {
    && io.Some?
    && match io.value
       case IoEof => e == Eof
       case IoErr(why) => e == if sending then SendFailed(why) else RecvFailed(why)
  }

  /** The error that closing step i brings: the user's, or that of the call that made the loop close. */
  predicate Brings(steps: seq<Step>, i: nat, e: Err)
    requires i < |steps|
  {
    match steps[i]
    case UserCloses(given) => e == if given.Some? then given.value else Eof
    case SenderCloses => TellsOf(e, LastFailure(steps[..i], true), true)
    case ReceiverCloses => TellsOf(e, LastFailure(steps[..i], false), false)
    case _ => false
  }

  predicate IsFirstClose(steps: seq<Step>, i: nat) {
    i < |steps| && Closes(steps[i]) && forall j :: 0 <= j < i ==> !Closes(steps[j])
  }

  /** What the loops hold is what the stream told them; the error is what the first closer brought. */
  ghost predicate Traced(steps: seq<Step>, s: State) {
    && LoopsTraced(steps, s)
    && (s.err.None? <==> forall j :: 0 <= j < |steps| ==> !Closes(steps[j]))
    && (forall i :: IsFirstClose(steps, i) ==> s.err.Some? && Brings(steps, i, s.err.value))
  }

  predicate LoopsTraced(steps: seq<Step>, s: State) {
    && (s.send.Replying? && s.send.reply.Broken? ==> LastFailure(steps, true) == Some(s.send.reply.io))
    && (s.send.Failing? ==> TellsOf(s.send.err, LastFailure(steps, true), true))
    && (s.recv.RecvFailing? ==> TellsOf(s.recv.err, LastFailure(steps, false), false))
  }

  lemma LastFailureSnoc(steps: seq<Step>, step: Step, sending: bool)
    ensures LastFailure(steps + [step], sending)
         == (if sending && step.Pass? && step.io.Some? then step.io
             else if !sending && step.ReadFails? then Some(step.cause) else LastFailure(steps, sending))
  {
    assert (steps + [step])[..|steps|] == steps;
  }

  lemma LoopsTracedKept(h: Half, steps: seq<Step>, s: State, step: Step)
    requires LoopsTraced(steps, s) && Enabled(h, s, step)
    ensures LoopsTraced(steps + [step], Apply(h, s, step))
  {
    LastFailureSnoc(steps, step, true);
    LastFailureSnoc(steps, step, false);
  }

  lemma ErrorSet(h: Half, steps: seq<Step>, s: State, step: Step, t: State)
    requires LoopsTraced(steps, s) && Enabled(h, s, step) && t == Apply(h, s, step)
    ensures !Closes(step) || s.err.Some? ==> t.err == s.err
    ensures Closes(step) && s.err.None? ==> t.err.Some? && Brings(steps + [step], |steps|, t.err.value)
  {
    assert (steps + [step])[..|steps|] == steps;
  }

  lemma BringsEarlier(steps: seq<Step>, step: Step, i: nat, e: Err)
    requires i < |steps| && Brings(steps, i, e)
    ensures Brings(steps + [step], i, e)
  {
    assert (steps + [step])[..i] == steps[..i];
  }

  lemma TracedKept(h: Half, steps: seq<Step>, s: State, step: Step)
    requires Traced(steps, s) && Enabled(h, s, step)
    ensures Traced(steps + [step], Apply(h, s, step))
  {
    var t, all := Apply(h, s, step), steps + [step];
    LoopsTracedKept(h, steps, s, step);
    ErrorSet(h, steps, s, step, t);
    assert all[|steps|] == step;
    assert forall j :: 0 <= j < |steps| ==> all[j] == steps[j];
    forall i: nat | IsFirstClose(all, i) ensures t.err.Some? && Brings(all, i, t.err.value) {
      if i < |steps| {
        assert IsFirstClose(steps, i);
        BringsEarlier(steps, step, i, s.err.value);
      }
    }
  }

  lemma {:induction false} RunTraced(h: Half, before: seq<Step>, s: State, steps: seq<Step>, t: State)
    requires Traced(before, s) && Run(h, s, steps, t)
    ensures Traced(before + steps, t)
    decreases |steps|
  {
    if steps == [] {
      assert before + steps == before;
    } else {
      TracedKept(h, before, s, steps[0]);
      RunTraced(h, before + [steps[0]], Apply(h, s, steps[0]), steps[1..], t);
      assert before + [steps[0]] + steps[1..] == before + steps;
    }
  }

  /** The stream has an error exactly once someone has closed it, and it is the one the first closer brought. */
  lemma ErrorIsFirst(h: Half, steps: seq<Step>, s: State, i: nat)
    requires Reachable(h, steps, s)
    ensures s.err.None? <==> forall j :: 0 <= j < |steps| ==> !Closes(steps[j])
    ensures IsFirstClose(steps, i) ==> s.err.Some? && Brings(steps, i, s.err.value)
  {
    RunTraced(h, [], Init(), steps, s);
    assert [] + steps == steps;
  }

  // What a `Send` is told of its context and of the closing.

  predicate ToldTruly(s: State, c: Call) {
    && (c.phase.Returned? && (c.phase.result.NotSentContext? || c.phase.result.ResultSkipped?) ==> c.ctxDone)
    && (c.phase.Returned? && c.phase.result.NotSentClosed? ==> Done(s) && s.err == Some(c.phase.result.err))
  }

  predicate AllToldTruly(s: State) {
    forall id :: 0 <= id < |s.calls| ==> ToldTruly(s, s.calls[id])
  }

  lemma ToldTrulyKept(h: Half, s: State, step: Step, t: State, id: nat)
    requires Closing(s) && CallsSeeClose(s) && AllToldTruly(s) && Enabled(h, s, step) && t == Apply(h, s, step)
    requires id < |t.calls|
    ensures ToldTruly(t, t.calls[id])
  {
    assert id < |s.calls| ==> ToldTruly(s, s.calls[id]) && SeesClose(s, s.calls[id].phase);
  }

  lemma {:induction false} RunToldTruly(h: Half, s: State, steps: seq<Step>, t: State)
    requires Inv(h, s) && AllToldTruly(s) && Run(h, s, steps, t)
    ensures AllToldTruly(t)
    decreases |steps|
  {
    if steps != [] {
      var u := Apply(h, s, steps[0]);
      InvKept(h, s, steps[0]);
      forall id | 0 <= id < |u.calls| ensures ToldTruly(u, u.calls[id]) {
        ToldTrulyKept(h, s, steps[0], u, id);
      }
      RunToldTruly(h, u, steps[1..], t);
    }
  }

  /**
   A `Send` gives up or skips its reply only if its own context is done, and when told of a closed
   stream it is given the stream's error.
   */
  lemma SendIsToldTruly(h: Half, steps: seq<Step>, s: State, id: nat)
    requires Reachable(h, steps, s) && id < |s.calls| && s.calls[id].phase.Returned?
    ensures var r := s.calls[id].phase.result;
      && (r.NotSentContext? || r.ResultSkipped? ==> s.calls[id].ctxDone)
      && (r.NotSentClosed? ==> Done(s) && s.err == Some(r.err))
  {
    RunToldTruly(h, Init(), steps, s);
    assert ToldTruly(s, s.calls[id]);
  }

  /** Once set, the error is the same for ever. */
  lemma {:induction false} ErrorIsFinal(h: Half, s: State, steps: seq<Step>, t: State)
    requires Run(h, s, steps, t) && s.err.Some?
    ensures t.err == s.err
    decreases |steps|
  {
    if steps != [] {
      ErrorIsFinal(h, Apply(h, s, steps[0]), steps[1..], t);
    }
  }

  /** What users receive is a prefix of the known messages read, at most one short. */
  lemma DeliveredIsPrefix(h: Half, steps: seq<Step>, s: State)
    requires Reachable(h, steps, s)
    ensures s.delivered <= Keep(h, s.read)
    ensures |Keep(h, s.read)| <= |s.delivered| + 1
    ensures s.recv.Reading? ==> s.delivered == Keep(h, s.read)
  {
    ReachableInv(h, steps, s);
  }

  /** After a send has failed, no later message goes to the stream. */
  lemma NothingAfterFailure(h: Half, steps: seq<Step>, s: State, i: nat)
    requires Reachable(h, steps, s) && i < |s.replies| && s.replies[i].Broken?
    ensures i == |s.replies| - 1 && |s.accepted| == |s.replies|
    ensures s.send.Failing? || s.send.InClose? || s.send.Ended?
  {
    ReachableInv(h, steps, s);
  }

  // ---------- Both halves together ----------

  function Messages(xs: seq<Item>): seq<Msg> {
    seq(|xs|, i requires 0 <= i < |xs| => xs[i].msg)
  }

  lemma {:induction false} KeepAll(h: Half, ms: seq<Msg>)
    requires forall i :: 0 <= i < |ms| ==> Known(h, ms[i])
    ensures Keep(h, ms) == ms
  {
    if ms != [] { KeepAll(h, ms[..|ms| - 1]); }
  }

  lemma {:induction false} SupportedAreSendable(h: Half, items: seq<Item>)
    ensures forall i :: 0 <= i < |Supported(h, items)| ==> Sendable(h, Supported(h, items)[i].msg)
  {
    if items != [] { SupportedAreSendable(h, items[..|items| - 1]); }
  }

  lemma {:induction false} SupportedPrefix(h: Half, items: seq<Item>, n: nat)
    requires n <= |items|
    ensures Supported(h, items[..n]) <= Supported(h, items)
    decreases |items|
  {
    if n < |items| {
      assert items[..|items| - 1][..n] == items[..n];
      SupportedPrefix(h, items[..|items| - 1], n);
    } else {
      assert items[..n] == items;
    }
  }

  lemma PrefixKept(h: Half, sent: seq<Item>, got: seq<Msg>)
    requires got <= Messages(Supported(h, sent))
    ensures Keep(Peer(h), got) == got
  {
    SupportedAreSendable(h, sent);
    var ms := Messages(Supported(h, sent));
    forall i | 0 <= i < |got| ensures Known(Peer(h), got[i]) {
      assert got[i] == ms[i] == Supported(h, sent)[i].msg;
    }
    KeepAll(Peer(h), got);
  }

  lemma MessagesPrefix(h: Half, items: seq<Item>, n: nat)
    requires n <= |items|
    ensures Messages(Supported(h, items[..n])) <= Messages(Supported(h, items))
  {
    SupportedPrefix(h, items, n);
  }

  /**
   Two halves over a stream that keeps order: the users of one receive a prefix of the supported
   messages that the send loop of the other took, whatever both sides and their closers do.
   */
  lemma EndToEnd(h: Half, near: seq<Step>, a: State, far: seq<Step>, b: State)
    requires Reachable(h, near, a) && Reachable(Peer(h), far, b)
    requires b.read <= Messages(Items(a.wire))
    ensures b.delivered <= Messages(Supported(h, a.accepted))
  {
    WireInOrder(h, near, a);
    DeliveredIsPrefix(Peer(h), far, b);
    PrefixKept(h, Handled(a), b.read);
    assert Handled(a) == a.accepted[..|Handled(a)|];
    MessagesPrefix(h, a.accepted, |Handled(a)|);
  }
}
