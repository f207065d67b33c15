/** Request and reply between agent nodes (dxrk/a2a.py) as a state machine. */
module MessageRouting {
  // Callers of `send`, the message loops of the nodes, broadcasts and timeouts interleave freely;
  // each locked section and each queue operation is one step.

  import opened Sequences
  import opened Wrappers

  datatype NodeId = NodeId(value: nat)
  datatype Name = Name(value: string)
  datatype MessageId = MessageId(value: string)
  type SendId = nat

  const CAPACITY := 100

  /** Requests run the handler, replies are handed through, anything else is ignored. */
  datatype Kind = Request | Reply | Other

  datatype Body = Body(value: string)

  datatype Message = Message(id: MessageId, kind: Kind, body: Body)

  datatype Outcome = BufferFull | TimedOut | Answer(message: Message)

  /** Where a call of send stands, after it found its peer. */
  datatype Stage = Registering | Enqueuing | Waiting | Cleaning(outcome: Outcome) | Done(outcome: Outcome)

  /** peer is the node the target name stood for; channel is the reply queue of size one. */
  datatype Send = Send(peer: NodeId, msg: Message, stage: Stage, channel: seq<Message>)

  /** Where the message loop of a node stands. */
  datatype Loop = Idle | Got(msg: Message) | Replying(msg: Message, reply: Message)

  /** Stopping does not disable a loop that waits for a message already; it may still take one. */
  datatype Node = Node(peers: map<Name, NodeId>, inbox: seq<Message>, loop: Loop, stopped: bool)

  /** History: node answered request with reply; asker is the send that used the id then, if it was no broadcast. */
  datatype Handled = Handled(node: NodeId, request: Message, reply: Message, asker: Option<SendId>)

  /**
   pending is the map shared by all nodes. owner, posted and log are history: which call
   sent an id last, which ids were broadcast since, and what was handled.
   */
  datatype State = State(
    nodes: map<NodeId, Node>,
    pending: map<MessageId, SendId>,
    sends: map<SendId, Send>,
    owner: map<MessageId, SendId>,
    posted: set<MessageId>,
    log: seq<Handled>)

  datatype Action =
    | AddPeer(node: NodeId, name: Name, peer: NodeId)
    | RemovePeer(node: NodeId, name: Name)
    | StartSend(sid: SendId, node: NodeId, target: Name, msg: Message)
    | Register(sid: SendId)
    | Enqueue(sid: SendId)
    | Receive(sid: SendId)
    | TimeOut(sid: SendId)
    | Cleanup(sid: SendId)
    | Post(node: NodeId, msg: Message)
    | Take(node: NodeId)
    | Handle(node: NodeId, body: Body)
    | Pass(node: NodeId)
    | Ignore(node: NodeId)
    | Deliver(node: NodeId)
    | Stop(node: NodeId)

  predicate AtStage(s: State, sid: SendId, stage: Stage) {
    sid in s.sends && s.sends[sid].stage == stage
  }

  predicate Enabled(s: State, a: Action) {
    match a
    case AddPeer(n, name, peer) => n in s.nodes && peer in s.nodes
    case RemovePeer(n, name) => n in s.nodes
    case StartSend(sid, n, target, msg) => sid !in s.sends && n in s.nodes && target in s.nodes[n].peers
    case Register(sid) => AtStage(s, sid, Registering)
    case Enqueue(sid) => AtStage(s, sid, Enqueuing) && s.sends[sid].peer in s.nodes
    case Receive(sid) => AtStage(s, sid, Waiting) && s.sends[sid].channel != []
    case TimeOut(sid) => AtStage(s, sid, Waiting) && s.sends[sid].channel == []
    case Cleanup(sid) => sid in s.sends && s.sends[sid].stage.Cleaning?
    case Post(n, msg) => n in s.nodes
    case Take(n) => n in s.nodes && s.nodes[n].loop.Idle? && s.nodes[n].inbox != []
    case Handle(n, body) => n in s.nodes && s.nodes[n].loop.Got? && s.nodes[n].loop.msg.kind.Request?
    case Pass(n) => n in s.nodes && s.nodes[n].loop.Got? && s.nodes[n].loop.msg.kind.Reply?
    case Ignore(n) => n in s.nodes && s.nodes[n].loop.Got? && s.nodes[n].loop.msg.kind.Other?
    case Deliver(n) => n in s.nodes && s.nodes[n].loop.Replying?
    case Stop(n) => n in s.nodes
  }

  function WithNode(s: State, n: NodeId, node: Node): State {
    s.(nodes := s.nodes[n := node])
  }

  function WithSend(s: State, sid: SendId, send: Send): State {
    s.(sends := s.sends[sid := send])
  }

  /** Puts a message into a node's bounded inbox, if there is room. */
  function PutNowait(node: Node, msg: Message): Node {
    if |node.inbox| < CAPACITY then node.(inbox := node.inbox + [msg]) else node
  }

  function Asker(s: State, id: MessageId): Option<SendId> {
    if id in s.owner then Some(s.owner[id]) else None
  }

  function Answering(s: State, n: NodeId, msg: Message, reply: Message): State
    requires n in s.nodes
  {
    var entry := Handled(n, msg, reply, Asker(s, msg.id));
    WithNode(s, n, s.nodes[n].(loop := Replying(msg, reply))).(log := s.log + [entry])
  }

  /** The send whose channel a reply with this id would go to, if it has room. */
  predicate CanReach(s: State, id: MessageId) {
    id in s.pending && s.pending[id] in s.sends && s.sends[s.pending[id]].channel == []
  }

  function Apply(s: State, a: Action): State
    requires Enabled(s, a)
  {
    match a
    case AddPeer(n, name, peer) => WithNode(s, n, s.nodes[n].(peers := s.nodes[n].peers[name := peer]))
    case RemovePeer(n, name) => WithNode(s, n, s.nodes[n].(peers := s.nodes[n].peers - {name}))
    case StartSend(sid, n, target, msg) =>
      WithSend(s, sid, Send(s.nodes[n].peers[target], msg, Registering, []))
      .(owner := s.owner[msg.id := sid], posted := s.posted - {msg.id})
    case Register(sid) =>
      WithSend(s, sid, s.sends[sid].(stage := Enqueuing)).(pending := s.pending[s.sends[sid].msg.id := sid])
    case Enqueue(sid) =>
      var send := s.sends[sid];
      var node := s.nodes[send.peer];
      if |node.inbox| < CAPACITY then
        WithSend(WithNode(s, send.peer, PutNowait(node, send.msg)), sid, send.(stage := Waiting))
      else WithSend(s, sid, send.(stage := Cleaning(BufferFull)))
    case Receive(sid) =>
      var send := s.sends[sid];
      WithSend(s, sid, send.(stage := Cleaning(Answer(send.channel[0])), channel := send.channel[1..]))
    case TimeOut(sid) => WithSend(s, sid, s.sends[sid].(stage := Cleaning(TimedOut)))
    case Cleanup(sid) =>
      var send := s.sends[sid];
      WithSend(s, sid, send.(stage := Done(send.stage.outcome))).(pending := s.pending - {send.msg.id})
    case Post(n, msg) =>
      WithNode(s, n, PutNowait(s.nodes[n], msg)).(posted := s.posted + {msg.id}, owner := s.owner - {msg.id})
    case Take(n) =>
      var node := s.nodes[n];
      WithNode(s, n, node.(loop := Got(node.inbox[0]), inbox := node.inbox[1..]))
    case Handle(n, body) =>
      var msg := s.nodes[n].loop.msg;
      Answering(s, n, msg, Message(msg.id, Reply, body))
    case Pass(n) => Answering(s, n, s.nodes[n].loop.msg, s.nodes[n].loop.msg)
    case Ignore(n) => WithNode(s, n, s.nodes[n].(loop := Idle))
    case Deliver(n) =>
      var Replying(msg, reply) := s.nodes[n].loop;
      var s1 := WithNode(s, n, s.nodes[n].(loop := Idle));
      if CanReach(s, msg.id) then
        var sid := s.pending[msg.id];
        WithSend(s1, sid, s.sends[sid].(channel := s.sends[sid].channel + [reply]))
      else s1
    case Stop(n) => WithNode(s, n, s.nodes[n].(stopped := true))
  }

  /** What a new uuid per message guarantees. */
  predicate FreshId(s: State, a: Action) {
    match a
    case StartSend(_, _, _, msg) => msg.id !in s.owner && msg.id !in s.posted
    case Post(_, msg) => msg.id !in s.owner
    case _ => true
  }

  /** Nothing at node n, in its inbox or its loop, has this id. */
  ghost predicate AbsentFrom(s: State, n: NodeId, id: MessageId)
    requires n in s.nodes
  {
    && (forall i :: 0 <= i < |s.nodes[n].inbox| ==> s.nodes[n].inbox[i].id != id)
    && (!s.nodes[n].loop.Idle? ==> s.nodes[n].loop.msg.id != id)
  }

  /** Every send with this id is over, and no node holds a message with it. */
  ghost predicate Unused(s: State, id: MessageId) {
    && (forall sid :: sid in s.sends && s.sends[sid].msg.id == id ==> s.sends[sid].stage.Done?)
    && (forall n {:trigger AbsentFrom(s, n, id)} :: n in s.nodes ==> AbsentFrom(s, n, id))
  }

  /** What is enough: an id may come back when nothing uses it any more, and a broadcast may go on. */
  ghost predicate SafeId(s: State, a: Action) {
    match a
    case StartSend(_, _, _, msg) => Unused(s, msg.id)
    case Post(_, msg) => msg.id in s.posted || Unused(s, msg.id)
    case _ => true
  }

  ghost predicate Init(s: State) {
    && (forall n :: n in s.nodes ==> s.nodes[n] == Node(map[], [], Idle, false))
    && s.pending == map[] && s.sends == map[] && s.owner == map[] && s.posted == {} && s.log == []
  }

  // ----- The invariant -----

  predicate Registered(stage: Stage) {
    stage.Enqueuing? || stage.Waiting? || stage.Cleaning?
  }

  /** The message went into the peer's inbox. */
  predicate Enqueued(stage: Stage) {
    stage.Waiting? || ((stage.Cleaning? || stage.Done?) && !stage.outcome.BufferFull?)
  }

  predicate Answered(stage: Stage) {
    (stage.Cleaning? || stage.Done?) && stage.outcome.Answer?
  }

  /** Message m may be at node n: it was broadcast, or its sender put it there. */
  predicate Origin(s: State, n: NodeId, m: Message) {
    m.id in s.posted ||
    (m.id in s.owner && s.owner[m.id] in s.sends &&
     var send := s.sends[s.owner[m.id]]; send.peer == n && send.msg == m && Enqueued(send.stage))
  }

  ghost predicate SendOk(s: State, sid: SendId)
    requires sid in s.sends
  {
    var send := s.sends[sid];
    && (!send.stage.Done? ==> send.msg.id in s.owner && s.owner[send.msg.id] == sid)
    && send.peer in s.nodes
    && |send.channel| <= 1
    && (send.channel != [] ==> Handled(send.peer, send.msg, send.channel[0], Some(sid)) in s.log)
    && (send.channel != [] ==> Enqueued(send.stage))
    && (Answered(send.stage) ==>
          send.channel == [] && Handled(send.peer, send.msg, send.stage.outcome.message, Some(sid)) in s.log)
    && (Registered(send.stage) ==> send.msg.id in s.pending && s.pending[send.msg.id] == sid)
  }

  ghost predicate PendingOk(s: State, id: MessageId)
    requires id in s.pending
  {
    var sid := s.pending[id];
    sid in s.sends && s.sends[sid].msg.id == id && Registered(s.sends[sid].stage)
  }

  ghost predicate OwnerOk(s: State, id: MessageId)
    requires id in s.owner
  {
    id !in s.posted && s.owner[id] in s.sends && s.sends[s.owner[id]].msg.id == id
  }

  /** Unless broadcast, an id occurs once in an inbox, and not also in the loop. */
  ghost predicate NodeOk(s: State, n: NodeId)
    requires n in s.nodes
  {
    var node := s.nodes[n];
    && |node.inbox| <= CAPACITY
    && (forall name :: name in node.peers ==> node.peers[name] in s.nodes)
    && (forall i :: 0 <= i < |node.inbox| ==> Origin(s, n, node.inbox[i]))
    && (forall i, j :: 0 <= i < j < |node.inbox| && node.inbox[i].id == node.inbox[j].id ==>
          node.inbox[i].id in s.posted)
    && (!node.loop.Idle? ==> Origin(s, n, node.loop.msg))
    && (node.loop.Replying? ==> node.loop.reply.id == node.loop.msg.id
                                && Handled(n, node.loop.msg, node.loop.reply, Asker(s, node.loop.msg.id)) in s.log)
    && (!node.loop.Idle? && node.loop.msg.id !in s.posted ==>
          forall i :: 0 <= i < |node.inbox| ==> node.inbox[i].id != node.loop.msg.id)
    && (node.loop.Replying? ==> Unanswered(s, node.loop.msg.id))
  }

  /** A send still waits for its one reply, or has given up on it. */
  predicate Unanswered(s: State, id: MessageId) {
    id in s.owner && s.owner[id] in s.sends ==>
      s.sends[s.owner[id]].channel == [] && !Answered(s.sends[s.owner[id]].stage)
  }

  /** A handled request was its asker's, and it has left the inbox for good. */
  ghost predicate EntryOk(s: State, e: Handled) {
    && e.reply.id == e.request.id
    && e.node in s.nodes
    && (e.asker.Some? ==> IsFrom(s, e, e.asker.value) && IsGone(s, e))
  }

  predicate IsFrom(s: State, e: Handled, sid: SendId) {
    sid in s.sends && var send := s.sends[sid]; e.node == send.peer && e.request == send.msg && Enqueued(send.stage)
  }

  /** Until its id is used again, nothing at the node has it but a reply under way. */
  ghost predicate IsGone(s: State, e: Handled)
    requires e.node in s.nodes
  {
    Asker(s, e.request.id) == e.asker ==>
      && (forall i :: 0 <= i < |s.nodes[e.node].inbox| ==> s.nodes[e.node].inbox[i].id != e.request.id)
      && (s.nodes[e.node].loop.Got? ==> s.nodes[e.node].loop.msg.id != e.request.id)
  }

  /** The request of a send is handled once. */
  ghost predicate HandledOnce(s: State) {
    forall i, j :: 0 <= i < j < |s.log| && s.log[i].asker == s.log[j].asker ==> s.log[i].asker.None?
  }

  ghost predicate Inv(s: State) {
    && (forall sid {:trigger SendOk(s, sid)} :: sid in s.sends ==> SendOk(s, sid))
    && (forall id {:trigger PendingOk(s, id)} :: id in s.pending ==> PendingOk(s, id))
    && (forall id {:trigger OwnerOk(s, id)} :: id in s.owner ==> OwnerOk(s, id))
    && (forall n {:trigger NodeOk(s, n)} :: n in s.nodes ==> NodeOk(s, n))
    && (forall e {:trigger EntryOk(s, e)} :: e in s.log ==> EntryOk(s, e))
    && HandledOnce(s)
  }

  lemma InitHolds(s: State)
    requires Init(s)
    ensures Inv(s)
  {
  }

  ghost predicate StepOk(s: State, a: Action) {
    Inv(s) && Enabled(s, a) && SafeId(s, a)
  }

  /** The id of a message that a node holds stays with its sender or its broadcast. */
  lemma HeldIdKept(s: State, a: Action, n: NodeId, id: MessageId)
    requires StepOk(s, a) && n in s.nodes && !AbsentFrom(s, n, id)
    ensures id in s.posted <==> id in Apply(s, a).posted
    ensures Asker(Apply(s, a), id) == Asker(s, id)
  {
    if a.Post? && a.msg.id in s.posted {
      assert a.msg.id in s.owner ==> OwnerOk(s, a.msg.id);
    }
  }

  lemma HeldKept(s: State, a: Action, n: NodeId, m: Message)
    requires StepOk(s, a) && n in s.nodes && !AbsentFrom(s, n, m.id) && Origin(s, n, m)
    ensures Origin(Apply(s, a), n, m)
  {
    HeldIdKept(s, a, n, m.id);
    if m.id !in s.posted {
      assert SendOk(s, s.owner[m.id]);
    }
  }

  /** Steps of a calling thread, as opposed to a message loop, a broadcast or a peer change. */
  predicate IsCallerStep(a: Action) {
    a.StartSend? || a.Register? || a.Enqueue? || a.Receive? || a.TimeOut? || a.Cleanup?
  }

  lemma OtherStepsKeepSends(s: State, a: Action)
    requires Enabled(s, a) && !IsCallerStep(a)
    ensures var s' := Apply(s, a);
      && s'.pending == s.pending && (!a.Post? ==> s'.owner == s.owner) && s'.nodes.Keys == s.nodes.Keys
      && (forall e :: e in s.log ==> e in s'.log)
      && (!a.Deliver? ==> s'.sends == s.sends)
  {
  }

  lemma CallerStepsKeepLog(s: State, a: Action)
    requires Enabled(s, a) && IsCallerStep(a)
    ensures var s' := Apply(s, a);
      s'.log == s.log && s'.nodes.Keys == s.nodes.Keys
      && (!a.Enqueue? ==> s'.nodes == s.nodes)
      && (!a.StartSend? ==> s'.posted == s.posted && s'.owner == s.owner)
  {
  }

  lemma SendStep(s: State, a: Action, sid: SendId)
    requires StepOk(s, a) && sid in Apply(s, a).sends
    ensures SendOk(Apply(s, a), sid)
  {
    if IsCallerStep(a) {
      CallerSend(s, a, sid);
    } else if a.Deliver? {
      DeliverSend(s, a.node, sid);
    } else {
      OtherStepsKeepSends(s, a);
      assert SendOk(s, sid);
      assert !s.sends[sid].stage.Done? ==> OwnerOk(s, s.sends[sid].msg.id);
    }
  }

  lemma CallerSend(s: State, a: Action, sid: SendId)
    requires StepOk(s, a) && IsCallerStep(a) && sid in Apply(s, a).sends
    ensures SendOk(Apply(s, a), sid)
  {
    CallerStepsKeepLog(s, a);
    if sid == a.sid {
      OwnCallerStep(s, a);
    } else {
      assert SendOk(s, sid);
      if !a.StartSend? {
        assert SendOk(s, a.sid);
      }
    }
  }

  lemma OwnCallerStep(s: State, a: Action)
    requires StepOk(s, a) && IsCallerStep(a)
    ensures SendOk(Apply(s, a), a.sid)
  {
    CallerStepsKeepLog(s, a);
    if a.StartSend? {
      assert NodeOk(s, a.node);
    } else {
      assert SendOk(s, a.sid);
    }
  }

  lemma DeliverSend(s: State, n: NodeId, sid: SendId)
    requires StepOk(s, Deliver(n)) && sid in s.sends
    ensures SendOk(Apply(s, Deliver(n)), sid)
  {
    assert SendOk(s, sid) && NodeOk(s, n);
    var msg := s.nodes[n].loop.msg;
    if CanReach(s, msg.id) && s.pending[msg.id] == sid {
      assert PendingOk(s, msg.id) && OwnerOk(s, msg.id);
    }
  }

  lemma PendingStep(s: State, a: Action, id: MessageId)
    requires StepOk(s, a) && id in Apply(s, a).pending
    ensures PendingOk(Apply(s, a), id)
  {
    if id in s.pending {
      assert PendingOk(s, id);
      assert SendOk(s, s.pending[id]);
    }
    match a {
      case Register(sid) => assert SendOk(s, sid);
      case Cleanup(sid) => assert SendOk(s, sid);
      case _ =>
    }
  }

  lemma OwnerStep(s: State, a: Action, id: MessageId)
    requires StepOk(s, a) && id in Apply(s, a).owner
    ensures OwnerOk(Apply(s, a), id)
  {
    if id in s.owner {
      assert OwnerOk(s, id);
    }
  }

  // ----- Nodes -----

  lemma NotEnqueuedIsAbsent(s: State, sid: SendId, n: NodeId)
    requires Inv(s) && sid in s.sends && n in s.nodes
    requires s.sends[sid].stage.Registering? || s.sends[sid].stage.Enqueuing?
    ensures AbsentFrom(s, n, s.sends[sid].msg.id)
  {
    assert SendOk(s, sid) && NodeOk(s, n) && OwnerOk(s, s.sends[sid].msg.id);
  }

  /** A reply can only reach the channel of the send that put its request where it was handled. */
  lemma ReachesItsSend(s: State, n: NodeId)
    requires Inv(s) && n in s.nodes && s.nodes[n].loop.Replying? && CanReach(s, s.nodes[n].loop.msg.id)
    ensures var id := s.nodes[n].loop.msg.id; var sid := s.pending[id];
      && id in s.owner && s.owner[id] == sid && id !in s.posted
      && sid in s.sends && s.sends[sid].peer == n && s.sends[sid].msg == s.nodes[n].loop.msg
  {
    var id := s.nodes[n].loop.msg.id;
    assert PendingOk(s, id);
    assert SendOk(s, s.pending[id]);
    assert OwnerOk(s, id);
    assert NodeOk(s, n);
  }

  lemma OtherDelivery(s: State, n: NodeId, other: NodeId)
    requires Inv(s) && n in s.nodes && other in s.nodes && other != n
    requires s.nodes[n].loop.Replying? && s.nodes[other].loop.Replying?
    ensures Unanswered(Apply(s, Deliver(other)), s.nodes[n].loop.msg.id)
  {
    var id, otherId := s.nodes[n].loop.msg.id, s.nodes[other].loop.msg.id;
    assert NodeOk(s, n);
    if CanReach(s, otherId) && id in s.owner {
      ReachesItsSend(s, other);
      assert OwnerOk(s, id);
    }
  }

  /** The reply a loop is about to deliver stays undelivered until that step. */
  lemma StaysUnanswered(s: State, a: Action, n: NodeId)
    requires StepOk(s, a) && n in s.nodes && s.nodes[n].loop.Replying? && Apply(s, a).nodes[n].loop == s.nodes[n].loop
    ensures Unanswered(Apply(s, a), s.nodes[n].loop.msg.id)
  {
    assert NodeOk(s, n);
    if a.Deliver? {
      OtherDelivery(s, n, a.node);
    } else if !IsCallerStep(a) {
      OtherStepsKeepSends(s, a);
    } else {
      CallerStaysUnanswered(s, a, s.nodes[n].loop.msg.id);
    }
  }

  lemma CallerStaysUnanswered(s: State, a: Action, id: MessageId)
    requires StepOk(s, a) && IsCallerStep(a) && Unanswered(s, id)
    ensures Unanswered(Apply(s, a), id)
  {
    if id in s.owner {
      assert OwnerOk(s, id);
    }
  }

  lemma EnqueueNode(s: State, sid: SendId)
    requires StepOk(s, Enqueue(sid))
    ensures NodeOk(Apply(s, Enqueue(sid)), s.sends[sid].peer)
  {
    var n, s' := s.sends[sid].peer, Apply(s, Enqueue(sid));
    assert NodeOk(s, n) && SendOk(s, sid) && OwnerOk(s, s.sends[sid].msg.id);
    NotEnqueuedIsAbsent(s, sid, n);
    InboxOrigins(s, Enqueue(sid), n);
    if s.nodes[n].loop.Replying? {
      StaysUnanswered(s, Enqueue(sid), n);
    }
  }

  /** What was at node n still has an origin there. */
  lemma InboxOrigins(s: State, a: Action, n: NodeId)
    requires StepOk(s, a) && n in s.nodes
    ensures var s' := Apply(s, a);
      && (forall i :: 0 <= i < |s.nodes[n].inbox| ==>
            Origin(s', n, s.nodes[n].inbox[i])
            && (s.nodes[n].inbox[i].id in s.posted ==> s.nodes[n].inbox[i].id in s'.posted))
      && (!s.nodes[n].loop.Idle? ==>
            && Origin(s', n, s.nodes[n].loop.msg)
            && (s.nodes[n].loop.msg.id in s.posted ==> s.nodes[n].loop.msg.id in s'.posted)
            && Asker(s', s.nodes[n].loop.msg.id) == Asker(s, s.nodes[n].loop.msg.id))
  {
    assert NodeOk(s, n);
    forall i | 0 <= i < |s.nodes[n].inbox|
      ensures Origin(Apply(s, a), n, s.nodes[n].inbox[i])
      ensures s.nodes[n].inbox[i].id in s.posted ==> s.nodes[n].inbox[i].id in Apply(s, a).posted
    {
      HeldIdKept(s, a, n, s.nodes[n].inbox[i].id);
      HeldKept(s, a, n, s.nodes[n].inbox[i]);
    }
    if !s.nodes[n].loop.Idle? {
      HeldIdKept(s, a, n, s.nodes[n].loop.msg.id);
      HeldKept(s, a, n, s.nodes[n].loop.msg);
    }
  }

  lemma PostNode(s: State, n: NodeId, msg: Message)
    requires StepOk(s, Post(n, msg))
    ensures NodeOk(Apply(s, Post(n, msg)), n)
  {
    assert NodeOk(s, n);
    InboxOrigins(s, Post(n, msg), n);
  }

  lemma TakeNode(s: State, n: NodeId)
    requires StepOk(s, Take(n))
    ensures NodeOk(Apply(s, Take(n)), n)
  {
    assert NodeOk(s, n);
    InboxOrigins(s, Take(n), n);
    var node, node' := s.nodes[n], Apply(s, Take(n)).nodes[n];
    assert forall i :: 0 <= i < |node'.inbox| ==> node'.inbox[i] == node.inbox[i + 1];
  }

  lemma AnswerNode(s: State, a: Action)
    requires StepOk(s, a) && (a.Handle? || a.Pass?)
    ensures NodeOk(Apply(s, a), a.node)
  {
    var n := a.node;
    assert NodeOk(s, n);
    InboxOrigins(s, a, n);
    var id := s.nodes[n].loop.msg.id;
    if id in s.owner {
      NotLoggedIsUnanswered(s, n);
    }
  }

  /** A message that the loop holds and has not handled yet: its send cannot have an answer. */
  lemma NotLoggedIsUnanswered(s: State, n: NodeId)
    requires Inv(s) && n in s.nodes && s.nodes[n].loop.Got? && s.nodes[n].loop.msg.id in s.owner
    ensures Unanswered(s, s.nodes[n].loop.msg.id)
  {
    var id := s.nodes[n].loop.msg.id;
    assert NodeOk(s, n) && OwnerOk(s, id);
    var send := s.sends[s.owner[id]];
    assert SendOk(s, s.owner[id]);
    var asker := Asker(s, id);
    forall r
      ensures Handled(n, send.msg, r, asker) !in s.log
    {
      assert Handled(n, send.msg, r, asker) in s.log ==> EntryOk(s, Handled(n, send.msg, r, asker));
    }
  }

  /** Steps that leave the inbox and the loop of node n alone, or empty its loop. */
  lemma QuietNode(s: State, a: Action, n: NodeId)
    requires StepOk(s, a) && n in s.nodes && n in Apply(s, a).nodes
    requires var node' := Apply(s, a).nodes[n];
      && node'.inbox == s.nodes[n].inbox
      && (node'.loop == s.nodes[n].loop || node'.loop.Idle?)
      && (forall name :: name in node'.peers ==> node'.peers[name] in Apply(s, a).nodes)
    requires forall e :: e in s.log ==> e in Apply(s, a).log
    ensures NodeOk(Apply(s, a), n)
  {
    assert NodeOk(s, n);
    InboxOrigins(s, a, n);
    if s.nodes[n].loop.Replying? && Apply(s, a).nodes[n].loop == s.nodes[n].loop {
      StaysUnanswered(s, a, n);
    }
  }

  lemma QuietStep(s: State, a: Action, n: NodeId)
    requires StepOk(s, a) && n in s.nodes
    requires !(a.Enqueue? && n == s.sends[a.sid].peer)
    requires !((a.Post? || a.Take? || a.Handle? || a.Pass?) && n == a.node)
    ensures var s' := Apply(s, a);
      && n in s'.nodes && s'.nodes[n].inbox == s.nodes[n].inbox
      && (s'.nodes[n].loop == s.nodes[n].loop || s'.nodes[n].loop.Idle?)
      && (forall name :: name in s'.nodes[n].peers ==> s'.nodes[n].peers[name] in s'.nodes)
      && forall e :: e in s.log ==> e in s'.log
  {
    assert NodeOk(s, n);
  }

  lemma NodeStep(s: State, a: Action, n: NodeId)
    requires StepOk(s, a) && n in s.nodes
    ensures NodeOk(Apply(s, a), n)
  {
    match a {
      case Enqueue(sid) =>
        if n == s.sends[sid].peer {
          EnqueueNode(s, sid);
          return;
        }
      case Post(n', msg) =>
        if n == n' {
          PostNode(s, n, msg);
          return;
        }
      case Take(n') =>
        if n == n' {
          TakeNode(s, n);
          return;
        }
      case Handle(n', body) =>
        if n == n' {
          AnswerNode(s, a);
          return;
        }
      case Pass(n') =>
        if n == n' {
          AnswerNode(s, a);
          return;
        }
      case _ =>
    }
    QuietStep(s, a, n);
    QuietNode(s, a, n);
  }

  // ----- The log -----

  lemma EntryStaysOk(s: State, a: Action, e: Handled)
    requires StepOk(s, a) && e in s.log
    ensures EntryOk(Apply(s, a), e)
  {
    assert EntryOk(s, e);
    if e.asker.Some? {
      EntryStaysFrom(s, a, e);
      if Asker(Apply(s, a), e.request.id) == e.asker {
        AskerWasSame(s, a, e);
        EntryStaysGone(s, a, e);
      }
    }
  }

  lemma EntryStaysFrom(s: State, a: Action, e: Handled)
    requires StepOk(s, a) && e in s.log && e.asker.Some?
    ensures IsFrom(Apply(s, a), e, e.asker.value)
  {
    assert EntryOk(s, e);
  }

  /** An id that has been used again never comes back to an earlier send. */
  lemma AskerWasSame(s: State, a: Action, e: Handled)
    requires StepOk(s, a) && e in s.log && e.asker.Some? && Asker(Apply(s, a), e.request.id) == e.asker
    ensures Asker(s, e.request.id) == e.asker
  {
    assert EntryOk(s, e);
  }

  lemma EntryStaysGone(s: State, a: Action, e: Handled)
    requires StepOk(s, a) && e in s.log && e.asker.Some?
    requires Asker(s, e.request.id) == e.asker == Asker(Apply(s, a), e.request.id)
    ensures e.node in Apply(s, a).nodes && IsGone(Apply(s, a), e)
  {
    assert EntryOk(s, e);
    if a.Enqueue? {
      EnqueueIsNotLogged(s, a.sid, e);
    } else if a.Take? && a.node == e.node {
      var inbox := s.nodes[e.node].inbox;
      assert forall i :: 0 <= i < |inbox[1..]| ==> inbox[1..][i] == inbox[i + 1];
    } else if !(a.Post? && a.node == e.node) {
      OtherStepsKeepInbox(s, a, e.node);
    }
  }

  lemma EnqueueIsNotLogged(s: State, sid: SendId, e: Handled)
    requires StepOk(s, Enqueue(sid)) && e in s.log && e.asker.Some? && Asker(s, e.request.id) == e.asker
    ensures e.request.id != s.sends[sid].msg.id
  {
    assert SendOk(s, sid) && EntryOk(s, e);
  }

  lemma OtherStepsKeepInbox(s: State, a: Action, n: NodeId)
    requires Enabled(s, a) && n in s.nodes && !a.Enqueue? && !((a.Take? || a.Post?) && a.node == n)
    ensures var s' := Apply(s, a);
      n in s'.nodes && s'.nodes[n].inbox == s.nodes[n].inbox
      && (s'.nodes[n].loop.Got? ==> s'.nodes[n].loop == s.nodes[n].loop)
  {
  }

  lemma NewEntry(s: State, a: Action)
    requires StepOk(s, a) && (a.Handle? || a.Pass?)
    ensures var s' := Apply(s, a);
      |s'.log| == |s.log| + 1 && s'.log[..|s.log|] == s.log && EntryOk(s', s'.log[|s.log|])
      && forall i :: 0 <= i < |s.log| && s.log[i].asker == s'.log[|s.log|].asker ==> s.log[i].asker.None?
  {
    var n := a.node;
    var id := s.nodes[n].loop.msg.id;
    assert NodeOk(s, n);
    if id in s.owner {
      assert OwnerOk(s, id);
    }
    forall i | 0 <= i < |s.log| && s.log[i].asker == Asker(s, id)
      ensures s.log[i].asker.None?
    {
      assert EntryOk(s, s.log[i]);
    }
  }

  lemma LogStep(s: State, a: Action)
    requires StepOk(s, a)
    ensures var s' := Apply(s, a); (forall e :: e in s'.log ==> EntryOk(s', e)) && HandledOnce(s')
  {
    var s' := Apply(s, a);
    if a.Handle? || a.Pass? {
      NewEntry(s, a);
      forall i, j | 0 <= i < j < |s'.log| && s'.log[i].asker == s'.log[j].asker
        ensures s'.log[i].asker.None?
      {
        assert s'.log[i] == s.log[i];
        if j < |s.log| {
          assert s'.log[j] == s.log[j];
        }
      }
    }
    forall e | e in s'.log
      ensures EntryOk(s', e)
    {
      if e in s.log {
        EntryStaysOk(s, a, e);
      }
    }
  }

  lemma StepKeepsInv(s: State, a: Action)
    requires StepOk(s, a)
    ensures Inv(Apply(s, a))
  {
    SendsStep(s, a);
    EntriesStep(s, a);
    NodesStep(s, a);
    LogStep(s, a);
    Assemble(Apply(s, a));
  }

  ghost predicate AllSendsOk(s: State) {
    forall sid {:trigger SendOk(s, sid)} :: sid in s.sends ==> SendOk(s, sid)
  }

  ghost predicate AllEntriesOk(s: State) {
    && (forall id {:trigger PendingOk(s, id)} :: id in s.pending ==> PendingOk(s, id))
    && (forall id {:trigger OwnerOk(s, id)} :: id in s.owner ==> OwnerOk(s, id))
  }

  ghost predicate AllNodesOk(s: State) {
    forall n {:trigger NodeOk(s, n)} :: n in s.nodes ==> NodeOk(s, n)
  }

  lemma Assemble(s: State)
    requires AllSendsOk(s) && AllEntriesOk(s) && AllNodesOk(s) && HandledOnce(s)
    requires forall e {:trigger EntryOk(s, e)} :: e in s.log ==> EntryOk(s, e)
    ensures Inv(s)
  {
  }

  lemma SendsStep(s: State, a: Action)
    requires StepOk(s, a)
    ensures AllSendsOk(Apply(s, a))
  {
    forall sid | sid in Apply(s, a).sends
      ensures SendOk(Apply(s, a), sid)
    {
      SendStep(s, a, sid);
    }
  }

  lemma EntriesStep(s: State, a: Action)
    requires StepOk(s, a)
    ensures AllEntriesOk(Apply(s, a))
  {
    forall id | id in Apply(s, a).pending
      ensures PendingOk(Apply(s, a), id)
    {
      PendingStep(s, a, id);
    }
    forall id | id in Apply(s, a).owner
      ensures OwnerOk(Apply(s, a), id)
    {
      OwnerStep(s, a, id);
    }
  }

  lemma NodesStep(s: State, a: Action)
    requires StepOk(s, a)
    ensures AllNodesOk(Apply(s, a))
  {
    forall n | n in Apply(s, a).nodes
      ensures NodeOk(Apply(s, a), n)
    {
      NodeStep(s, a, n);
    }
  }

  // ----- Whole runs -----

  /** The steps can be taken one after the other from s. */
  ghost predicate CanRun(s: State, actions: seq<Action>)
    decreases |actions|, 0
  {
    actions == [] ||
    var init, last := actions[..|actions| - 1], actions[|actions| - 1];
    CanRun(s, init) && Enabled(After(s, init), last)
  }

  ghost function After(s: State, actions: seq<Action>): State
    requires CanRun(s, actions)
    decreases |actions|, 1
  {
    if actions == [] then s
    else Apply(After(s, actions[..|actions| - 1]), actions[|actions| - 1])
  }

  /** Every step of the run meets the rule in the state it is taken in. */
  ghost predicate Obeys(rule: (State, Action) -> bool, s: State, actions: seq<Action>)
    requires CanRun(s, actions)
    decreases |actions|
  {
    actions == [] ||
    var init, last := actions[..|actions| - 1], actions[|actions| - 1];
    Obeys(rule, s, init) && rule(After(s, init), last)
  }

  /** Ids come back, if ever, when nothing uses them any more. */
  ghost predicate SafeRun(s: State, actions: seq<Action>) {
    Init(s) && CanRun(s, actions) && Obeys(SafeId, s, actions)
  }

  /** No id ever comes back. */
  ghost predicate FreshRun(s: State, actions: seq<Action>) {
    Init(s) && CanRun(s, actions) && Obeys(FreshId, s, actions)
  }

  lemma {:induction false} RunKeepsInv(s: State, actions: seq<Action>)
    requires SafeRun(s, actions)
    ensures Inv(After(s, actions))
    decreases |actions|
  {
    if actions == [] {
      InitHolds(s);
    } else {
      var init, last := actions[..|actions| - 1], actions[|actions| - 1];
      RunKeepsInv(s, init);
      StepKeepsInv(After(s, init), last);
    }
  }

  /** reply is the one answer that the target of this send gave to its request. */
  ghost predicate AnsweredBy(s: State, sid: SendId, reply: Message)
    requires sid in s.sends
  {
    var send := s.sends[sid];
    && reply.id == send.msg.id
    && Handled(send.peer, send.msg, reply, Some(sid)) in s.log
    && forall e :: e in s.log && e.asker == Some(sid) ==> e == Handled(send.peer, send.msg, reply, Some(sid))
  }

  lemma AnswerIsUnique(s: State, sid: SendId, reply: Message)
    requires Inv(s) && sid in s.sends && Handled(s.sends[sid].peer, s.sends[sid].msg, reply, Some(sid)) in s.log
    ensures AnsweredBy(s, sid, reply)
  {
    var own := Handled(s.sends[sid].peer, s.sends[sid].msg, reply, Some(sid));
    assert EntryOk(s, own);
    forall e | e in s.log && e.asker == Some(sid)
      ensures e == own
    {
      var i :| 0 <= i < |s.log| && s.log[i] == e;
      var j :| 0 <= j < |s.log| && s.log[j] == own;
    }
  }

  /**
   What send returns, in every interleaving in which ids only come back unused: a message
   with the id it sent, which is the one answer its target gave to that very request.
   */
  lemma SendReturnsItsAnswer(start: State, actions: seq<Action>, sid: SendId)
    requires SafeRun(start, actions)
    requires sid in After(start, actions).sends && Answered(After(start, actions).sends[sid].stage)
    ensures AnsweredBy(After(start, actions), sid, After(start, actions).sends[sid].stage.outcome.message)
  {
    var s := After(start, actions);
    RunKeepsInv(start, actions);
    assert SendOk(s, sid);
    AnswerIsUnique(s, sid, s.sends[sid].stage.outcome.message);
  }

  // ----- Runs in which no id comes back -----

  /** Sends have ids of their own, and only broadcasts are handled for nobody. */
  ghost predicate OwnIds(s: State) {
    && (forall sid :: sid in s.sends ==> Asker(s, s.sends[sid].msg.id) == Some(sid))
    && (forall e :: e in s.log && e.asker.None? ==> e.request.id in s.posted)
  }

  lemma FreshIsSafe(s: State, a: Action)
    requires Inv(s) && Enabled(s, a) && FreshId(s, a)
    ensures SafeId(s, a)
  {
    if a.StartSend? || a.Post? {
      var id := a.msg.id;
      forall sid | sid in s.sends && s.sends[sid].msg.id == id
        ensures s.sends[sid].stage.Done?
      {
        assert SendOk(s, sid);
      }
      if id !in s.posted {
        forall n | n in s.nodes
          ensures AbsentFrom(s, n, id)
        {
          assert NodeOk(s, n);
        }
      }
    }
  }

  lemma StepKeepsAskers(s: State, a: Action, sid: SendId)
    requires Enabled(s, a) && FreshId(s, a) && sid in Apply(s, a).sends
    requires sid in s.sends ==> Asker(s, s.sends[sid].msg.id) == Some(sid)
    ensures Asker(Apply(s, a), Apply(s, a).sends[sid].msg.id) == Some(sid)
  {
    if IsCallerStep(a) {
      CallerStepsKeepLog(s, a);
    } else {
      OtherStepsKeepSends(s, a);
    }
  }

  lemma FreshIdsKeepPosted(s: State, a: Action)
    requires Enabled(s, a) && FreshId(s, a)
    ensures s.posted <= Apply(s, a).posted
  {
  }

  lemma StepKeepsOwnIds(s: State, a: Action)
    requires StepOk(s, a) && FreshId(s, a) && OwnIds(s)
    ensures OwnIds(Apply(s, a))
  {
    var s' := Apply(s, a);
    FreshIdsKeepPosted(s, a);
    forall sid | sid in s'.sends
      ensures Asker(s', s'.sends[sid].msg.id) == Some(sid)
    {
      StepKeepsAskers(s, a, sid);
    }
    forall e | e in s'.log && e.asker.None?
      ensures e.request.id in s'.posted
    {
      if e !in s.log {
        NewEntryIsAsked(s, a, e);
      }
    }
  }

  lemma NewEntryIsAsked(s: State, a: Action, e: Handled)
    requires StepOk(s, a) && e in Apply(s, a).log && e !in s.log && e.asker.None?
    ensures e.request.id in s.posted
  {
    assert a.Handle? || a.Pass?;
    assert NodeOk(s, a.node);
  }

  lemma {:induction false} FreshRunIsSafe(s: State, actions: seq<Action>)
    requires FreshRun(s, actions)
    ensures SafeRun(s, actions) && OwnIds(After(s, actions))
    decreases |actions|
  {
    if actions != [] {
      var init, last := actions[..|actions| - 1], actions[|actions| - 1];
      FreshRunIsSafe(s, init);
      RunKeepsInv(s, init);
      FreshIsSafe(After(s, init), last);
      StepKeepsOwnIds(After(s, init), last);
    }
  }

  /** With fresh ids the answer is the only thing ever handled under that id. */
  lemma FreshAnswerIsOnlyOne(start: State, actions: seq<Action>, sid: SendId, e: Handled)
    requires FreshRun(start, actions)
    requires sid in After(start, actions).sends && Answered(After(start, actions).sends[sid].stage)
    requires e in After(start, actions).log && e.request.id == After(start, actions).sends[sid].msg.id
    ensures var send := After(start, actions).sends[sid];
      e == Handled(send.peer, send.msg, send.stage.outcome.message, Some(sid))
  {
    FreshRunIsSafe(start, actions);
    RunKeepsInv(start, actions);
    SendReturnsItsAnswer(start, actions, sid);
    var s := After(start, actions);
    assert EntryOk(s, e);
    assert OwnerOk(s, s.sends[sid].msg.id);
  }

  /** Bounds: a reply channel holds at most one message and an inbox at most 100. */
  lemma QueuesStayBounded(start: State, actions: seq<Action>)
    requires SafeRun(start, actions)
    ensures var s := After(start, actions);
      && (forall sid :: sid in s.sends ==> |s.sends[sid].channel| <= 1)
      && (forall n :: n in s.nodes ==> |s.nodes[n].inbox| <= CAPACITY)
  {
    var s := After(start, actions);
    RunKeepsInv(start, actions);
    forall sid | sid in s.sends
      ensures |s.sends[sid].channel| <= 1
    {
      assert SendOk(s, sid);
    }
    forall n | n in s.nodes
      ensures |s.nodes[n].inbox| <= CAPACITY
    {
      assert NodeOk(s, n);
    }
  }

  /**
   A delivery puts the reply into the channel of the send that owns its id, exactly
   while that send is registered; every other send, and a send that has given up
   and cleaned up, is left as it was.
   */
  lemma DeliveryReachesOnlyItsSend(start: State, actions: seq<Action>, n: NodeId, sid: SendId)
    requires SafeRun(start, actions)
    requires Enabled(After(start, actions), Deliver(n)) && sid in After(start, actions).sends
    ensures var s, s' := After(start, actions), Apply(After(start, actions), Deliver(n));
            var Replying(msg, reply) := s.nodes[n].loop;
      && s'.sends.Keys == s.sends.Keys
      && s'.sends[sid] ==
           if s.sends[sid].msg.id == msg.id && Registered(s.sends[sid].stage)
           then s.sends[sid].(channel := [reply]) else s.sends[sid]
  {
    var s := After(start, actions);
    RunKeepsInv(start, actions);
    assert NodeOk(s, n) && SendOk(s, sid);
    if CanReach(s, s.nodes[n].loop.msg.id) {
      ReachesItsSend(s, n);
      assert PendingOk(s, s.nodes[n].loop.msg.id);
    }
  }

  // ----- Inboxes are queues -----

  predicate IsSendTo(s: State, a: Action, n: NodeId) {
    a.Enqueue? && a.sid in s.sends && s.sends[a.sid].peer == n
  }

  /** What a step puts into the inbox of n: a request that its sender then waits for, or a post while there is room. */
  function AcceptedBy(s: State, a: Action, s': State, n: NodeId): seq<Message> {
    if IsSendTo(s, a, n) && a.sid in s'.sends && s'.sends[a.sid].stage.Waiting? then [s.sends[a.sid].msg]
    else if a.Post? && a.node == n && n in s.nodes && |s.nodes[n].inbox| < 100 then [a.msg]
    else []
  }

  /** What a step hands to the loop of n. */
  function TakenBy(a: Action, s': State, n: NodeId): seq<Message> {
    if a.Take? && a.node == n && n in s'.nodes && s'.nodes[n].loop.Got? then [s'.nodes[n].loop.msg] else []
  }

  /** The messages that n accepted during a run, in that order. */
  ghost function Accepted(s: State, actions: seq<Action>, n: NodeId): seq<Message>
    requires CanRun(s, actions)
  {
    if actions == [] then []
    else
      var init, last := actions[..|actions| - 1], actions[|actions| - 1];
      Accepted(s, init, n) + AcceptedBy(After(s, init), last, After(s, actions), n)
  }

  /** The messages that the loop of n took during a run, in that order. */
  ghost function Taken(s: State, actions: seq<Action>, n: NodeId): seq<Message>
    requires CanRun(s, actions)
  {
    if actions == [] then []
    else
      var init, last := actions[..|actions| - 1], actions[|actions| - 1];
      Taken(s, init, n) + TakenBy(last, After(s, actions), n)
  }

  function InboxOf(s: State, n: NodeId): seq<Message> {
    if n in s.nodes then s.nodes[n].inbox else []
  }

  /** The inbox before and what the step puts in are what it takes out and the inbox after. */
  predicate QueueMoves(s: State, a: Action, n: NodeId)
    requires Enabled(s, a)
  {
    var s' := Apply(s, a);
    InboxOf(s, n) + AcceptedBy(s, a, s', n) == TakenBy(a, s', n) + InboxOf(s', n)
  }

  lemma EnqueueMoves(s: State, sid: SendId, n: NodeId)
    requires Enabled(s, Enqueue(sid))
    ensures QueueMoves(s, Enqueue(sid), n)
  {
  }

  lemma TakeMoves(s: State, node: NodeId, n: NodeId)
    requires Enabled(s, Take(node))
    ensures QueueMoves(s, Take(node), n)
  {
    if node == n {
      var inbox := s.nodes[n].inbox;
      assert inbox + [] == [inbox[0]] + inbox[1..];
    }
  }

  lemma PostMoves(s: State, node: NodeId, msg: Message, n: NodeId)
    requires Enabled(s, Post(node, msg))
    ensures QueueMoves(s, Post(node, msg), n)
  {
  }

  lemma StepQueues(s: State, a: Action, n: NodeId)
    requires Enabled(s, a)
    ensures QueueMoves(s, a, n)
  {
    match a {
      case Enqueue(sid) => EnqueueMoves(s, sid, n);
      case Take(node) => TakeMoves(s, node, n);
      case Post(node, msg) => PostMoves(s, node, msg, n);
      case _ => assert InboxOf(Apply(s, a), n) == InboxOf(s, n);
    }
  }

  /** In every run, with whatever ids, what a node accepted is what its loop took, in that order, and then its inbox. */
  lemma {:induction false} InboxIsQueue(s: State, actions: seq<Action>, n: NodeId)
    requires Init(s) && CanRun(s, actions)
    ensures Accepted(s, actions, n) == Taken(s, actions, n) + InboxOf(After(s, actions), n)
    decreases |actions|
  {
    if actions != [] {
      var init, last := actions[..|actions| - 1], actions[|actions| - 1];
      InboxIsQueue(s, init, n);
      StepQueues(After(s, init), last, n);
      MoveAlong(Taken(s, init, n), InboxOf(After(s, init), n),
                AcceptedBy(After(s, init), last, After(s, actions), n),
                TakenBy(last, After(s, actions), n), InboxOf(After(s, actions), n));
    }
  }

  lemma MoveAlong(taken: seq<Message>, before: seq<Message>, accepts: seq<Message>,
                  takes: seq<Message>, after: seq<Message>)
    requires before + accepts == takes + after
    ensures (taken + before) + accepts == (taken + takes) + after
  {
    assert (taken + before) + accepts == taken + (before + accepts);
    assert (taken + takes) + after == taken + (takes + after);
  }

  // ----- Nodes answer in that order -----

  predicate Answerable(m: Message) {
    !m.kind.Other?
  }

  /** The requests that n has handled, in the order of the log. */
  function HandledAt(log: seq<Handled>, n: NodeId): seq<Message> {
    if log == [] then []
    else
      var init, last := log[..|log| - 1], log[|log| - 1];
      HandledAt(init, n) + if last.node == n then [last.request] else []
  }

  /** What the loop of n has taken and not handled yet. */
  function InHand(s: State, n: NodeId): seq<Message> {
    if n in s.nodes && s.nodes[n].loop.Got? then Filter(Answerable, [s.nodes[n].loop.msg]) else []
  }

  lemma HandledSnoc(log: seq<Handled>, e: Handled, n: NodeId)
    ensures HandledAt(log + [e], n) == HandledAt(log, n) + if e.node == n then [e.request] else []
  {
    assert (log + [e])[..|log|] == log;
  }

  lemma StepAnswers(s: State, a: Action, n: NodeId)
    requires Enabled(s, a)
    ensures var s' := Apply(s, a);
      HandledAt(s'.log, n) + InHand(s', n) == HandledAt(s.log, n) + InHand(s, n) + Filter(Answerable, TakenBy(a, s', n))
  {
    if a.Handle? || a.Pass? {
      AnswerSteps(s, a, n);
    } else {
      OtherStepsLog(s, a, n);
    }
  }

  lemma AnswerSteps(s: State, a: Action, n: NodeId)
    requires Enabled(s, a) && (a.Handle? || a.Pass?)
    ensures var s' := Apply(s, a);
      TakenBy(a, s', n) == [] && HandledAt(s'.log, n) + InHand(s', n) == HandledAt(s.log, n) + InHand(s, n)
  {
    var e := AnswerIsLogged(s, a);
    HandledSnoc(s.log, e, n);
    AnswerFreesHand(s, a, n);
    var more := if n == a.node then [e.request] else [];
    Regroup(HandledAt(s.log, n), more, InHand(Apply(s, a), n));
  }

  lemma Regroup(a: seq<Message>, b: seq<Message>, c: seq<Message>)
    ensures (a + b) + c == a + (b + c)
  {
  }

  /** The answered message is in hand before, and nothing is afterwards; other nodes are not concerned. */
  lemma AnswerFreesHand(s: State, a: Action, n: NodeId)
    requires Enabled(s, a) && (a.Handle? || a.Pass?)
    ensures InHand(s, n) == (if n == a.node then [s.nodes[n].loop.msg] else []) + InHand(Apply(s, a), n)
  {
    var e := AnswerIsLogged(s, a);
    if n == a.node {
      FilterOne(Answerable, s.nodes[n].loop.msg);
    } else {
      assert [] + InHand(Apply(s, a), n) == InHand(s, n);
    }
  }

  lemma AnswerIsLogged(s: State, a: Action) returns (e: Handled)
    requires Enabled(s, a) && (a.Handle? || a.Pass?)
    ensures var s' := Apply(s, a);
      && s'.log == s.log + [e] && e.node == a.node && e.request == s.nodes[a.node].loop.msg
      && (forall n :: n in s'.nodes && n != a.node ==> n in s.nodes && s'.nodes[n] == s.nodes[n])
      && s'.nodes[a.node].loop.Replying? && s'.nodes.Keys == s.nodes.Keys
  {
    e := Apply(s, a).log[|s.log|];
  }

  lemma OtherStepsLog(s: State, a: Action, n: NodeId)
    requires Enabled(s, a) && !a.Handle? && !a.Pass?
    ensures var s' := Apply(s, a);
      s'.log == s.log && InHand(s', n) == InHand(s, n) + Filter(Answerable, TakenBy(a, s', n))
  {
    if a.Ignore? {
      FilterOne(Answerable, s.nodes[a.node].loop.msg);
    }
  }

  /** In every run, what a node has handled is what its loop took, in that order, but for messages of other kinds. */
  lemma {:induction false} AnswersInOrder(s: State, actions: seq<Action>, n: NodeId)
    requires Init(s) && CanRun(s, actions)
    ensures HandledAt(After(s, actions).log, n) + InHand(After(s, actions), n)
         == Filter(Answerable, Taken(s, actions, n))
    decreases |actions|
  {
    if actions != [] {
      var init, last := actions[..|actions| - 1], actions[|actions| - 1];
      AnswersInOrder(s, init, n);
      StepAnswers(After(s, init), last, n);
      FilterAppend(Answerable, Taken(s, init, n), TakenBy(last, After(s, actions), n));
    }
  }

  predicate Finishes(a: Action, n: NodeId) {
    (a.Deliver? || a.Ignore?) && a.node == n
  }

  /** How many messages the loop of n has finished: their replies delivered, or the messages ignored. */
  function Finished(actions: seq<Action>, n: NodeId): nat {
    if actions == [] then 0
    else
      var init, last := actions[..|actions| - 1], actions[|actions| - 1];
      Finished(init, n) + if Finishes(last, n) then 1 else 0
  }

  predicate Busy(s: State, n: NodeId) {
    n in s.nodes && !s.nodes[n].loop.Idle?
  }

  lemma StepFinishes(s: State, a: Action, n: NodeId)
    requires Enabled(s, a)
    ensures var s' := Apply(s, a);
      (if Busy(s, n) then 1 else 0) + |TakenBy(a, s', n)|
      == (if Finishes(a, n) then 1 else 0) + (if Busy(s', n) then 1 else 0)
  {
  }

  /** A node finishes every message before it takes the next one. */
  lemma {:induction false} OneAtATime(s: State, actions: seq<Action>, n: NodeId)
    requires Init(s) && CanRun(s, actions)
    ensures |Taken(s, actions, n)| == Finished(actions, n) + if Busy(After(s, actions), n) then 1 else 0
    decreases |actions|
  {
    if actions != [] {
      var init, last := actions[..|actions| - 1], actions[|actions| - 1];
      OneAtATime(s, init, n);
      StepFinishes(After(s, init), last, n);
    }
  }

  /** A step of the run made this entry: what the handler of the node returned, or a reply handed through. */
  ghost predicate WasAnswered(s: State, actions: seq<Action>, e: Handled)
    requires CanRun(s, actions)
    decreases |actions|
  {
    actions != [] &&
    var init, last := actions[..|actions| - 1], actions[|actions| - 1];
    WasAnswered(s, init, e) || Answers(After(s, init), last, e)
  }

  predicate Answers(s: State, a: Action, e: Handled) {
    && e.node in s.nodes && s.nodes[e.node].loop == Got(e.request) && e.asker == Asker(s, e.request.id)
    && ((a == Pass(e.node) && e.request.kind.Reply? && e.reply == e.request)
        || (e.request.kind.Request? && e.reply.kind.Reply? && e.reply.id == e.request.id
            && a == Handle(e.node, e.reply.body)))
  }

  /** In every run, each entry of the log is an answer that its node's handler gave to that request. */
  lemma {:induction false} EntriesWereAnswered(s: State, actions: seq<Action>, e: Handled)
    requires Init(s) && CanRun(s, actions) && e in After(s, actions).log
    ensures WasAnswered(s, actions, e)
    decreases |actions|
  {
    var init, last := actions[..|actions| - 1], actions[|actions| - 1];
    if e in After(s, init).log {
      EntriesWereAnswered(s, init, e);
    } else {
      NewEntryAnswers(After(s, init), last, e);
    }
  }

  lemma NewEntryAnswers(s: State, a: Action, e: Handled)
    requires Enabled(s, a) && e in Apply(s, a).log && e !in s.log
    ensures Answers(s, a, e)
  {
  }

  // ----- When the buffer is full -----

  lemma StepHoldsHundred(s: State, a: Action, n: NodeId)
    requires Enabled(s, a) && |InboxOf(s, n)| <= 100
    ensures |InboxOf(Apply(s, a), n)| <= 100
  {
  }

  lemma {:induction false} InboxHoldsHundred(s: State, actions: seq<Action>, n: NodeId)
    requires Init(s) && CanRun(s, actions)
    ensures |InboxOf(After(s, actions), n)| <= 100
    decreases |actions|
  {
    if actions != [] {
      var init, last := actions[..|actions| - 1], actions[|actions| - 1];
      InboxHoldsHundred(s, init, n);
      StepHoldsHundred(After(s, init), last, n);
    }
  }

  /** The send sid met an inbox that held 100 messages. */
  ghost predicate MetFullInbox(s: State, actions: seq<Action>, sid: SendId)
    requires CanRun(s, actions)
    decreases |actions|
  {
    actions != [] &&
    var init, last := actions[..|actions| - 1], actions[|actions| - 1];
    MetFullInbox(s, init, sid)
    || (last == Enqueue(sid) && |InboxOf(After(s, init), After(s, init).sends[sid].peer)| == 100)
  }

  predicate ReportsFull(s: State, sid: SendId) {
    sid in s.sends && var stage := s.sends[sid].stage; (stage.Cleaning? || stage.Done?) && stage.outcome.BufferFull?
  }

  lemma StepReportsFull(s: State, a: Action, sid: SendId)
    requires Enabled(s, a) && (forall n :: |InboxOf(s, n)| <= 100)
    ensures ReportsFull(Apply(s, a), sid) <==>
            ReportsFull(s, sid) || (a == Enqueue(sid) && |InboxOf(s, s.sends[sid].peer)| == 100)
  {
    if a == Enqueue(sid) {
      assert |InboxOf(s, s.sends[sid].peer)| <= 100;
    }
  }

  /** In every run, a send reports a full buffer exactly when the inbox of its peer held 100 messages at its step. */
  lemma {:induction false} ReportsFullIff(s: State, actions: seq<Action>, sid: SendId)
    requires Init(s) && CanRun(s, actions)
    ensures ReportsFull(After(s, actions), sid) <==> MetFullInbox(s, actions, sid)
    decreases |actions|
  {
    if actions != [] {
      var init := actions[..|actions| - 1];
      ReportsFullIff(s, init, sid);
      forall n
        ensures |InboxOf(After(s, init), n)| <= 100
      {
        InboxHoldsHundred(s, init, n);
      }
      StepReportsFull(After(s, init), actions[|actions| - 1], sid);
    }
  }

  // ----- Who times out -----

  /** The step puts a reply into the channel of this send. */
  predicate Reaches(s: State, a: Action, sid: SendId) {
    && a.Deliver? && a.node in s.nodes && s.nodes[a.node].loop.Replying?
    && CanReach(s, s.nodes[a.node].loop.msg.id) && s.pending[s.nodes[a.node].loop.msg.id] == sid
  }

  ghost predicate WasReached(s: State, actions: seq<Action>, sid: SendId)
    requires CanRun(s, actions)
  {
    actions != [] &&
    var init, last := actions[..|actions| - 1], actions[|actions| - 1];
    WasReached(s, init, sid) || Reaches(After(s, init), last, sid)
  }

  /** The send has neither returned a reply nor given up. */
  predicate IsOpen(s: State, sid: SendId) {
    sid in s.sends && !s.sends[sid].stage.Cleaning? && !s.sends[sid].stage.Done?
  }

  lemma StepReaches(s: State, a: Action, sid: SendId)
    requires Enabled(s, a) && IsOpen(Apply(s, a), sid)
    ensures sid in s.sends ==> IsOpen(s, sid)
    ensures Apply(s, a).sends[sid].channel == []
       <==> !Reaches(s, a, sid) && (sid in s.sends ==> s.sends[sid].channel == [])
  {
  }

  lemma StepStartsNone(s: State, a: Action, sid: SendId)
    requires Enabled(s, a) && sid !in Apply(s, a).sends
    ensures sid !in s.sends && !Reaches(s, a, sid)
  {
  }

  /** In every run, the channel of an open send is empty exactly when no reply has reached it. */
  lemma {:induction false} OpenIsUnreached(s: State, actions: seq<Action>, sid: SendId)
    requires Init(s) && CanRun(s, actions)
    ensures sid !in After(s, actions).sends ==> !WasReached(s, actions, sid)
    ensures IsOpen(After(s, actions), sid) ==>
              (After(s, actions).sends[sid].channel == [] <==> !WasReached(s, actions, sid))
    decreases |actions|
  {
    if actions != [] {
      var init, last := actions[..|actions| - 1], actions[|actions| - 1];
      OpenIsUnreached(s, init, sid);
      if sid !in After(s, actions).sends {
        StepStartsNone(After(s, init), last, sid);
      } else if IsOpen(After(s, actions), sid) {
        StepReaches(After(s, init), last, sid);
      }
    }
  }

  /** A send gives up only when no reply has reached it, and returns one only when one has. */
  lemma GivesUpUnreached(s: State, actions: seq<Action>, sid: SendId)
    requires Init(s) && CanRun(s, actions)
    ensures Enabled(After(s, actions), TimeOut(sid)) ==> !WasReached(s, actions, sid)
    ensures Enabled(After(s, actions), Receive(sid)) ==> WasReached(s, actions, sid)
  {
    OpenIsUnreached(s, actions, sid);
  }

  // ----- Peers -----

  /** The node that n knows under a name: the one added last, unless it was removed since. */
  function PeerAfter(actions: seq<Action>, n: NodeId, name: Name): Option<NodeId> {
    if actions == [] then None
    else
      var init, last := actions[..|actions| - 1], actions[|actions| - 1];
      if last.AddPeer? && last.node == n && last.name == name then Some(last.peer)
      else if last.RemovePeer? && last.node == n && last.name == name then None
      else PeerAfter(init, n, name)
  }

  function PeerIn(s: State, n: NodeId, name: Name): Option<NodeId> {
    if n in s.nodes && name in s.nodes[n].peers then Some(s.nodes[n].peers[name]) else None
  }

  lemma StepPeers(s: State, a: Action, n: NodeId, name: Name)
    requires Enabled(s, a)
    ensures Apply(s, a).nodes.Keys == s.nodes.Keys
    ensures PeerIn(Apply(s, a), n, name) ==
            if a.AddPeer? && a.node == n && a.name == name then Some(a.peer)
            else if a.RemovePeer? && a.node == n && a.name == name then None
            else PeerIn(s, n, name)
  {
    if !a.AddPeer? && !a.RemovePeer? {
      OtherStepsKeepPeers(s, a, n);
    }
  }

  lemma OtherStepsKeepPeers(s: State, a: Action, n: NodeId)
    requires Enabled(s, a) && !a.AddPeer? && !a.RemovePeer?
    ensures Apply(s, a).nodes.Keys == s.nodes.Keys
    ensures n in s.nodes ==> Apply(s, a).nodes[n].peers == s.nodes[n].peers
  {
  }

  lemma {:induction false} PeersFollow(s: State, actions: seq<Action>, n: NodeId, name: Name)
    requires Init(s) && CanRun(s, actions)
    ensures After(s, actions).nodes.Keys == s.nodes.Keys
    ensures PeerIn(After(s, actions), n, name) == PeerAfter(actions, n, name)
    decreases |actions|
  {
    if actions != [] {
      var init, last := actions[..|actions| - 1], actions[|actions| - 1];
      PeersFollow(s, init, n, name);
      StepPeers(After(s, init), last, n, name);
    }
  }

  /** A send goes to the node that its target name stood for when it began, and fails at once without one. */
  lemma SendGoesToPeer(s: State, actions: seq<Action>, sid: SendId, n: NodeId, target: Name, msg: Message)
    requires Init(s) && CanRun(s, actions) && n in s.nodes && sid !in After(s, actions).sends
    ensures Enabled(After(s, actions), StartSend(sid, n, target, msg)) <==> PeerAfter(actions, n, target).Some?
    ensures PeerAfter(actions, n, target).Some? ==>
              var send := Apply(After(s, actions), StartSend(sid, n, target, msg)).sends[sid];
              send.peer == PeerAfter(actions, n, target).value && send.msg == msg
  {
    PeersFollow(s, actions, n, target);
  }

  // ----- Without fresh ids -----

  lemma OneMore(s: State, actions: seq<Action>, a: Action)
    requires CanRun(s, actions) && Enabled(After(s, actions), a)
    ensures CanRun(s, actions + [a]) && After(s, actions + [a]) == Apply(After(s, actions), a)
  {
    assert (actions + [a])[..|actions|] == actions;
  }

  /** n is about to take the request l, while the send sid has registered the id of l. */
  ghost predicate Claims(s: State, n: NodeId, sid: SendId, l: Message) {
    && n in s.nodes && s.nodes[n].loop.Idle? && s.nodes[n].inbox != [] && s.nodes[n].inbox[0] == l
    && l.kind.Request? && l.id in s.pending && s.pending[l.id] == sid
    && sid in s.sends && s.sends[sid].stage.Waiting? && s.sends[sid].msg.id == l.id && s.sends[sid].channel == []
  }

  /** n is about to deliver its reply to l, and the send sid is the one it goes to. */
  ghost predicate Delivers(s: State, n: NodeId, sid: SendId, l: Message, reply: Message) {
    && n in s.nodes && s.nodes[n].loop == Replying(l, reply)
    && l.id in s.pending && s.pending[l.id] == sid && sid in s.sends && s.sends[sid].channel == []
  }

  lemma TakenAndHandled(s: State, n: NodeId, sid: SendId, l: Message, body: Body)
    requires Claims(s, n, sid, l)
    ensures Enabled(s, Take(n)) && Enabled(Apply(s, Take(n)), Handle(n, body))
    ensures var s', reply := Apply(Apply(s, Take(n)), Handle(n, body)), Message(l.id, Reply, body);
      && Delivers(s', n, sid, l, reply)
      && s'.sends == s.sends && s'.log == s.log + [Handled(n, l, reply, Asker(s, l.id))]
  {
  }

  lemma Delivered(s: State, n: NodeId, sid: SendId, l: Message, reply: Message)
    requires Delivers(s, n, sid, l, reply)
    ensures Enabled(s, Deliver(n))
    ensures Apply(s, Deliver(n)).sends == s.sends[sid := s.sends[sid].(channel := [reply])]
    ensures Apply(s, Deliver(n)).log == s.log
  {
    assert [] + [reply] == [reply];
  }

  lemma TwoMore(s: State, actions: seq<Action>, a: Action, b: Action) returns (more: seq<Action>)
    requires CanRun(s, actions) && Enabled(After(s, actions), a) && Enabled(Apply(After(s, actions), a), b)
    ensures CanRun(s, more) && After(s, more) == Apply(Apply(After(s, actions), a), b)
  {
    OneMore(s, actions, a);
    OneMore(s, actions + [a], b);
    return actions + [a] + [b];
  }

  lemma ClaimedReply(start: State, actions: seq<Action>, n: NodeId, sid: SendId, l: Message, body: Body)
    returns (more: seq<Action>)
    requires CanRun(start, actions) && Claims(After(start, actions), n, sid, l)
    ensures CanRun(start, more)
    ensures var s, s' := After(start, actions), After(start, more);
      && s'.sends == s.sends[sid := s.sends[sid].(channel := [Message(l.id, Reply, body)])]
      && s'.log == s.log + [Handled(n, l, Message(l.id, Reply, body), Asker(s, l.id))]
  {
    TakenAndHandled(After(start, actions), n, sid, l, body);
    more := TwoMore(start, actions, Take(n), Handle(n, body));
    Delivered(After(start, more), n, sid, l, Message(l.id, Reply, body));
    OneMore(start, more, Deliver(n));
    more := more + [Deliver(n)];
  }

  /**
   Whoever has registered an id gets the answer to any request with that id, from
   whichever node, in every state where such a request is next in an inbox.
   */
  lemma AnswerGoesToClaimer(start: State, actions: seq<Action>, n: NodeId, sid: SendId, l: Message, body: Body)
    returns (more: seq<Action>)
    requires CanRun(start, actions) && Claims(After(start, actions), n, sid, l)
    ensures CanRun(start, more)
    ensures var s, s' := After(start, actions), After(start, more);
      && sid in s'.sends && s'.sends[sid].peer == s.sends[sid].peer
      && s'.sends[sid].stage == Done(Answer(Message(l.id, Reply, body)))
      && (forall k :: k in s.sends && k != sid ==> k in s'.sends && s'.sends[k] == s.sends[k])
      && s'.log == s.log + [Handled(n, l, Message(l.id, Reply, body), Asker(s, l.id))]
  {
    more := ClaimedReply(start, actions, n, sid, l, body);
    OneMore(start, more, Receive(sid));
    more := more + [Receive(sid)];
    OneMore(start, more, Cleanup(sid));
    more := more + [Cleanup(sid)];
  }

  const FROM := NodeId(0)
  const LEFT := NodeId(1)
  const RIGHT := NodeId(2)
  const TO_LEFT := Name("left")
  const TO_RIGHT := Name("right")

  const ALONE := Node(map[], [], Idle, false)
  const START := State(map[FROM := ALONE, LEFT := ALONE, RIGHT := ALONE], map[], map[], map[], {}, [])

  const PEERED := ALONE.(peers := map[TO_LEFT := LEFT, TO_RIGHT := RIGHT])
  const INTRODUCED := START.(nodes := map[FROM := PEERED, LEFT := ALONE, RIGHT := ALONE])

  lemma PeersMeet() returns (actions: seq<Action>)
    ensures CanRun(START, actions) && After(START, actions) == INTRODUCED
  {
    assert TO_LEFT.value[0] != TO_RIGHT.value[0];
    actions := [];
    OneMore(START, actions, AddPeer(FROM, TO_LEFT, LEFT));
    actions := actions + [AddPeer(FROM, TO_LEFT, LEFT)];
    OneMore(START, actions, AddPeer(FROM, TO_RIGHT, RIGHT));
    actions := actions + [AddPeer(FROM, TO_RIGHT, RIGHT)];
    assert After(START, actions).nodes == INTRODUCED.nodes;
  }

  /** The left node holds l, and send 0 waits for its answer or has given up. */
  function LeftAsked(l: Message, gaveUp: bool): State {
    State(INTRODUCED.nodes[LEFT := ALONE.(inbox := [l])],
          if gaveUp then map[] else map[l.id := 0],
          map[0 := Send(LEFT, l, if gaveUp then Done(TimedOut) else Waiting, [])], map[l.id := 0], {}, [])
  }

  lemma LeftIsAsked(l: Message) returns (actions: seq<Action>)
    ensures CanRun(START, actions) && After(START, actions) == LeftAsked(l, false)
  {
    actions := PeersMeet();
    OneMore(START, actions, StartSend(0, FROM, TO_LEFT, l));
    actions := actions + [StartSend(0, FROM, TO_LEFT, l)];
    OneMore(START, actions, Register(0));
    actions := actions + [Register(0)];
    OneMore(START, actions, Enqueue(0));
    actions := actions + [Enqueue(0)];
    assert ALONE.inbox + [l] == [l];
    var s := After(START, actions);
    assert s.nodes == LeftAsked(l, false).nodes;
    assert s.sends == LeftAsked(l, false).sends;
  }

  lemma LeftTimesOut(l: Message) returns (actions: seq<Action>)
    ensures CanRun(START, actions) && After(START, actions) == LeftAsked(l, true)
  {
    actions := LeftIsAsked(l);
    OneMore(START, actions, TimeOut(0));
    actions := actions + [TimeOut(0)];
    OneMore(START, actions, Cleanup(0));
    actions := actions + [Cleanup(0)];
    var s := After(START, actions);
    assert s.sends == LeftAsked(l, true).sends;
    assert s.pending == map[];
  }

  lemma LeftAskedOrGaveUp(l: Message, gaveUp: bool) returns (actions: seq<Action>)
    ensures CanRun(START, actions) && After(START, actions) == LeftAsked(l, gaveUp)
  {
    if gaveUp {
      actions := LeftTimesOut(l);
    } else {
      actions := LeftIsAsked(l);
    }
  }

  /** The second send, to the right node, has registered the id of the first. */
  function BothAsked(l: Message, r: Message, gaveUp: bool): State {
    var s := LeftAsked(l, gaveUp);
    s.(pending := map[l.id := 1], owner := map[l.id := 1], sends := s.sends[1 := Send(RIGHT, r, Enqueuing, [])])
  }

  lemma RightStarts(l: Message, r: Message, gaveUp: bool)
    requires r.id == l.id
    ensures var s, a := LeftAsked(l, gaveUp), StartSend(1, FROM, TO_RIGHT, r);
      && Enabled(s, a)
      && Apply(s, a) == s.(owner := map[l.id := 1], sends := s.sends[1 := Send(RIGHT, r, Registering, [])])
  {
    assert TO_LEFT.value[0] != TO_RIGHT.value[0];
    var s := LeftAsked(l, gaveUp);
    assert Apply(s, StartSend(1, FROM, TO_RIGHT, r)).owner == map[l.id := 1];
  }

  lemma RightRegisters(l: Message, r: Message, gaveUp: bool) returns (actions: seq<Action>)
    requires r.id == l.id
    ensures CanRun(START, actions) && After(START, actions) == BothAsked(l, r, gaveUp)
  {
    actions := LeftAskedOrGaveUp(l, gaveUp);
    RightStarts(l, r, gaveUp);
    OneMore(START, actions, StartSend(1, FROM, TO_RIGHT, r));
    actions := actions + [StartSend(1, FROM, TO_RIGHT, r)];
    OneMore(START, actions, Register(1));
    actions := actions + [Register(1)];
    var t := After(START, actions);
    assert t.sends == BothAsked(l, r, gaveUp).sends;
    assert t.pending == map[l.id := 1] && t.owner == map[l.id := 1];
  }

  /**
   An id used twice, for any id: the send to the right peer returns the left peer's
   answer, whether the first send still waits or has timed out, as long as the old
   request is in the left inbox.
   */
  lemma SharedIdCrossesReplies(l: Message, r: Message, body: Body, gaveUp: bool) returns (actions: seq<Action>)
    requires l.id == r.id && l.kind.Request?
    ensures Init(START) && CanRun(START, actions)
    ensures var s := After(START, actions);
      && 0 in s.sends && (gaveUp ==> s.sends[0].stage == Done(TimedOut))
      && 1 in s.sends && s.sends[1].peer == RIGHT
      && s.sends[1].stage == Done(Answer(Message(l.id, Reply, body)))
      && s.log == [Handled(LEFT, l, Message(l.id, Reply, body), Some(1))]
  {
    actions := RightRegisters(l, r, gaveUp);
    OneMore(START, actions, Enqueue(1));
    actions := actions + [Enqueue(1)];
    actions := AnswerGoesToClaimer(START, actions, LEFT, 1, l, body);
  }
}
