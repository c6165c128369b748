/**
 Two picomux endpoints joined by two byte pipes, carrying any number of streams at once.
 Every step of the whole system is, for each stream, either one step of that stream's link or
 no step at all; so everything proved of one link holds of every stream of every run.
 */
module PicomuxMux {
  import opened Common
  import opened PicomuxFrame
  import opened PicomuxWindow
  import opened PicomuxEndpoint
  import Table = PicomuxTable
  import Link = PicomuxLink

  /** An endpoint and the frames it has written that the other side has not read yet. */
  datatype Node = Node(end: Endpoint, wire: seq<Frame>)

  datatype Nodes = Nodes(me: Node, peer: Node)

  datatype Action =
    | OpenStream(id: StreamId, metadata: seq<byte>)
    | StreamStep(id: StreamId, step: Link.Step)
    | TransmitFrame
    | DeliverFrame
    | SendPing(body: seq<byte>)

  // ----- what a stream sees of a list of frames

  function ToMsg(f: Frame): Option<Link.Msg> {
    var cmd := f.header.command;
    if cmd == CMD_SYN then Some(Link.Syn(f.body))
    else if cmd == CMD_PSH then Some(Link.Psh(f.body))
    else if cmd == CMD_FIN then Some(Link.Fin)
    else if cmd == CMD_MORE && |f.body| == 2 then Some(Link.More(FromLittleEndian(f.body)))
    else None
  }

  predicate Concerns(f: Frame, id: StreamId) {
    f.header.streamId == id && ToMsg(f).Some?
  }

  function Project(fs: seq<Frame>, id: StreamId): seq<Link.Msg> {
    if fs == [] then []
    else (if Concerns(fs[0], id) then [ToMsg(fs[0]).value] else []) + Project(fs[1..], id)
  }

  // ----- the system

  /** No trace of the id is left anywhere, so it can be given to a new stream. */
  predicate Unused(n: Node, id: StreamId) {
    && id !in n.end.table
    && (id in n.end.tasks ==> n.end.tasks[id].phase.Closed?)
    && Project(n.end.queue, id) == [] && Project(n.wire, id) == []
  }

  /** `None` if the action is not possible, or if it would kill the connection. */
  function Next(s: Nodes, a: Action): Option<Nodes> {
    var me, peer := s.me, s.peer;
    match a
    case OpenStream(id, metadata) =>
      if Unused(me, id) && Unused(peer, id) && |metadata| < 0x1_0000 then
        Some(Nodes(me.(end := OpenRequest(me.end, id, metadata)),
                   peer.(end := peer.end.(tasks := peer.end.tasks - {id}))))
      else None
    case StreamStep(id, step) =>
      (match TaskStep(me.end, id, step)
       case None => None
       case Some(e) => Some(s.(me := me.(end := e))))
    case TransmitFrame =>
      if me.end.queue == [] then None
      else Some(s.(me := Node(me.end.(queue := me.end.queue[1..]),
                              me.wire + [me.end.queue[0]])))
    case DeliverFrame =>
      if me.wire == [] then None
      else (match Dispatch(peer.end, me.wire[0], HEALTHY)
            case Fatal(_, _) => None
            case Continue(e) => Some(Nodes(me.(wire := me.wire[1..]), peer.(end := e))))
    case SendPing(body) =>
      if |body| >= 0x1_0000 then None else
      Some(s.(me := me.(end := Enqueue(me.end, NewFrame(0, CMD_PING, body)))))
  }

  // ----- one stream's view

  const FRESH := Task(Link.Fresh, START, None, Link.Idle, [], [], false, [])

  function TaskOf(e: Endpoint, id: StreamId): Task {
    if id in e.tasks then e.tasks[id] else FRESH
  }

  function EntryOf(e: Endpoint, id: StreamId): Table.Entry {
    if id in e.table then e.table[id]
    else Table.Entry([], if id in e.tasks then 0 else INIT_WINDOW)
  }

  function HalfOf(n: Node, id: StreamId): Link.Half {
    var t, en := TaskOf(n.end, id), EntryOf(n.end, id);
    Link.Half(t.phase, Project(en.inbox, id), en.permits, t.window, t.inbound, t.outbound,
              Project(n.end.queue, id), Project(n.wire, id), t.sent, t.delivered, t.finished,
              t.metadata)
  }

  function PairOf(s: Nodes, id: StreamId): Link.Pair {
    Link.Pair(HalfOf(s.me, id), HalfOf(s.peer, id))
  }

  /** Frames an honest endpoint writes. */
  predicate Honest(f: Frame) {
    && WellFormed(f)
    && (ToMsg(f).Some? || f.header.command in {CMD_PING, CMD_PONG})
  }

  predicate Buffered(f: Frame, id: StreamId) {
    f.header.streamId == id && (f.header.command == CMD_PSH || f.header.command == CMD_FIN)
  }

  ghost predicate TableOk(e: Endpoint) {
    && (forall id :: id in e.table <==> Running(e, id))
    && (forall id :: id in e.tasks ==>
          && !e.tasks[id].phase.Fresh?
          && (e.tasks[id].outbound.Idle? || |e.tasks[id].outbound.body| <= Link.MAX_BODY))
    && (forall id, i :: id in e.table && 0 <= i < |e.table[id].inbox| ==>
          Buffered(e.table[id].inbox[i], id))
  }

  ghost predicate Coherent(n: Node) {
    && TableOk(n.end)
    && (forall i :: 0 <= i < |n.end.queue| ==> Honest(n.end.queue[i]))
    && (forall i :: 0 <= i < |n.wire| ==> Honest(n.wire[i]))
  }

  // ----- projection of lists

  lemma {:induction false} ProjectSnoc(fs: seq<Frame>, f: Frame, id: StreamId)
    ensures Project(fs + [f], id) ==
            Project(fs, id) + if Concerns(f, id) then [ToMsg(f).value] else []
  {
    hide ToMsg;
    if fs == [] {
      assert fs + [f] == [f] && [f][1..] == [];
    } else {
      assert (fs + [f])[1..] == fs[1..] + [f];
      ProjectSnoc(fs[1..], f, id);
    }
  }

  lemma ProjectEmpty(id: StreamId)
    ensures Project([], id) == []
  {
  }

  lemma {:induction false} ProjectBuffered(fs: seq<Frame>, id: StreamId)
    requires forall i :: 0 <= i < |fs| ==> Buffered(fs[i], id)
    ensures |Project(fs, id)| == |fs|
    ensures fs != [] ==> ToMsg(fs[0]) == Some(Project(fs, id)[0])
    ensures fs != [] ==> Project(fs, id)[1..] == Project(fs[1..], id)
  {
    if fs != [] {
      assert Buffered(fs[0], id);
      assert forall i :: 0 <= i < |fs| - 1 ==> fs[1..][i] == fs[i + 1];
      ProjectBuffered(fs[1..], id);
    }
  }

  // ----- a task's own steps

  /** What a step of stream `id` at this node does to the views of all streams. */
  ghost predicate Refines(n: Node, id: StreamId, step: Link.Step, r: Option<Endpoint>) {
    match r
    case None => Link.Act(HalfOf(n, id), step).None?
    case Some(e) =>
      var n' := n.(end := e);
      && Link.Act(HalfOf(n, id), step) == Some(HalfOf(n', id))
      && Coherent(n')
      && forall other :: other != id ==> HalfOf(n', other) == HalfOf(n, other)
  }

  lemma TakeRefines(n: Node, id: StreamId, body: seq<byte>)
    requires Coherent(n)
    ensures Refines(n, id, Link.Take(body), TakeBody(n.end, id, body))
  {
    hide Project, ToMsg;
  }

  lemma AcquireRefines(n: Node, id: StreamId)
    requires Coherent(n)
    ensures Refines(n, id, Link.Acquire, AcquirePermit(n.end, id))
  {
    hide Project, ToMsg;
  }

  lemma PushRefines(n: Node, id: StreamId)
    requires Coherent(n)
    ensures Refines(n, id, Link.Push, PushBody(n.end, id))
  {
    hide Project;
    if PushBody(n.end, id).Some? {
      var f := NewFrame(id, CMD_PSH, n.end.tasks[id].outbound.body);
      forall any {
        ProjectSnoc(n.end.queue, f, any);
      }
    }
  }

  lemma StopRefines(n: Node, id: StreamId)
    requires Coherent(n)
    ensures Refines(n, id, Link.End, StopTask(n.end, id, false))
  {
    hide Project, ToMsg;
    ProjectEmpty(id);
  }

  lemma DequeueFinRefines(n: Node, id: StreamId)
    requires Coherent(n) && Running(n.end, id) && n.end.tasks[id].inbound.None?
    requires n.end.table[id].inbox != [] && n.end.table[id].inbox[0].header.command == CMD_FIN
    ensures Refines(n, id, Link.Dequeue, DequeueFrame(n.end, id))
  {
    hide Project;
    ProjectEmpty(id);
    ProjectBuffered(n.end.table[id].inbox, id);
    assert HalfOf(n, id).inbox[0] == Link.Fin;
  }

  lemma DequeueRefines(n: Node, id: StreamId)
    requires Coherent(n)
    ensures Refines(n, id, Link.Dequeue, DequeueFrame(n.end, id))
  {
    hide Project;
    ProjectEmpty(id);
    if id in n.end.table {
      var inbox := n.end.table[id].inbox;
      ProjectBuffered(inbox, id);
      if inbox != [] && n.end.tasks[id].inbound.None? && inbox[0].header.command == CMD_FIN {
        DequeueFinRefines(n, id);
      }
    }
  }

  lemma WriteRefines(n: Node, id: StreamId, k: nat)
    requires Coherent(n)
    ensures Refines(n, id, Link.Write(k), WriteChunk(n.end, id, k))
  {
    hide Project, ToMsg;
  }

  lemma SettleRefines(n: Node, id: StreamId, raw: nat)
    requires Coherent(n) && Sane(TaskOf(n.end, id).window)
    ensures Refines(n, id, Link.Settle(raw), SettleFrame(n.end, id, raw))
  {
    hide Project, LittleEndian, FromLittleEndian;
    if SettleFrame(n.end, id, raw).Some? {
      SettleKeepsSane(n.end.tasks[id].window, raw);
      var more := Settle(n.end.tasks[id].window, raw).more;
      if more.Some? {
        var f := MoreFrame(id, more.value);
        PowerValues();
        LittleEndianRoundTrip(more.value, 2);
        assert ToMsg(f) == Some(Link.More(more.value));
        hide Settle;
        forall any {
          ProjectSnoc(n.end.queue, f, any);
        }
      } else {
        assert n.end.queue + [] == n.end.queue;
        assert HalfOf(n, id).queue + [] == HalfOf(n, id).queue;
      }
    }
  }

  lemma AnnounceRefines(n: Node, id: StreamId)
    requires Coherent(n)
    ensures Refines(n, id, Link.Announce, AnnounceFin(n.end, id))
  {
    hide Project;
    var f := NewFrame(id, CMD_FIN, []);
    forall any {
      ProjectSnoc(n.end.queue, f, any);
    }
  }

  lemma TaskStepRefines(n: Node, id: StreamId, step: Link.Step)
    requires Coherent(n) && Sane(TaskOf(n.end, id).window) && !step.Transmit?
    ensures Refines(n, id, step, TaskStep(n.end, id, step))
  {
    hide Refines, Coherent;
    match step
    case Take(body) => TakeRefines(n, id, body);
    case Acquire => AcquireRefines(n, id);
    case Push => PushRefines(n, id);
    case Dequeue => DequeueRefines(n, id);
    case Write(k) => WriteRefines(n, id, k);
    case Settle(raw) => SettleRefines(n, id, raw);
    case End => StopRefines(n, id);
    case Announce => AnnounceRefines(n, id);
    case _ => OtherRefines(n, id, step);
  }

  lemma OtherRefines(n: Node, id: StreamId, step: Link.Step)
    requires step.Open? || step.Deliver?
    ensures Refines(n, id, step, None)
  {
  }

  // ----- shared steps

  lemma TransmitRefines(n: Node, id: StreamId)
    requires Coherent(n) && n.end.queue != []
    ensures var f := n.end.queue[0];
            var n' := Node(n.end.(queue := n.end.queue[1..]), n.wire + [f]);
            && Coherent(n')
            && (if Concerns(f, id)
                then Link.Act(HalfOf(n, id), Link.Transmit) == Some(HalfOf(n', id))
                else HalfOf(n', id) == HalfOf(n, id))
  {
    hide TableOk;
    QueueKeepsTableOk(n.end, n.end.queue[1..]);
    ProjectSnoc(n.wire, n.end.queue[0], id);
  }

  /** What dispatching one honest frame does to the view of stream `id`. */
  ghost predicate Dispatches(n: Node, f: Frame, id: StreamId) {
    match Dispatch(n.end, f, HEALTHY)
    case Fatal(_, _) =>
      && Concerns(f, f.header.streamId)
      && Link.Receive(HalfOf(n, f.header.streamId), ToMsg(f).value).None?
    case Continue(e) =>
      var n' := n.(end := e);
      if Concerns(f, id)
      then Link.Receive(HalfOf(n, id), ToMsg(f).value) == Some(HalfOf(n', id))
      else HalfOf(n', id) == HalfOf(n, id)
  }

  lemma DispatchDataRefines(n: Node, f: Frame, id: StreamId)
    requires Coherent(n) && (f.header.command == CMD_PSH || f.header.command == CMD_FIN)
    ensures Dispatches(n, f, id)
  {
    hide Project, FromLittleEndian;
    if id in n.end.table {
      ProjectBuffered(n.end.table[id].inbox, id);
      ProjectSnoc(n.end.table[id].inbox, f, id);
    }
  }

  lemma DispatchControlRefines(n: Node, f: Frame, id: StreamId)
    requires Coherent(n) && Honest(f) && f.header.command != CMD_PSH && f.header.command != CMD_FIN
    ensures Dispatches(n, f, id)
  {
    hide Project, FromLittleEndian;
    ProjectEmpty(id);
    ProjectSnoc(n.end.queue, NewFrame(0, CMD_PONG, []), id);
  }

  lemma DispatchRefines(n: Node, f: Frame, id: StreamId)
    requires Coherent(n) && Honest(f)
    ensures Dispatches(n, f, id)
  {
    hide Dispatches, Coherent;
    if f.header.command == CMD_PSH || f.header.command == CMD_FIN {
      DispatchDataRefines(n, f, id);
    } else {
      DispatchControlRefines(n, f, id);
    }
  }

  lemma SendToKeepsTableOk(e: Endpoint, id: StreamId, f: Frame)
    requires TableOk(e) && Buffered(f, id)
    ensures TableOk(e.(table := Table.SendTo(e.table, id, f)))
  {
  }

  lemma ReleaseKeepsTableOk(e: Endpoint, id: StreamId, amount: nat)
    requires TableOk(e)
    ensures TableOk(e.(table := Table.Release(e.table, id, amount)))
  {
  }

  lemma DispatchKeepsCoherent(n: Node, f: Frame)
    requires Coherent(n) && Honest(f) && Dispatch(n.end, f, HEALTHY).Continue?
    ensures Coherent(n.(end := Dispatch(n.end, f, HEALTHY).end))
  {
    hide TableOk, Table.SendTo, Table.Release, FromLittleEndian;
    var e, id, cmd := n.end, f.header.streamId, f.header.command;
    if cmd == CMD_SYN {
      CreateKeepsTableOk(e, id, f.body);
    } else if cmd == CMD_MORE {
      ReleaseKeepsTableOk(e, id, FromLittleEndian(f.body));
    } else if cmd == CMD_PSH || cmd == CMD_FIN {
      SendToKeepsTableOk(e, id, f);
    } else if cmd == CMD_PING {
      QueueKeepsTableOk(e, e.queue + [NewFrame(0, CMD_PONG, [])]);
    } else if cmd == CMD_PONG {
      PongKeepsTableOk(e);
    }
  }

  lemma CreateKeepsTableOk(e: Endpoint, id: StreamId, metadata: seq<byte>)
    requires TableOk(e)
    ensures TableOk(CreateStream(e, id, metadata))
  {
  }

  lemma ForgetKeepsTableOk(e: Endpoint, id: StreamId)
    requires TableOk(e) && id !in e.table
    ensures TableOk(e.(tasks := e.tasks - {id}))
  {
  }

  lemma QueueKeepsTableOk(e: Endpoint, q: seq<Frame>)
    requires TableOk(e)
    ensures TableOk(e.(queue := q))
  {
  }

  lemma PongKeepsTableOk(e: Endpoint)
    requires TableOk(e)
    ensures TableOk(e.(pongs := e.pongs + 1))
  {
  }

  lemma OpenKeepsCoherent(s: Nodes, id: StreamId, metadata: seq<byte>)
    requires Coherent(s.me) && Coherent(s.peer) && Next(s, OpenStream(id, metadata)).Some?
    ensures var s' := Next(s, OpenStream(id, metadata)).value;
            Coherent(s'.me) && Coherent(s'.peer)
  {
    hide TableOk, Project;
    var e := Enqueue(s.me.end, NewFrame(id, CMD_SYN, metadata));
    QueueKeepsTableOk(s.me.end, e.queue);
    CreateKeepsTableOk(e, id, metadata);
    ForgetKeepsTableOk(s.peer.end, id);
  }

  lemma OpenRefines(s: Nodes, id: StreamId, metadata: seq<byte>, any: StreamId)
    requires Next(s, OpenStream(id, metadata)).Some?
    ensures var s' := Next(s, OpenStream(id, metadata)).value;
            if any == id
            then Link.Next(PairOf(s, id), Link.Open(metadata)) == Some(PairOf(s', id))
            else PairOf(s', any) == PairOf(s, any)
  {
    hide Project;
    var s' := Next(s, OpenStream(id, metadata)).value;
    ProjectSnoc(s.me.end.queue, NewFrame(id, CMD_SYN, metadata), any);
    ProjectEmpty(id);
    if any == id {
      assert [] + [Link.Syn(metadata)] == [Link.Syn(metadata)];
      assert HalfOf(s'.me, id) == Link.Opener(metadata);
      assert HalfOf(s'.peer, id) == Link.NEW;
    }
  }

  // ----- every step of the system

  ghost predicate Inv(s: Nodes) {
    && Coherent(s.me) && Coherent(s.peer)
    && forall id :: Link.Inv(PairOf(s, id))
  }

  /** The step that an action is for stream `id`, if it concerns that stream at all. */
  function StepFor(s: Nodes, a: Action, id: StreamId): Option<Link.Step> {
    match a
    case OpenStream(i, metadata) => if i == id then Some(Link.Open(metadata)) else None
    case StreamStep(i, step) => if i == id then Some(step) else None
    case TransmitFrame =>
      if s.me.end.queue != [] && Concerns(s.me.end.queue[0], id) then Some(Link.Transmit) else None
    case DeliverFrame =>
      if s.me.wire != [] && Concerns(s.me.wire[0], id) then Some(Link.Deliver) else None
    case SendPing(_) => None
  }

  ghost predicate Matches(s: Nodes, a: Action, s': Nodes, id: StreamId) {
    match StepFor(s, a, id)
    case None => PairOf(s', id) == PairOf(s, id)
    case Some(step) => Link.Next(PairOf(s, id), step) == Some(PairOf(s', id))
  }

  lemma SaneWindows(s: Nodes, id: StreamId)
    requires Inv(s)
    ensures Sane(TaskOf(s.me.end, id).window)
  {
    assert Link.Inv(PairOf(s, id));
  }

  lemma TaskMatches(s: Nodes, a: Action, id: StreamId)
    requires Inv(s) && a.StreamStep? && Next(s, a).Some?
    ensures Matches(s, a, Next(s, a).value, id) && Coherent(Next(s, a).value.me)
  {
    hide Link.Act, TaskStep, Coherent, HalfOf;
    SaneWindows(s, a.id);
    assert !a.step.Transmit? by { TransmitIsNotATask(s.me.end, a.id); }
    TaskStepRefines(s.me, a.id, a.step);
    assert !a.step.Open? && !a.step.Deliver? by { OtherStepsAreNotTasks(s.me.end, a.id); }
  }

  lemma TransmitIsNotATask(e: Endpoint, id: StreamId)
    ensures TaskStep(e, id, Link.Transmit).None?
  {
  }

  lemma OtherStepsAreNotTasks(e: Endpoint, id: StreamId)
    ensures forall metadata :: TaskStep(e, id, Link.Open(metadata)).None?
    ensures TaskStep(e, id, Link.Deliver).None?
  {
  }

  lemma DeliverMatches(s: Nodes, id: StreamId)
    requires Inv(s) && Next(s, DeliverFrame).Some?
    ensures Matches(s, DeliverFrame, Next(s, DeliverFrame).value, id)
  {
    hide Link.Receive, Dispatch, TableOk, Link.Inv;
    DispatchRefines(s.peer, s.me.wire[0], id);
  }

  lemma DeliverKeepsCoherent(s: Nodes)
    requires Coherent(s.me) && Coherent(s.peer) && Next(s, DeliverFrame).Some?
    ensures var s' := Next(s, DeliverFrame).value; Coherent(s'.me) && Coherent(s'.peer)
  {
    hide Dispatch, TableOk;
    DispatchKeepsCoherent(s.peer, s.me.wire[0]);
  }

  lemma TransmitMatches(s: Nodes, id: StreamId)
    requires Inv(s) && Next(s, TransmitFrame).Some?
    ensures Matches(s, TransmitFrame, Next(s, TransmitFrame).value, id)
    ensures Coherent(Next(s, TransmitFrame).value.me)
  {
    hide HalfOf, Coherent, Link.Inv, Link.Act, Concerns;
    TransmitRefines(s.me, id);
  }

  lemma OpenMatches(s: Nodes, i: StreamId, metadata: seq<byte>, id: StreamId)
    requires Next(s, OpenStream(i, metadata)).Some?
    ensures Matches(s, OpenStream(i, metadata), Next(s, OpenStream(i, metadata)).value, id)
  {
    hide Link.Next, HalfOf, Next;
    OpenRefines(s, i, metadata, id);
  }

  lemma PingMatches(s: Nodes, body: seq<byte>, id: StreamId)
    requires Coherent(s.me) && |body| < 0x1_0000
    ensures Matches(s, SendPing(body), Next(s, SendPing(body)).value, id)
    ensures Coherent(Next(s, SendPing(body)).value.me)
  {
    hide Project;
    ProjectSnoc(s.me.end.queue, NewFrame(0, CMD_PING, body), id);
  }

  /** Every action is, for every stream, one step of its link or nothing. */
  lemma ActionMatches(s: Nodes, a: Action, id: StreamId)
    requires Inv(s) && Next(s, a).Some?
    ensures Matches(s, a, Next(s, a).value, id)
    ensures Coherent(Next(s, a).value.me) && Coherent(Next(s, a).value.peer)
  {
    hide Matches, Coherent, TaskStep, Dispatch, PairOf, OpenRequest;
    match a
    case OpenStream(i, metadata) =>
      OpenMatches(s, i, metadata, id);
      OpenKeepsCoherent(s, i, metadata);
    case StreamStep(i, step) => TaskMatches(s, a, id);
    case TransmitFrame => TransmitMatches(s, id);
    case DeliverFrame =>
      DeliverMatches(s, id);
      DeliverKeepsCoherent(s);
    case SendPing(body) => PingMatches(s, body, id);
  }

  lemma ActionKeepsInv(s: Nodes, a: Action)
    requires Inv(s) && Next(s, a).Some?
    ensures Inv(Next(s, a).value)
  {
    hide Link.Inv, Link.Next, Next, Coherent, PairOf;
    var s' := Next(s, a).value;
    ActionMatches(s, a, 0);
    forall id ensures Link.Inv(PairOf(s', id)) {
      ActionMatches(s, a, id);
      assert Link.Inv(PairOf(s, id));
      if StepFor(s, a, id).Some? {
        Link.StepKeepsInv(PairOf(s, id), StepFor(s, a, id).value);
      }
    }
  }

  // ----- whole runs

  datatype SideAction = Left(action: Action) | Right(action: Action)

  function Swap(s: Nodes): Nodes {
    Nodes(s.peer, s.me)
  }

  /** In a run the nodes are (left endpoint, right endpoint). */
  function Perform(s: Nodes, a: SideAction): Option<Nodes> {
    match a
    case Left(x) => Next(s, x)
    case Right(x) => (match Next(Swap(s), x) case None => None case Some(s') => Some(Swap(s')))
  }

  function Run(s: Nodes, acts: seq<SideAction>): Option<Nodes>
    decreases |acts|
  {
    if acts == [] then Some(s)
    else match Perform(s, acts[0])
      case None => None
      case Some(s') => Run(s', acts[1..])
  }

  /** The steps of stream `id` within one action of the system. */
  function TraceOne(s: Nodes, a: SideAction, id: StreamId): seq<Link.Action> {
    match a
    case Left(x) =>
      (match StepFor(s, x, id) case None => [] case Some(step) => [Link.Left(step)])
    case Right(x) =>
      (match StepFor(Swap(s), x, id) case None => [] case Some(step) => [Link.Right(step)])
  }

  function Trace(s: Nodes, acts: seq<SideAction>, id: StreamId): seq<Link.Action>
    decreases |acts|
  {
    if acts == [] || Perform(s, acts[0]).None? then []
    else TraceOne(s, acts[0], id) + Trace(Perform(s, acts[0]).value, acts[1..], id)
  }

  const IDLE := Node(EMPTY, [])
  const START_NODES := Nodes(IDLE, IDLE)

  lemma StartOk()
    ensures Inv(START_NODES)
  {
    forall id ensures Link.Inv(PairOf(START_NODES, id)) {
      ProjectEmpty(id);
      assert HalfOf(IDLE, id) == Link.NEW;
      Link.NewPairOk();
    }
  }

  lemma SwapKeepsInv(s: Nodes)
    requires Inv(s)
    ensures Inv(Swap(s))
  {
    hide Link.Flow, HalfOf, Coherent;
    forall id ensures Link.Inv(PairOf(Swap(s), id)) {
      assert Link.Inv(PairOf(s, id));
    }
  }

  lemma PerformKeepsInv(s: Nodes, a: SideAction)
    requires Inv(s) && Perform(s, a).Some?
    ensures Inv(Perform(s, a).value)
  {
    hide Inv, Next;
    match a
    case Left(x) => ActionKeepsInv(s, x);
    case Right(x) =>
      SwapKeepsInv(s);
      ActionKeepsInv(Swap(s), x);
      SwapKeepsInv(Next(Swap(s), x).value);
  }

  lemma {:induction false} RunKeepsInv(s: Nodes, acts: seq<SideAction>)
    requires Inv(s) && Run(s, acts).Some?
    ensures Inv(Run(s, acts).value)
    decreases |acts|
  {
    hide Inv, Perform;
    if acts != [] {
      PerformKeepsInv(s, acts[0]);
      RunKeepsInv(Perform(s, acts[0]).value, acts[1..]);
    }
  }

  lemma PerformMatches(s: Nodes, a: SideAction, id: StreamId)
    requires Inv(s) && Perform(s, a).Some?
    ensures Link.Run(PairOf(s, id), TraceOne(s, a, id)) == Some(PairOf(Perform(s, a).value, id))
  {
    hide Inv, Next, Link.Next, HalfOf, StepFor;
    var t := TraceOne(s, a, id);
    match a {
      case Left(x) => ActionMatches(s, x, id);
      case Right(x) =>
        SwapKeepsInv(s);
        ActionMatches(Swap(s), x, id);
    }
    if t != [] {
      assert t[1..] == [];
      assert Link.Perform(PairOf(s, id), t[0]) == Some(PairOf(Perform(s, a).value, id));
    }
  }

  lemma {:induction false} LinkRunAppend(p: Link.Pair, a: seq<Link.Action>, b: seq<Link.Action>)
    requires Link.Run(p, a).Some?
    ensures Link.Run(p, a + b) == Link.Run(Link.Run(p, a).value, b)
    decreases |a|
  {
    hide Link.Perform;
    if a == [] {
      assert a + b == b;
    } else {
      assert (a + b)[1..] == a[1..] + b;
      LinkRunAppend(Link.Perform(p, a[0]).value, a[1..], b);
    }
  }

  /**
   Refinement: whatever all the other streams do, the state of stream `id` after a run is the
   state its own link reaches by the stream's own steps.
   */
  lemma {:induction false} StreamRunsItsLink(s: Nodes, acts: seq<SideAction>, id: StreamId)
    requires Inv(s) && Run(s, acts).Some?
    ensures Link.Run(PairOf(s, id), Trace(s, acts, id)) == Some(PairOf(Run(s, acts).value, id))
    decreases |acts|
  {
    hide Inv, Perform, PairOf, TraceOne;
    if acts != [] {
      var s' := Perform(s, acts[0]).value;
      PerformKeepsInv(s, acts[0]);
      PerformMatches(s, acts[0], id);
      StreamRunsItsLink(s', acts[1..], id);
      LinkRunAppend(PairOf(s, id), TraceOne(s, acts[0], id), Trace(s', acts[1..], id));
    }
  }

  /** Two runs in which stream `id` takes the same steps leave it in the same state. */
  lemma OtherTrafficIsInvisible(a: seq<SideAction>, b: seq<SideAction>, id: StreamId)
    requires Run(START_NODES, a).Some? && Run(START_NODES, b).Some?
    requires Trace(START_NODES, a, id) == Trace(START_NODES, b, id)
    ensures PairOf(Run(START_NODES, a).value, id) == PairOf(Run(START_NODES, b).value, id)
  {
    hide Inv, PairOf;
    StartOk();
    StreamRunsItsLink(START_NODES, a, id);
    StreamRunsItsLink(START_NODES, b, id);
  }

  // ----- the theorems about every reachable state

  ghost predicate Reachable(s: Nodes) {
    exists acts :: Run(START_NODES, acts) == Some(s)
  }

  lemma ReachableInv(s: Nodes)
    requires Reachable(s)
    ensures Inv(s) && Inv(Swap(s))
  {
    hide Inv;
    var acts :| Run(START_NODES, acts) == Some(s);
    StartOk();
    RunKeepsInv(START_NODES, acts);
    SwapKeepsInv(s);
  }

  function Mirror(acts: seq<SideAction>): seq<SideAction> {
    if acts == [] then []
    else [if acts[0].Left? then Right(acts[0].action) else Left(acts[0].action)]
         + Mirror(acts[1..])
  }

  lemma {:induction false} MirroredRun(s: Nodes, acts: seq<SideAction>)
    requires Run(s, acts).Some?
    ensures Run(Swap(s), Mirror(acts)) == Some(Swap(Run(s, acts).value))
    decreases |acts|
  {
    hide Next;
    if acts != [] {
      assert Perform(Swap(s), Mirror(acts)[0]) == Some(Swap(Perform(s, acts[0]).value));
      MirroredRun(Perform(s, acts[0]).value, acts[1..]);
      assert Mirror(acts)[1..] == Mirror(acts[1..]);
    }
  }

  /** The two sides play the same role, so every theorem also holds from right to left. */
  lemma ReachableIsSymmetric(s: Nodes)
    requires Reachable(s)
    ensures Reachable(Swap(s))
  {
    var acts :| Run(START_NODES, acts) == Some(s);
    MirroredRun(START_NODES, acts);
  }

  /**
   Between honest endpoints dispatch is fatal exactly when a SYN arrives at an application that
   has dropped its accept queue; otherwise no frame is ever refused.
   */
  lemma DeliveryNeverFails(s: Nodes, accepting: bool)
    requires Reachable(s)
    ensures s.me.wire != [] ==> Next(s, DeliverFrame).Some?
    ensures s.me.wire != [] ==>
              (Dispatch(s.peer.end, s.me.wire[0], Local(true, accepting)).Fatal? <==>
               s.me.wire[0].header.command == CMD_SYN && !accepting)
  {
    FrameAccepted(s);
    if s.me.wire != [] {
      DispatchUnlessClosed(s.peer.end, s.me.wire[0], accepting);
    }
  }

  lemma DispatchUnlessClosed(e: Endpoint, f: Frame, accepting: bool)
    requires Dispatch(e, f, HEALTHY).Continue?
    ensures Dispatch(e, f, Local(true, accepting)).Fatal? <==> f.header.command == CMD_SYN && !accepting
  {
  }

  lemma FrameAccepted(s: Nodes)
    requires Reachable(s)
    ensures s.me.wire != [] ==> Next(s, DeliverFrame).Some?
    ensures s.me.wire != [] ==> Dispatch(s.peer.end, s.me.wire[0], HEALTHY).Continue?
  {
    ReachableInv(s);
    if s.me.wire != [] {
      var f := s.me.wire[0];
      var id := f.header.streamId;
      DispatchRefines(s.peer, f, id);
      hide Link.Receive, Dispatch, TableOk, Link.Flow, Link.HalfOk;
      if Dispatch(s.peer.end, f, HEALTHY).Fatal? {
        assert Link.Inv(PairOf(s, id));
        Link.DeliveryAccepted(PairOf(s, id));
        assert false;
      }
    }
  }

  /**
   The frames between two endpoints survive the byte pipe: from any part of their encoding
   that has arrived the reader recovers a prefix of them, and all of them in the end.
   */
  lemma PipeCarriesFrames(s: Nodes, arrived: nat)
    requires Reachable(s) && arrived <= |EncodeAll(s.me.wire + s.me.end.queue)|
    ensures var fs := s.me.wire + s.me.end.queue;
            && ReadAll(EncodeAll(fs)[..arrived]).0 <= fs
            && (arrived == |EncodeAll(fs)| ==> ReadAll(EncodeAll(fs)[..arrived]) == (fs, []))
  {
    ReachableInv(s);
    WireIsFrameQueue(s.me.wire + s.me.end.queue, arrived);
  }

  /** Per-stream transparency, from left to right; the other direction is the swapped state. */
  lemma BytesArriveInOrder(s: Nodes, id: StreamId)
    requires Reachable(s) && id in s.me.end.tasks && id in s.peer.end.tasks
    ensures s.peer.end.tasks[id].delivered <= s.me.end.tasks[id].sent
    ensures s.peer.end.tasks[id].finished ==>
              s.peer.end.tasks[id].delivered == s.me.end.tasks[id].sent
  {
    ReachableInv(s);
    assert Link.Inv(PairOf(s, id));
  }

  /** Everything of stream `id` between the two applications, oldest first. */
  function InTransit(s: Nodes, id: StreamId): seq<Link.Msg> {
    Project(EntryOf(s.peer.end, id).inbox, id) + (Project(s.me.wire, id) + Project(s.me.end.queue, id))
  }

  function GrantsInTransit(s: Nodes, id: StreamId): seq<Link.Msg> {
    Project(s.peer.wire, id) + Project(s.peer.end.queue, id)
  }

  /** Credit conservation while both ends of a stream are live. */
  lemma CreditIsConserved(s: Nodes, id: StreamId)
    requires Reachable(s) && Running(s.me.end, id) && Running(s.peer.end, id)
    ensures id in s.me.end.table
    ensures var mine, theirs := s.me.end.tasks[id], s.peer.end.tasks[id];
            s.me.end.table[id].permits
            + (if mine.outbound.Holding? then 1 else 0)
            + Link.Count(InTransit(s, id))
            + (if theirs.inbound.Some? then 1 else 0)
            + Link.Grant(GrantsInTransit(s, id))
            == theirs.window.remote <= MAX_WINDOW
  {
    ReachableInv(s);
    assert Link.Inv(PairOf(s, id));
  }

  /** When nothing of the stream is on the way, its sender holds at least eight permits. */
  lemma SenderIsNeverStarved(s: Nodes, id: StreamId)
    requires Reachable(s) && Running(s.me.end, id) && Running(s.peer.end, id)
    requires Link.Count(InTransit(s, id)) == 0 && Link.Grant(GrantsInTransit(s, id)) == 0
    requires !s.me.end.tasks[id].outbound.Holding? && s.peer.end.tasks[id].inbound.None?
    ensures id in s.me.end.table && s.me.end.table[id].permits >= 8
  {
    CreditIsConserved(s, id);
    ReachableInv(s);
    SaneWindows(Swap(s), id);
  }

  /** The guard that drops frames for an over-full buffer is never taken. */
  lemma BuffersNeverOverflow(s: Nodes, id: StreamId)
    requires Reachable(s) && id in s.peer.end.table
    ensures |s.peer.end.table[id].inbox| <= MAX_WINDOW + 1
  {
    ReachableInv(s);
    assert Link.Inv(PairOf(s, id));
    Link.InboxBounded(PairOf(s, id));
    ProjectBuffered(s.peer.end.table[id].inbox, id);
  }
}
