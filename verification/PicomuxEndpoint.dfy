/**
 One picomux endpoint: the buffer table, the tasks of its streams and the outgoing queue.
 Each function is the effect of one piece of code that runs between two awaits; the class at
 the end performs the same updates in place on the shared objects.
 */
module PicomuxEndpoint {
  import opened Common
  import opened PicomuxFrame
  import opened PicomuxWindow
  import Table = PicomuxTable
  import Link = PicomuxLink

  /** The spawned task of one stream, with the history of what went through it. */
  datatype Task = Task(
    phase: Link.Phase,
    window: Window,
    inbound: Option<seq<byte>>,
    outbound: Link.Outbound,
    sent: seq<byte>,
    delivered: seq<byte>,
    finished: bool,
    metadata: seq<byte>)

  /** A task that has just been spawned, for a stream opened with the given metadata. */
  function NewTask(metadata: seq<byte>): Task {
    Task(Link.Live, START, None, Link.Idle, [], [], false, metadata)
  }

  datatype Endpoint = Endpoint(
    table: Table.Table,
    tasks: map<StreamId, Task>,
    queue: seq<Frame>,
    pongs: nat)                 // PONGs handed to the ping loop

  const EMPTY := Endpoint(map[], map[], [], 0)

  function Enqueue(e: Endpoint, f: Frame): Endpoint {
    e.(queue := e.queue + [f])
  }

  predicate Running(e: Endpoint, id: StreamId) {
    id in e.tasks && e.tasks[id].phase.Live?
  }

  // ----- streams

  /** `create_stream`. */
  function CreateStream(e: Endpoint, id: StreamId, metadata: seq<byte>): Endpoint {
    e.(table := Table.Create(e.table, id), tasks := e.tasks[id := NewTask(metadata)])
  }

  /** `open_req_loop`: the SYN is queued and the entry created without an await in between. */
  function OpenRequest(e: Endpoint, id: StreamId, metadata: seq<byte>): Endpoint {
    CreateStream(Enqueue(e, NewFrame(id, CMD_SYN, metadata)), id, metadata)
  }

  /** `incoming_task` has read a body of at most 8192 bytes from the application. */
  function TakeBody(e: Endpoint, id: StreamId, body: seq<byte>): Option<Endpoint> {
    if Running(e, id) && e.tasks[id].outbound.Idle? && 1 <= |body| <= Link.MAX_BODY
    then Some(e.(tasks := e.tasks[id := e.tasks[id].(outbound := Link.Waiting(body))]))
    else None
  }

  function AcquirePermit(e: Endpoint, id: StreamId): Option<Endpoint> {
    if Running(e, id) && e.tasks[id].outbound.Waiting? then
      match Table.Acquire(e.table, id)
      case None => None
      case Some(table') =>
        var t := e.tasks[id];
        Some(e.(table := table',
                tasks := e.tasks[id := t.(outbound := Link.Holding(t.outbound.body))]))
    else None
  }

  function PushBody(e: Endpoint, id: StreamId): Option<Endpoint> {
    if Running(e, id) && e.tasks[id].outbound.Holding? then
      var t := e.tasks[id];
      Some(Enqueue(e, NewFrame(id, CMD_PSH, t.outbound.body))
           .(tasks := e.tasks[id := t.(outbound := Link.Idle, sent := t.sent + t.outbound.body)]))
    else None
  }

  /** The stream's task stops: its receiver is dropped, which removes the entry. */
  function StopTask(e: Endpoint, id: StreamId, finished: bool): Option<Endpoint> {
    if Running(e, id) then
      var t := e.tasks[id];
      Some(e.(table := Table.Remove(e.table, id),
              tasks := e.tasks[id := t.(phase := Link.Ended, inbound := None,
                                        outbound := Link.Idle,
                                        finished := t.finished || finished)]))
    else None
  }

  function DequeueFrame(e: Endpoint, id: StreamId): Option<Endpoint> {
    if Running(e, id) && e.tasks[id].inbound.None? then
      match Table.Recv(e.table, id)
      case None => None
      case Some((f, table')) =>
        if f.header.command == CMD_FIN then StopTask(e, id, true)
        else Some(e.(table := table',
                     tasks := e.tasks[id := e.tasks[id].(inbound := Some(f.body))]))
    else None
  }

  /** `write_all` hands over a piece of the body whenever the application makes room. */
  function WriteChunk(e: Endpoint, id: StreamId, n: nat): Option<Endpoint> {
    if Running(e, id) && e.tasks[id].inbound.Some? && 1 <= n <= |e.tasks[id].inbound.value| then
      var t := e.tasks[id];
      Some(e.(tasks := e.tasks[id := t.(delivered := t.delivered + t.inbound.value[..n],
                                        inbound := Some(t.inbound.value[n..]))]))
    else None
  }

  function MoreFrame(id: StreamId, quantum: nat): Frame {
    NewFrame(id, CMD_MORE, LittleEndian(quantum, 2))
  }

  /** The frame is written: the window is updated and possibly refilled. */
  function SettleFrame(e: Endpoint, id: StreamId, raw: nat): Option<Endpoint> {
    if Running(e, id) && e.tasks[id].inbound == Some([]) && e.tasks[id].window.remote >= 1 then
      var r := Settle(e.tasks[id].window, raw);
      Some(e.(tasks := e.tasks[id := e.tasks[id].(inbound := None, window := r.window)],
              queue := e.queue + (if r.more.Some? then [MoreFrame(id, r.more.value)] else [])))
    else None
  }

  /** The deferred FIN. */
  function AnnounceFin(e: Endpoint, id: StreamId): Option<Endpoint> {
    if id in e.tasks && e.tasks[id].phase.Ended? then
      Some(Enqueue(e, NewFrame(id, CMD_FIN, []))
           .(tasks := e.tasks[id := e.tasks[id].(phase := Link.Closed)]))
    else None
  }

  /** The steps of a stream's own task. */
  function TaskStep(e: Endpoint, id: StreamId, s: Link.Step): Option<Endpoint> {
    match s
    case Take(body) => TakeBody(e, id, body)
    case Acquire => AcquirePermit(e, id)
    case Push => PushBody(e, id)
    case Dequeue => DequeueFrame(e, id)
    case Write(n) => WriteChunk(e, id, n)
    case Settle(raw) => SettleFrame(e, id, raw)
    case End => StopTask(e, id, false)
    case Announce => AnnounceFin(e, id)
    case _ => None
  }

  // ----- frames from the peer

  datatype DispatchError = DuplicateSyn | NotAccepting | CorruptMore | InvalidPing | InvalidCommand

  /** `Fatal` ends the connection; the endpoint is what the dispatch has left behind. */
  datatype Dispatched = Continue(end: Endpoint) | Fatal(error: DispatchError, end: Endpoint)

  /**
   What dispatch learns from outside: the verdict of the JSON parser on the body of a PING, and
   whether the application still holds its end of the accept queue.
   */
  datatype Local = Local(pingOk: bool, accepting: bool)

  const HEALTHY := Local(true, true)

  /**
   The frame dispatch of the read loop. A SYN that finds the accept queue full still creates the
   stream, whose task then ends because the application's half is dropped.
   */
  function Dispatch(e: Endpoint, f: Frame, local: Local): Dispatched {
    var id := f.header.streamId;
    var cmd := f.header.command;
    if cmd == CMD_SYN then
      if id in e.table then Fatal(DuplicateSyn, e)
      else if !local.accepting then Fatal(NotAccepting, CreateStream(e, id, f.body))
      else Continue(CreateStream(e, id, f.body))
    else if cmd == CMD_MORE then
      if |f.body| != 2 then Fatal(CorruptMore, e)
      else Continue(e.(table := Table.Release(e.table, id, FromLittleEndian(f.body))))
    else if cmd == CMD_PSH || cmd == CMD_FIN then
      Continue(e.(table := Table.SendTo(e.table, id, f)))
    else if cmd == CMD_NOP then
      Continue(e)
    else if cmd == CMD_PING then
      if local.pingOk then Continue(Enqueue(e, NewFrame(0, CMD_PONG, []))) else Fatal(InvalidPing, e)
    else if cmd == CMD_PONG then
      Continue(e.(pongs := e.pongs + 1))
    else
      Fatal(InvalidCommand, e)
  }

  /** A PING whose body parses is answered with one empty PONG on stream zero, and does nothing else. */
  lemma PingIsAnswered(e: Endpoint, f: Frame, accepting: bool)
    requires f.header.command == 0xa0
    ensures Dispatch(e, f, Local(true, accepting)) ==
            Continue(e.(queue := e.queue + [Frame(Header(1, 0xa1, 0, 0), [])]))
  {
  }

  /** Which frames end the connection, and why. */
  lemma FatalFrames(e: Endpoint, f: Frame, local: Local)
    ensures var d, cmd := Dispatch(e, f, local), f.header.command;
            && (cmd == 0 ==> (d.Fatal? <==> f.header.streamId in e.table || !local.accepting))
            && (cmd == 0 && d.Fatal? ==>
                  d.error == if f.header.streamId in e.table then DuplicateSyn else NotAccepting)
            && (cmd == 4 ==> (d.Fatal? <==> |f.body| != 2) && (d.Fatal? ==> d.error == CorruptMore))
            && (cmd == 0xa0 ==> (d.Fatal? <==> !local.pingOk) && (d.Fatal? ==> d.error == InvalidPing))
            && (cmd in {1, 2, 3, 0xa1} ==> d.Continue?)
            && (cmd !in {0, 1, 2, 3, 4, 0xa0, 0xa1} ==> d == Fatal(InvalidCommand, e))
  {
  }

  /** What the other frames do: data to the buffer, credit to the semaphore, PONGs to the ping loop. */
  lemma FrameEffects(e: Endpoint, f: Frame, local: Local)
    requires Dispatch(e, f, local).Continue?
    ensures var e', cmd, id := Dispatch(e, f, local).end, f.header.command, f.header.streamId;
            && (cmd == 0 ==> Running(e', id) && e'.table == e.table[id := Table.Entry([], 10)]
                             && e'.tasks[id].sent == [] && e'.tasks[id].delivered == []
                             && e'.tasks[id].metadata == f.body)
            && (cmd == 1 || cmd == 2 ==> id in e.table && |e.table[id].inbox| <= 3000 ==>
                  e' == e.(table := e.table[id := e.table[id].(inbox := e.table[id].inbox + [f])]))
            && (cmd == 3 ==> e' == e)
            && (cmd == 4 ==> id in e.table ==>
                  e' == e.(table := e.table[id :=
                    e.table[id].(permits := e.table[id].permits + f.body[0] as int + 256 * f.body[1] as int)]))
            && (cmd == 0xa1 ==> e' == e.(pongs := e.pongs + 1))
            && (cmd in {1, 2, 4} && id !in e.table ==> e' == e)
  {
    if f.header.command == CMD_MORE {
      assert f.body == [f.body[0], f.body[1]];
      LittleEndianValues(f.body[0], f.body[1], 0, 0);
    }
  }

  // ----- an arbitrary peer

  datatype Event =
    | FromPeer(frame: Frame, local: Local)
    | Opened(id: StreamId, metadata: seq<byte>)
    | Stepped(id: StreamId, step: Link.Step)

  /** The endpoint after an event; an event that is impossible leaves it as it is. */
  function React(e: Endpoint, ev: Event): Endpoint {
    match ev
    case FromPeer(f, local) => Dispatch(e, f, local).end
    case Opened(id, metadata) => OpenRequest(e, id, metadata)
    case Stepped(id, step) => (match TaskStep(e, id, step) case None => e case Some(e') => e')
  }

  function ReactAll(e: Endpoint, evs: seq<Event>): Endpoint
    decreases |evs|
  {
    if evs == [] then e else ReactAll(React(e, evs[0]), evs[1..])
  }

  ghost predicate Safe(e: Endpoint) {
    && Table.Bounded(e.table)
    && forall id :: id in e.tasks ==> Sane(e.tasks[id].window)
  }

  lemma ReactKeepsSafe(e: Endpoint, ev: Event)
    requires Safe(e)
    ensures Safe(React(e, ev))
  {
    if ev.Stepped? && ev.step.Settle? && SettleFrame(e, ev.id, ev.step.raw).Some? {
      SettleKeepsSane(e.tasks[ev.id].window, ev.step.raw);
    }
  }

  /**
   Whatever the peer sends: every window stays between 8 and 1500, so the decrement after a
   written frame never underflows, and every buffer stays bounded.
   */
  lemma {:induction false} HostilePeerIsContained(e: Endpoint, evs: seq<Event>)
    requires Safe(e)
    ensures Safe(ReactAll(e, evs))
    ensures forall id :: id in ReactAll(e, evs).tasks ==>
              8 <= ReactAll(e, evs).tasks[id].window.remote <= MAX_WINDOW
    decreases |evs|
  {
    hide React, Safe;
    if evs != [] {
      ReactKeepsSafe(e, evs[0]);
      HostilePeerIsContained(React(e, evs[0]), evs[1..]);
    } else {
      SafeWindows(e);
    }
  }

  lemma SafeWindows(e: Endpoint)
    requires Safe(e)
    ensures forall id :: id in e.tasks ==> 8 <= e.tasks[id].window.remote <= MAX_WINDOW
  {
  }

  // ----- the same in place

  /** `Outgoing`: the shared queue that the writer loop drains. */
  class Outgoing {
    var queue: seq<Frame>

    constructor ()
      ensures queue == []
    {
      queue := [];
    }

    method Push(f: Frame)
      modifies this
      ensures queue == old(queue) + [f]
    {
      queue := queue + [f];
    }

    /** The writer loop takes the oldest frame. */
    method Pop() returns (f: Option<Frame>)
      modifies this
      ensures old(queue) == [] ==> f.None? && queue == []
      ensures old(queue) != [] ==> f == Some(old(queue)[0]) && queue == old(queue)[1..]
    {
      f := None;
      if queue != [] {
        f := Some(queue[0]);
        queue := queue[1..];
      }
    }
  }

  class Mux {
    const table: Table.BufferTable
    const outgoing: Outgoing
    var tasks: map<StreamId, Task>
    var pongs: nat

    ghost function State(): Endpoint
      reads this, table, outgoing
    {
      Endpoint(table.inner, tasks, outgoing.queue, pongs)
    }

    /** Every window is in its invariant and every buffer bounded, whatever the peer does. */
    ghost predicate Valid()
      reads this, table, outgoing
    {
      Safe(State())
    }

    constructor ()
      ensures fresh(table) && fresh(outgoing)
      ensures State() == EMPTY && Valid()
    {
      table := new Table.BufferTable();
      outgoing := new Outgoing();
      tasks, pongs := map[], 0;
    }

    method Spawn(id: StreamId, metadata: seq<byte>)
      requires Valid()
      modifies this, table
      ensures Valid() && State() == CreateStream(old(State()), id, metadata)
    {
      table.CreateEntry(id);
      tasks := tasks[id := NewTask(metadata)];
    }

    method OpenReq(id: StreamId, metadata: seq<byte>)
      requires Valid()
      modifies this, table, outgoing
      ensures Valid() && State() == OpenRequest(old(State()), id, metadata)
    {
      outgoing.Push(NewFrame(id, CMD_SYN, metadata));
      Spawn(id, metadata);
    }

    method HandleFrame(f: Frame, local: Local) returns (error: Option<DispatchError>)
      requires Valid()
      modifies this, table, outgoing
      ensures Valid()
      ensures match Dispatch(old(State()), f, local)
              case Continue(e) => error.None? && State() == e
              case Fatal(why, e) => error == Some(why) && State() == e
    {
      ReactKeepsSafe(State(), FromPeer(f, local));
      error := None;
      var id, cmd := f.header.streamId, f.header.command;
      if cmd == CMD_SYN {
        var known := table.ContainsId(id);
        if known {
          return Some(DuplicateSyn);
        }
        Spawn(id, f.body);
        if !local.accepting {
          return Some(NotAccepting);
        }
      } else if cmd == CMD_MORE {
        if |f.body| != 2 {
          return Some(CorruptMore);
        }
        table.IncrSendWindow(id, FromLittleEndian(f.body));
      } else if cmd == CMD_PSH || cmd == CMD_FIN {
        table.SendFrame(id, f);
      } else if cmd == CMD_NOP {
      } else if cmd == CMD_PING {
        if !local.pingOk {
          return Some(InvalidPing);
        }
        outgoing.Push(NewFrame(0, CMD_PONG, []));
      } else if cmd == CMD_PONG {
        pongs := pongs + 1;
      } else {
        return Some(InvalidCommand);
      }
    }

    /** `incoming_task` up to its first await: a body is in hand. */
    method Take(id: StreamId, body: seq<byte>)
      requires Valid() && TakeBody(State(), id, body).Some?
      modifies this
      ensures Valid() && Some(State()) == TakeBody(old(State()), id, body)
    {
      tasks := tasks[id := tasks[id].(outbound := Link.Waiting(body))];
    }

    /** One poll of `wait_send_window` by `incoming_task`. */
    method PollPermit(id: StreamId) returns (acquired: bool)
      requires Valid() && Running(State(), id) && tasks[id].outbound.Waiting?
      modifies this, table
      ensures Valid()
      ensures acquired <==> AcquirePermit(old(State()), id).Some?
      ensures State() ==
              if acquired then AcquirePermit(old(State()), id).value else old(State())
    {
      acquired := table.TryAcquire(id);
      if acquired {
        tasks := tasks[id := tasks[id].(outbound := Link.Holding(tasks[id].outbound.body))];
      }
    }

    method SendBody(id: StreamId)
      requires Valid() && PushBody(State(), id).Some?
      modifies this, outgoing
      ensures Valid() && Some(State()) == PushBody(old(State()), id)
    {
      var t := tasks[id];
      outgoing.Push(NewFrame(id, CMD_PSH, t.outbound.body));
      tasks := tasks[id := t.(outbound := Link.Idle, sent := t.sent + t.outbound.body)];
    }

    method Stop(id: StreamId, finished: bool)
      requires Valid() && Running(State(), id)
      modifies this, table
      ensures Valid() && Some(State()) == StopTask(old(State()), id, finished)
    {
      var t := tasks[id];
      table.DropReceiver(id);
      tasks := tasks[id := t.(phase := Link.Ended, inbound := None, outbound := Link.Idle,
                              finished := t.finished || finished)];
    }

    /** One poll of `buffer_recv.recv()` by `outgoing_task`. */
    method PollRecv(id: StreamId) returns (ready: bool)
      requires Valid() && Running(State(), id) && tasks[id].inbound.None?
      modifies this, table
      ensures Valid()
      ensures ready <==> DequeueFrame(old(State()), id).Some?
      ensures State() == if ready then DequeueFrame(old(State()), id).value else old(State())
    {
      var e0 := table.inner;
      var f := table.TryRecv(id);
      ready := f.Some?;
      if f.Some? {
        if f.value.header.command == CMD_FIN {
          Stop(id, true);
          assert table.inner == Table.Remove(e0, id);
        } else {
          tasks := tasks[id := tasks[id].(inbound := Some(f.value.body))];
        }
      }
    }

    method WriteSome(id: StreamId, n: nat)
      requires Valid() && WriteChunk(State(), id, n).Some?
      modifies this
      ensures Valid() && Some(State()) == WriteChunk(old(State()), id, n)
    {
      var t := tasks[id];
      tasks := tasks[id := t.(delivered := t.delivered + t.inbound.value[..n],
                              inbound := Some(t.inbound.value[n..]))];
    }

    method FrameWritten(id: StreamId, raw: nat)
      requires Valid() && Running(State(), id) && tasks[id].inbound == Some([])
      modifies this, outgoing
      ensures Valid() && Some(State()) == SettleFrame(old(State()), id, raw)
    {
      var t := tasks[id];
      SettleKeepsSane(t.window, raw);
      var minQuantum := MinQuantum(t.window.target);
      var remote := t.window.remote - 1;
      var target := Clamp(raw, INIT_WINDOW, MAX_WINDOW);
      if remote + minQuantum <= target {
        var quantum := target - remote;
        outgoing.Push(MoreFrame(id, quantum));
        remote := remote + quantum;
      } else {
        assert outgoing.queue + [] == outgoing.queue;
      }
      tasks := tasks[id := t.(inbound := None, window := Window(remote, target))];
    }

    method Announce(id: StreamId)
      requires Valid() && AnnounceFin(State(), id).Some?
      modifies this, outgoing
      ensures Valid() && Some(State()) == AnnounceFin(old(State()), id)
    {
      outgoing.Push(NewFrame(id, CMD_FIN, []));
      tasks := tasks[id := tasks[id].(phase := Link.Closed)];
    }
  }
}
