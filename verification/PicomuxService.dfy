/**
 What two picomux endpoints do for their applications, said in terms of what the applications
 do: bytes handed over come out at the other end, closing one end is noticed at the other,
 ids can be used again, and every PING is answered.
 */
module PicomuxService {
  import opened Common
  import opened PicomuxFrame
  import opened PicomuxEndpoint
  import opened PicomuxMux
  import opened PicomuxProgress
  import Table = PicomuxTable
  import Link = PicomuxLink

  // ----- bytes handed over

  /**
   The bytes that the actions of a run hand to one end of stream `id`, `sofar` before it.
   Opening the stream starts over.
   */
  function Handed(acts: seq<SideAction>, id: StreamId, left: bool, sofar: seq<byte>): seq<byte> {
    if acts == [] then sofar
    else Handed(acts[1..], id, left, HandedBy(acts[0], id, left, sofar))
  }

  function HandedBy(a: SideAction, id: StreamId, left: bool, sofar: seq<byte>): seq<byte> {
    match a.action
    case OpenStream(i, _) => if i == id then [] else sofar
    case StreamStep(i, Take(body)) => if i == id && a.Left? == left then sofar + body else sofar
    case _ => sofar
  }

  lemma TraceHandsOver(s: Nodes, a: SideAction, id: StreamId, left: bool, sofar: seq<byte>)
    requires Perform(s, a).Some?
    ensures Link.TakenAfter(TraceOne(s, a, id), left, sofar) == HandedBy(a, id, left, sofar)
  {
    hide Dispatch, Unused, TakeBody, OpenRequest;
    var t := TraceOne(s, a, id);
    if a.action.StreamStep? {
      OtherStepsAreNotTasks(if a.Left? then s.me.end else s.peer.end, a.action.id);
    }
    if t != [] {
      assert t[1..] == [];
      assert Link.TakenAfter(t, left, sofar) == Link.TakenBy(t[0], left, sofar);
    }
  }

  lemma {:induction false} TakenAppend(a: seq<Link.Action>, b: seq<Link.Action>, left: bool, sofar: seq<byte>)
    ensures Link.TakenAfter(a + b, left, sofar) == Link.TakenAfter(b, left, Link.TakenAfter(a, left, sofar))
    decreases |a|
  {
    if a == [] {
      assert a + b == b;
    } else {
      assert (a + b)[1..] == a[1..] + b;
      TakenAppend(a[1..], b, left, Link.TakenBy(a[0], left, sofar));
    }
  }

  lemma {:induction false} HandedIsTaken(s: Nodes, acts: seq<SideAction>, id: StreamId, left: bool, sofar: seq<byte>)
    requires Run(s, acts).Some?
    ensures Link.TakenAfter(Trace(s, acts, id), left, sofar) == Handed(acts, id, left, sofar)
    decreases |acts|
  {
    hide Perform, TraceOne, HandedBy, Link.TakenAfter;
    if acts == [] {
      NothingTaken(left, sofar);
    } else {
      var s' := Perform(s, acts[0]).value;
      TraceHandsOver(s, acts[0], id, left, sofar);
      TakenAppend(TraceOne(s, acts[0], id), Trace(s', acts[1..], id), left, sofar);
      HandedIsTaken(s', acts[1..], id, left, HandedBy(acts[0], id, left, sofar));
    }
  }

  lemma NothingTaken(left: bool, sofar: seq<byte>)
    ensures Link.TakenAfter([], left, sofar) == sofar
  {
  }

  /** In every run, both halves of every stream have their books in order. */
  lemma RunIsBooked(acts: seq<SideAction>, id: StreamId)
    requires Run(START_NODES, acts).Some?
    ensures var p := PairOf(Run(START_NODES, acts).value, id);
            Link.Booked(p.me, Handed(acts, id, true, [])) && Link.Booked(p.peer, Handed(acts, id, false, []))
  {
    hide Inv, Link.Inv, Link.Booked;
    StartOk();
    StreamRunsItsLink(START_NODES, acts, id);
    HandedIsTaken(START_NODES, acts, id, true, []);
    HandedIsTaken(START_NODES, acts, id, false, []);
    StartIsBooked(id);
    Link.RunKeepsBooks(PairOf(START_NODES, id), Trace(START_NODES, acts, id), [], []);
  }

  lemma StartIsBooked(id: StreamId)
    ensures var p := PairOf(START_NODES, id);
            Link.Inv(p) && Link.Booked(p.me, []) && Link.Booked(p.peer, [])
  {
    ProjectEmpty(id);
    assert HalfOf(IDLE, id) == Link.NEW;
    Link.NewPairOk();
  }

  /**
   End to end, for any run of any number of streams: what the right application has been given
   on a stream is a prefix of what the left one handed over on that stream since it was opened;
   nothing else gets in. If the stream is live at both ends and nothing can move, it is all.
   */
  lemma DeliveredWasHandedOver(acts: seq<SideAction>, id: StreamId)
    requires Run(START_NODES, acts).Some?
    ensures var s := Run(START_NODES, acts).value;
            && TaskOf(s.peer.end, id).delivered <= Handed(acts, id, true, [])
            && TaskOf(s.me.end, id).delivered <= Handed(acts, id, false, [])
            && (Finished(s) && Running(s.me.end, id) && Running(s.peer.end, id) ==>
                  && TaskOf(s.peer.end, id).delivered == Handed(acts, id, true, [])
                  && TaskOf(s.me.end, id).delivered == Handed(acts, id, false, []))
  {
    hide Inv, Link.Inv, Finished, Run, Handed;
    var s := Run(START_NODES, acts).value;
    assert Reachable(s);
    RunIsBooked(acts, id);
    LinkInv(s, id);
    LinkInv(Swap(s), id) by { ReachableIsSymmetric(s); }
    Link.DeliveredWasTaken(PairOf(s, id), Handed(acts, id, true, []));
    Link.DeliveredWasTaken(PairOf(Swap(s), id), Handed(acts, id, false, []));
    if Finished(s) && Running(s.me.end, id) && Running(s.peer.end, id) {
      ReachableIsSymmetric(s);
      LiveStreamDelivers(s, id);
      LiveStreamDelivers(Swap(s), id) by { SwappedFinished(s); }
    }
  }

  lemma LinkInv(s: Nodes, id: StreamId)
    requires Reachable(s)
    ensures Link.Inv(PairOf(s, id))
  {
    hide Link.Inv, PairOf;
    ReachableInv(s);
  }

  lemma SwappedFinished(s: Nodes)
    requires Finished(s)
    ensures Finished(Swap(s))
  {
    hide Next;
  }

  lemma LiveStreamDelivers(s: Nodes, id: StreamId)
    requires Reachable(s) && Finished(s) && Running(s.me.end, id) && Running(s.peer.end, id)
    ensures TaskOf(s.peer.end, id).delivered == Link.Offered(HalfOf(s.me, id))
  {
    hide Finished, Next, Reachable;
    FinishedIsRest(s, id);
    RestMeansDelivered(s, id);
  }

  // ----- what the applications can always do

  /** A body of up to 8192 bytes can be handed over whenever none is waiting. */
  lemma BodyIsTaken(s: Nodes, id: StreamId, body: seq<byte>)
    requires Running(s.me.end, id) && 1 <= |body| <= 8192
    ensures Next(s, StreamStep(id, Link.Take(body))).Some? <==> s.me.end.tasks[id].outbound.Idle?
  {
  }

  /** A stream can be ended at any time, and a PING sent. */
  lemma StreamCanEnd(s: Nodes, id: StreamId)
    requires Running(s.me.end, id)
    ensures Next(s, StreamStep(id, Link.End)).Some?
    ensures !Running(Next(s, StreamStep(id, Link.End)).value.me.end, id)
  {
  }

  /** The work of the multiplexers alone: a run without new work, to the point where nothing moves. */
  ghost predicate Settles(s: Nodes, acts: seq<SideAction>, s': Nodes) {
    AllInternal(acts) && Run(s, acts) == Some(s') && Finished(s')
  }

  lemma LinkSettles(s: Nodes, acts: seq<SideAction>, s': Nodes, id: StreamId)
    requires Reachable(s) && Settles(s, acts, s')
    ensures Reachable(s') && Link.Inv(PairOf(s, id)) && Link.Inv(PairOf(s', id))
    ensures Link.AtRest(PairOf(s', id))
    ensures Link.Run(PairOf(s, id), Trace(s, acts, id)) == Some(PairOf(s', id))
    ensures forall i :: 0 <= i < |Trace(s, acts, id)| ==> Link.Internal(Trace(s, acts, id)[i].step)
  {
    hide Inv, Link.Inv, Finished, Run, Trace, Next, Link.Next, PairOf, Link.AtRest;
    StillReachable(s, acts);
    LinkInv(s, id);
    LinkInv(s', id);
    ReachableInv(s);
    StreamRunsItsLink(s, acts, id);
    InternalTrace(s, acts, id);
    FinishedMeansRest(s');
    LinkAtRest(s', id);
  }

  lemma FinishedMeansRest(s: Nodes)
    requires Finished(s)
    ensures AtRest(s)
  {
    hide Next;
  }

  lemma ReaderIsServed(s: Nodes, id: StreamId)
    requires Finished(s)
    ensures !Link.AwaitsReader(HalfOf(s.me, id).inbound) || !HalfOf(s.me, id).phase.Live?
  {
    if Link.AwaitsReader(HalfOf(s.me, id).inbound) && HalfOf(s.me, id).phase.Live? {
      WritingIsPossible(s, id);
      assert false;
    }
  }

  /**
   A stream that is live at one end and live or about to be opened at the other stays so while
   the multiplexers work, and in the end has delivered everything, in both directions.
   */
  lemma ConnectedStreamDelivers(s: Nodes, acts: seq<SideAction>, s': Nodes, id: StreamId)
    requires Reachable(s) && Settles(s, acts, s') && Link.Connected(PairOf(s, id))
    ensures Running(s'.me.end, id) && Running(s'.peer.end, id)
    ensures Running(s.me.end, id) ==> TaskOf(s'.peer.end, id).metadata == TaskOf(s.me.end, id).metadata
    ensures TaskOf(s'.peer.end, id).delivered == Link.Offered(HalfOf(s.me, id))
    ensures TaskOf(s'.me.end, id).delivered == Link.Offered(HalfOf(s.peer, id))
  {
    hide Finished, Reachable, Run, Link.Inv, Link.AtRest, Link.Run, Link.Offered;
    LinkSettles(s, acts, s', id);
    Link.InternalRunStaysConnected(PairOf(s, id), Trace(s, acts, id));
    Link.RestMeansOpen(PairOf(s', id));
    LiveStreamDelivers(s', id);
    ReachableIsSymmetric(s');
    SwappedFinished(s');
    LiveStreamDelivers(Swap(s'), id);
  }

  /**
   From nothing to delivery: in every reachable state an unused id can be opened, a first body
   of any content can be handed over at once, and however the multiplexers then order their
   work, the other application gets a stream with that metadata and exactly that body.
   */
  lemma OpenedStreamDelivers(s: Nodes, id: StreamId, metadata: seq<byte>, body: seq<byte>,
                             acts: seq<SideAction>, s': Nodes)
    requires Reachable(s) && Unused(s.me, id) && Unused(s.peer, id)
    requires |metadata| < 65536 && 1 <= |body| <= 8192
    ensures Run(s, [Left(OpenStream(id, metadata)), Left(StreamStep(id, Link.Take(body)))]).Some?
    ensures var begun := Run(s, [Left(OpenStream(id, metadata)), Left(StreamStep(id, Link.Take(body)))]).value;
            Settles(begun, acts, s') ==>
              && Running(s'.peer.end, id) && TaskOf(s'.peer.end, id).metadata == metadata
              && TaskOf(s'.peer.end, id).delivered == body
  {
    hide Reachable, Settles, Finished, Project;
    var first, second := OpenStream(id, metadata), StreamStep(id, Link.Take(body));
    var s1 := Next(s, first).value;
    var s2 := Next(s1, second).value;
    var two := [Left(first), Left(second)];
    assert two[1..] == [Left(second)] && two[1..][1..] == [];
    assert Run(s1, two[1..]) == Run(s2, two[1..][1..]);
    assert Link.Connected(PairOf(s2, id)) && Link.Offered(HalfOf(s2.me, id)) == [] + body;
    if Settles(s2, acts, s') {
      StillReachable(s, two);
      ConnectedStreamDelivers(s2, acts, s', id);
    }
  }

  /** More bytes handed to a live stream reach the other end behind those before them. */
  lemma EveryBodyArrives(s: Nodes, id: StreamId, body: seq<byte>, acts: seq<SideAction>, s': Nodes)
    requires Reachable(s) && Running(s.me.end, id) && Running(s.peer.end, id)
    requires s.me.end.tasks[id].outbound.Idle? && 1 <= |body| <= 8192
    ensures Next(s, StreamStep(id, Link.Take(body))).Some?
    ensures Settles(Next(s, StreamStep(id, Link.Take(body))).value, acts, s') ==>
              Running(s'.peer.end, id)
              && TaskOf(s'.peer.end, id).delivered == s.me.end.tasks[id].sent + body
  {
    hide Reachable, Settles, Finished, Project;
    var take := StreamStep(id, Link.Take(body));
    var s1 := Next(s, take).value;
    assert Link.Connected(PairOf(s1, id));
    if Settles(s1, acts, s') {
      var one := [Left(take)];
      assert one[1..] == [] && Run(s, one) == Some(s1);
      StillReachable(s, one);
      ConnectedStreamDelivers(s1, acts, s', id);
    }
  }

  /**
   Closing: when one end has stopped and the other has not, the FIN reaches the other end after
   every byte sent, the stream is closed at both ends, and its id can be opened again.
   */
  lemma CloseArrives(s: Nodes, acts: seq<SideAction>, s': Nodes, id: StreamId, metadata: seq<byte>)
    requires Reachable(s) && Settles(s, acts, s')
    requires id in s.me.end.tasks && !Running(s.me.end, id)
    requires id in s.peer.end.tasks ==> Running(s.peer.end, id)
    ensures id in s'.me.end.tasks && id in s'.peer.end.tasks
    ensures s'.peer.end.tasks[id].finished
    ensures s'.peer.end.tasks[id].delivered == s.me.end.tasks[id].sent
    ensures |metadata| < 65536 ==> Next(s', OpenStream(id, metadata)).Some?
  {
    hide Finished, Run, Link.Inv, Link.AtRest, Link.Run, Project, Reachable;
    LinkSettles(s, acts, s', id);
    var p, p' := PairOf(s, id), PairOf(s', id);
    assert !p.me.phase.Fresh? by { TasksAreNotFresh(s, id); }
    assert Link.Closing(p);
    Link.InternalRunStaysClosing(p, Trace(s, acts, id));
    SwappedFinished(s');
    ReaderIsServed(Swap(s'), id);
    if !p'.peer.phase.Live? {
      NotLiveMeansIdle(s', id);
    }
    Link.RestMeansClosed(p');
    ClosedIsUnused(s', id);
  }

  lemma TasksAreNotFresh(s: Nodes, id: StreamId)
    requires Reachable(s) && id in s.me.end.tasks
    ensures !s.me.end.tasks[id].phase.Fresh?
  {
    ReachableInv(s);
  }

  lemma NotLiveMeansIdle(s: Nodes, id: StreamId)
    requires Link.Inv(PairOf(s, id)) && !HalfOf(s.peer, id).phase.Live?
    ensures HalfOf(s.peer, id).inbound.None?
  {
  }

  lemma ClosedIsUnused(s: Nodes, id: StreamId)
    requires Reachable(s) && Finished(s)
    requires HalfOf(s.me, id).phase.Closed? && HalfOf(s.peer, id).phase.Closed?
    ensures id in s.me.end.tasks && id in s.peer.end.tasks
    ensures Unused(s.me, id) && Unused(s.peer, id)
  {
    ReachableInv(s);
    FinishedIsEmpty(s);
  }

  /** When nothing moves, nothing is queued or in flight. */
  lemma FinishedIsEmpty(s: Nodes)
    requires Reachable(s) && Finished(s)
    ensures s.me.end.queue == [] && s.me.wire == [] && s.peer.end.queue == [] && s.peer.wire == []
  {
    ReachableIsSymmetric(s);
    SwappedFinished(s);
    NothingToMove(s);
    NothingToMove(Swap(s));
  }

  lemma NothingToMove(s: Nodes)
    requires Reachable(s) && Finished(s)
    ensures s.me.end.queue == [] && s.me.wire == []
  {
    hide Reachable, Dispatch;
    assert Internal(TransmitFrame) && Internal(DeliverFrame);
    FrameAccepted(s);
  }

  // ----- PING and PONG

  function CountOf(fs: seq<Frame>, command: byte): nat {
    if fs == [] then 0 else (if fs[0].header.command == command then 1 else 0) + CountOf(fs[1..], command)
  }

  lemma {:induction false} CountSnoc(fs: seq<Frame>, f: Frame, command: byte)
    ensures CountOf(fs + [f], command) == CountOf(fs, command) + if f.header.command == command then 1 else 0
  {
    if fs == [] {
      assert fs + [f] == [f] && [f][1..] == [];
    } else {
      assert (fs + [f])[1..] == fs[1..] + [f];
      CountSnoc(fs[1..], f, command);
    }
  }

  function InFlight(n: Node, command: byte): nat {
    CountOf(n.end.queue, command) + CountOf(n.wire, command)
  }

  /** The PINGs of this side that are on their way, on their way back as PONGs, or answered. */
  function Accounted(s: Nodes): nat {
    InFlight(s.me, CMD_PING) + InFlight(s.peer, CMD_PONG) + s.me.end.pongs
  }

  lemma TaskKeepsCount(e: Endpoint, id: StreamId, step: Link.Step, command: byte)
    requires TaskStep(e, id, step).Some? && command in {CMD_PING, CMD_PONG}
    ensures CountOf(TaskStep(e, id, step).value.queue, command) == CountOf(e.queue, command)
    ensures TaskStep(e, id, step).value.pongs == e.pongs
  {
    hide CountOf;
    var e' := TaskStep(e, id, step).value;
    if e'.queue != e.queue {
      var f := e'.queue[|e.queue|];
      assert e'.queue == e.queue + [f];
      CountSnoc(e.queue, f, command);
    }
  }

  lemma DispatchCounts(e: Endpoint, f: Frame)
    requires Dispatch(e, f, HEALTHY).Continue?
    ensures var e', cmd := Dispatch(e, f, HEALTHY).end, f.header.command;
            && CountOf(e'.queue, CMD_PING) == CountOf(e.queue, CMD_PING)
            && CountOf(e'.queue, CMD_PONG) == CountOf(e.queue, CMD_PONG) + (if cmd == CMD_PING then 1 else 0)
            && e'.pongs == e.pongs + (if cmd == CMD_PONG then 1 else 0)
  {
    hide CountOf, Table.Release, Table.SendTo, FromLittleEndian;
    CountSnoc(e.queue, NewFrame(0, CMD_PONG, []), CMD_PING);
    CountSnoc(e.queue, NewFrame(0, CMD_PONG, []), CMD_PONG);
  }

  /** Only sending a PING adds to the account, of the sender alone; no action takes from it. */
  lemma ActionKeepsAccount(s: Nodes, a: Action)
    requires Next(s, a).Some?
    ensures Accounted(Next(s, a).value) == Accounted(s) + if a.SendPing? then 1 else 0
    ensures Accounted(Swap(Next(s, a).value)) == Accounted(Swap(s))
  {
    hide TaskStep, Dispatch, Unused;
    match a
    case OpenStream(id, metadata) =>
      var f := NewFrame(id, CMD_SYN, metadata);
      CountSnoc(s.me.end.queue, f, CMD_PING);
      CountSnoc(s.me.end.queue, f, CMD_PONG);
    case StreamStep(id, step) =>
      TaskKeepsCount(s.me.end, id, step, CMD_PING);
      TaskKeepsCount(s.me.end, id, step, CMD_PONG);
    case TransmitFrame =>
      CountSnoc(s.me.wire, s.me.end.queue[0], CMD_PING);
      CountSnoc(s.me.wire, s.me.end.queue[0], CMD_PONG);
    case DeliverFrame => DispatchCounts(s.peer.end, s.me.wire[0]);
    case SendPing(body) =>
      CountSnoc(s.me.end.queue, NewFrame(0, CMD_PING, body), CMD_PING);
      CountSnoc(s.me.end.queue, NewFrame(0, CMD_PING, body), CMD_PONG);
  }

  /** The PINGs sent by the left endpoint in a run. */
  function PingsSent(acts: seq<SideAction>): nat {
    if acts == [] then 0
    else (if acts[0].Left? && acts[0].action.SendPing? then 1 else 0) + PingsSent(acts[1..])
  }

  lemma {:induction false} RunKeepsAccount(s: Nodes, acts: seq<SideAction>)
    requires Run(s, acts).Some?
    ensures Accounted(Run(s, acts).value) == Accounted(s) + PingsSent(acts)
    decreases |acts|
  {
    hide Next, Accounted;
    if acts != [] {
      match acts[0] {
        case Left(x) => ActionKeepsAccount(s, x);
        case Right(x) => ActionKeepsAccount(Swap(s), x);
      }
      RunKeepsAccount(Perform(s, acts[0]).value, acts[1..]);
    }
  }

  /**
   Every PING is answered once: in any run the PONGs received never exceed the PINGs sent, and
   when nothing moves any more they are as many.
   */
  lemma PingsAreAnswered(acts: seq<SideAction>)
    requires Run(START_NODES, acts).Some?
    ensures var s := Run(START_NODES, acts).value;
            s.me.end.pongs <= PingsSent(acts) && (Finished(s) ==> s.me.end.pongs == PingsSent(acts))
  {
    hide Run, Finished, Next;
    RunKeepsAccount(START_NODES, acts);
    var s := Run(START_NODES, acts).value;
    assert Reachable(s);
    if Finished(s) {
      FinishedIsEmpty(s);
    }
  }

  /** A PING of less than 65536 bytes can always be sent. */
  lemma PingCanBeSent(s: Nodes, body: seq<byte>)
    ensures Next(s, SendPing(body)).Some? <==> |body| < 65536
  {
  }
}
