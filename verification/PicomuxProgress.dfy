/**
 Progress of two picomux endpoints: a bound on all they can do without new work from their
 applications, and what must have been delivered when they have done it.
 */
module PicomuxProgress {
  import opened Common
  import opened PicomuxFrame
  import opened PicomuxEndpoint
  import opened PicomuxMux
  import Table = PicomuxTable
  import Link = PicomuxLink

  // ----- what is left when nothing moves

  /** Actions of the two multiplexers, as opposed to their applications. */
  predicate Internal(a: Action) {
    match a
    case StreamStep(_, step) => Link.Internal(step)
    case TransmitFrame => true
    case DeliverFrame => true
    case _ => false
  }

  ghost predicate AllInternal(acts: seq<SideAction>) {
    forall i :: 0 <= i < |acts| ==> Internal(acts[i].action)
  }

  /** Internal actions that wait for no application to read. */
  predicate Prompt(a: Action) {
    Internal(a) && (a.StreamStep? ==> Link.Prompt(a.step))
  }

  ghost predicate AtRest(s: Nodes) {
    forall a :: Prompt(a) ==> Next(s, a).None? && Next(Swap(s), a).None?
  }

  /** If a stream's link can move, so can the system. */
  lemma LinkStepIsShared(s: Nodes, id: StreamId, step: Link.Step) returns (a: Action)
    requires Inv(s) && Link.Prompt(step) && Link.Next(PairOf(s, id), step).Some?
    requires s.me.wire != [] ==> Next(s, DeliverFrame).Some?
    ensures Prompt(a) && Next(s, a).Some?
  {
    hide Link.Act, Link.Receive, TaskStep, Inv, Dispatch;
    match step
    case Transmit =>
      LinkTransmit(s, id);
      a := TransmitFrame;
    case Deliver =>
      a := DeliverFrame;
    case _ =>
      LinkTask(s, id, step);
      a := StreamStep(id, step);
  }

  lemma LinkTask(s: Nodes, id: StreamId, step: Link.Step)
    requires Inv(s) && !step.Transmit? && Link.Act(HalfOf(s.me, id), step).Some?
    ensures TaskStep(s.me.end, id, step).Some?
  {
    hide Link.Act, TaskStep, Coherent, HalfOf;
    SaneWindows(s, id);
    TaskStepRefines(s.me, id, step);
  }

  lemma LinkTransmit(s: Nodes, id: StreamId)
    requires Link.Next(PairOf(s, id), Link.Transmit).Some?
    ensures s.me.end.queue != []
  {
  }

  /**
   No deadlock and no head-of-line blocking: once the multiplexers have nothing left to do,
   every live stream whose receiving application is not holding up a frame has delivered all it
   was given and holds its whole window of at least eight frames, even if the applications of
   all other streams have stopped reading.
   */
  lemma RestMeansDelivered(s: Nodes, id: StreamId)
    requires Reachable(s) && AtRest(s) && Running(s.me.end, id) && Running(s.peer.end, id)
    requires !Link.AwaitsReader(s.peer.end.tasks[id].inbound)
    ensures s.me.end.tasks[id].outbound.Idle?
    ensures s.peer.end.tasks[id].delivered == s.me.end.tasks[id].sent
    ensures id in s.me.end.table
    ensures s.me.end.table[id].permits == s.peer.end.tasks[id].window.remote >= 8
  {
    ReachableInv(s);
    LinkAtRest(s, id);
    assert Link.Inv(PairOf(s, id));
    Link.RestMeansDelivered(PairOf(s, id));
  }

  lemma LinkAtRest(s: Nodes, id: StreamId)
    requires Reachable(s) && AtRest(s)
    ensures Link.AtRest(PairOf(s, id))
  {
    hide Link.Next, Next, HalfOf, Inv;
    ReachableInv(s);
    ReachableIsSymmetric(s);
    FrameAccepted(s);
    FrameAccepted(Swap(s));
    forall step | Link.Prompt(step)
      ensures Link.Next(PairOf(s, id), step).None? && Link.Next(Link.Swap(PairOf(s, id)), step).None?
    {
      if Link.Next(PairOf(s, id), step).Some? {
        var a := LinkStepIsShared(s, id, step);
        assert false;
      }
      if Link.Next(PairOf(Swap(s), id), step).Some? {
        var a := LinkStepIsShared(Swap(s), id, step);
        assert false;
      }
    }
  }

  lemma {:induction false} InternalTrace(s: Nodes, acts: seq<SideAction>, id: StreamId)
    requires Run(s, acts).Some? && AllInternal(acts)
    ensures forall i :: 0 <= i < |Trace(s, acts, id)| ==> Link.Internal(Trace(s, acts, id)[i].step)
    decreases |acts|
  {
    hide Next;
    if acts != [] {
      InternalTrace(Perform(s, acts[0]).value, acts[1..], id);
    }
  }

  /** Without new work from the applications a stream takes at most `Work` further steps. */
  lemma StreamsComeToRest(s: Nodes, acts: seq<SideAction>, id: StreamId)
    requires Reachable(s) && Run(s, acts).Some? && AllInternal(acts)
    ensures |Trace(s, acts, id)| <= Link.Work(PairOf(s, id))
  {
    hide Link.Inv, Link.Work, HalfOf;
    ReachableInv(s);
    StreamRunsItsLink(s, acts, id);
    InternalTrace(s, acts, id);
    assert Link.Inv(PairOf(s, id));
    Link.InternalRunsAreFinite(PairOf(s, id), Trace(s, acts, id));
  }

  // ----- the whole system comes to rest

  /** Steps that a PING or PONG still causes: one to the wire, one to the peer, and the answer. */
  function ControlWeight(f: Frame, stage: nat): nat {
    if f.header.command == CMD_PING then stage + 2
    else if f.header.command == CMD_PONG then stage
    else 0
  }

  function ControlWork(fs: seq<Frame>, stage: nat): nat {
    if fs == [] then 0 else ControlWeight(fs[0], stage) + ControlWork(fs[1..], stage)
  }

  lemma {:induction false} ControlSnoc(fs: seq<Frame>, f: Frame, stage: nat)
    ensures ControlWork(fs + [f], stage) == ControlWork(fs, stage) + ControlWeight(f, stage)
  {
    if fs == [] {
      assert fs + [f] == [f] && [f][1..] == [];
    } else {
      assert (fs + [f])[1..] == fs[1..] + [f];
      ControlSnoc(fs[1..], f, stage);
    }
  }

  function NodeControl(n: Node): nat {
    ControlWork(n.end.queue, 2) + ControlWork(n.wire, 1)
  }

  const ID_COUNT: nat := 0x1_0000_0000

  /** The work of the streams with ids below `count`; a stream that is not in use has none. */
  function StreamWork(s: Nodes, count: nat): nat
    requires count <= ID_COUNT
  {
    if count == 0 then 0 else StreamWork(s, count - 1) + Link.Work(PairOf(s, count - 1))
  }

  lemma UnusedHasNoWork(s: Nodes, id: StreamId)
    requires Inv(s) && Unused(s.me, id) && Unused(s.peer, id)
    ensures Link.Work(PairOf(s, id)) == 0
  {
    hide Coherent, Link.Flow;
    assert Link.Inv(PairOf(s, id));
  }

  /** An upper bound on the actions that the two multiplexers can still take. */
  function TotalWork(s: Nodes): nat {
    StreamWork(s, ID_COUNT) + NodeControl(s.me) + NodeControl(s.peer)
  }

  lemma {:induction false} StreamWorkKept(s: Nodes, s': Nodes, count: nat)
    requires count <= ID_COUNT
    requires forall id: StreamId :: id < count ==> Link.Work(PairOf(s', id)) == Link.Work(PairOf(s, id))
    ensures StreamWork(s', count) == StreamWork(s, count)
  {
    hide PairOf, Link.Work;
    if count > 0 {
      StreamWorkKept(s, s', count - 1);
    }
  }

  lemma {:induction false} StreamWorkDrops(s: Nodes, s': Nodes, count: nat, x: StreamId)
    requires x < count <= ID_COUNT && Link.Work(PairOf(s', x)) < Link.Work(PairOf(s, x))
    requires forall id: StreamId :: id != x ==> PairOf(s', id) == PairOf(s, id)
    ensures StreamWork(s', count) < StreamWork(s, count)
  {
    hide PairOf, Link.Work;
    if x == count - 1 {
      StreamWorkKept(s, s', count - 1);
    } else {
      StreamWorkDrops(s, s', count - 1, x);
    }
  }

  lemma TotalWorkOfSwap(s: Nodes)
    ensures TotalWork(Swap(s)) == TotalWork(s)
  {
    hide StreamWork, HalfOf, NodeControl;
    StreamWorkKept(s, Swap(s), ID_COUNT);
  }

  /** The stream that an internal action works for; none if it moves a PING or a PONG. */
  function Subject(s: Nodes, a: Action): Option<StreamId> {
    match a
    case StreamStep(id, _) => Some(id)
    case TransmitFrame => if s.me.end.queue != [] then Owner(s.me.end.queue[0]) else None
    case DeliverFrame => if s.me.wire != [] then Owner(s.me.wire[0]) else None
    case _ => None
  }

  function Owner(f: Frame): Option<StreamId> {
    if ToMsg(f).Some? then Some(f.header.streamId) else None
  }

  lemma TaskKeepsControl(e: Endpoint, id: StreamId, step: Link.Step)
    requires TaskStep(e, id, step).Some?
    ensures ControlWork(TaskStep(e, id, step).value.queue, 2) == ControlWork(e.queue, 2)
  {
    hide ControlWork;
    var e' := TaskStep(e, id, step).value;
    if e'.queue != e.queue {
      var f := e'.queue[|e.queue|];
      assert e'.queue == e.queue + [f];
      ControlSnoc(e.queue, f, 2);
    }
  }

  lemma DispatchedControl(e: Endpoint, f: Frame)
    requires Honest(f) && Dispatch(e, f, HEALTHY).Continue?
    ensures var e' := Dispatch(e, f, HEALTHY).end;
            if Owner(f).Some? then e'.queue == e.queue && ControlWeight(f, 1) == 0
            else ControlWork(e'.queue, 2) < ControlWork(e.queue, 2) + ControlWeight(f, 1)
  {
    hide ControlWork, Table.Release, Table.SendTo, FromLittleEndian;
    ControlSnoc(e.queue, NewFrame(0, CMD_PONG, []), 2);
  }

  /** Frames of streams carry no control work; moving a PING or PONG uses some up. */
  lemma ControlShrinks(s: Nodes, a: Action)
    requires Coherent(s.me) && Internal(a) && Next(s, a).Some?
    ensures var s' := Next(s, a).value;
            var before, after := NodeControl(s.me) + NodeControl(s.peer), NodeControl(s'.me) + NodeControl(s'.peer);
            if Subject(s, a).Some? then after == before else after < before
  {
    hide TaskStep, Dispatch;
    match a
    case StreamStep(id, step) => TaskKeepsControl(s.me.end, id, step);
    case TransmitFrame => ControlSnoc(s.me.wire, s.me.end.queue[0], 1);
    case DeliverFrame => DispatchedControl(s.peer.end, s.me.wire[0]);
  }

  lemma SubjectSteps(s: Nodes, a: Action, id: StreamId)
    requires Internal(a) && Next(s, a).Some?
    ensures StepFor(s, a, id).Some? <==> Subject(s, a) == Some(id)
    ensures StepFor(s, a, id).Some? ==> Link.Internal(StepFor(s, a, id).value)
  {
    hide TaskStep, Dispatch, ToMsg;
  }

  lemma SubjectShrinks(s: Nodes, a: Action, x: StreamId)
    requires Inv(s) && Internal(a) && Next(s, a).Some? && Subject(s, a) == Some(x)
    ensures Link.Work(PairOf(Next(s, a).value, x)) < Link.Work(PairOf(s, x))
  {
    hide Link.Inv, Link.Work, Link.Next, Next, Subject, PairOf, Coherent;
    SubjectSteps(s, a, x);
    ActionMatches(s, a, x);
    assert Link.Inv(PairOf(s, x));
    Link.InternalStepShrinks(PairOf(s, x), Link.Left(StepFor(s, a, x).value));
  }

  /** Every action of a multiplexer uses up work of the system. */
  lemma ActionShrinks(s: Nodes, a: Action)
    requires Inv(s) && Internal(a) && Next(s, a).Some?
    ensures TotalWork(Next(s, a).value) < TotalWork(s)
  {
    hide Inv, Next, PairOf, Link.Work, Link.Next, StreamWork, NodeControl, Subject, StepFor;
    var s' := Next(s, a).value;
    assert Coherent(s.me) by { InvParts(s); }
    ControlShrinks(s, a);
    forall id: StreamId ensures Subject(s, a) != Some(id) ==> PairOf(s', id) == PairOf(s, id) {
      SubjectSteps(s, a, id);
      ActionMatches(s, a, id);
    }
    if Subject(s, a).Some? {
      SubjectShrinks(s, a, Subject(s, a).value);
      StreamWorkDrops(s, s', ID_COUNT, Subject(s, a).value);
    } else {
      StreamWorkKept(s, s', ID_COUNT);
    }
  }

  lemma InvParts(s: Nodes)
    requires Inv(s)
    ensures Coherent(s.me) && Coherent(s.peer)
  {
  }

  lemma PerformShrinks(s: Nodes, a: SideAction)
    requires Inv(s) && Internal(a.action) && Perform(s, a).Some?
    ensures TotalWork(Perform(s, a).value) < TotalWork(s)
  {
    hide Inv, Next, TotalWork;
    match a
    case Left(x) => ActionShrinks(s, x);
    case Right(x) =>
      SwapKeepsInv(s);
      ActionShrinks(Swap(s), x);
      TotalWorkOfSwap(s);
      TotalWorkOfSwap(Next(Swap(s), x).value);
  }

  lemma {:induction false} InternalRunsAreFinite(s: Nodes, acts: seq<SideAction>)
    requires Inv(s) && Run(s, acts).Some? && AllInternal(acts)
    ensures |acts| <= TotalWork(s)
    decreases |acts|
  {
    hide Inv, Perform, TotalWork;
    if acts != [] {
      PerformKeepsInv(s, acts[0]);
      PerformShrinks(s, acts[0]);
      InternalRunsAreFinite(Perform(s, acts[0]).value, acts[1..]);
    }
  }

  /** No action of either multiplexer is possible, not even writing to an application. */
  ghost predicate Finished(s: Nodes) {
    forall a :: Internal(a) ==> Next(s, a).None? && Next(Swap(s), a).None?
  }

  lemma {:induction false} FinishedIsReached(s: Nodes) returns (acts: seq<SideAction>)
    requires Inv(s)
    ensures Run(s, acts).Some? && AllInternal(acts) && Finished(Run(s, acts).value)
    decreases TotalWork(s)
  {
    hide Inv, Next, TotalWork;
    if Finished(s) {
      acts := [];
    } else {
      var x :| Internal(x) && (Next(s, x).Some? || Next(Swap(s), x).Some?);
      var first := if Next(s, x).Some? then Left(x) else Right(x);
      PerformKeepsInv(s, first);
      PerformShrinks(s, first);
      var rest := FinishedIsReached(Perform(s, first).value);
      acts := [first] + rest;
      assert acts[1..] == rest;
    }
  }

  /**
   Liveness of the whole system. From any reachable state, without new work from the
   applications: no run has more than `TotalWork` actions; some run goes on until nothing more
   can happen; and whenever a run gets there, in whatever order it took its actions, every
   stream that is live at both ends has delivered every byte.
   */
  lemma EverythingIsDelivered(s: Nodes, acts: seq<SideAction>, id: StreamId) returns (full: seq<SideAction>)
    requires Reachable(s) && Run(s, acts).Some? && AllInternal(acts)
    ensures |acts| <= TotalWork(s)
    ensures Run(s, full).Some? && AllInternal(full) && Finished(Run(s, full).value)
    ensures var s' := Run(s, acts).value;
            Finished(s') && Running(s'.me.end, id) && Running(s'.peer.end, id) ==>
              && s'.me.end.tasks[id].outbound.Idle?
              && s'.peer.end.tasks[id].delivered == s'.me.end.tasks[id].sent
  {
    hide Inv, Finished, Next, TotalWork;
    ReachableInv(s);
    InternalRunsAreFinite(s, acts);
    full := FinishedIsReached(s);
    var s' := Run(s, acts).value;
    StillReachable(s, acts);
    if Finished(s') && Running(s'.me.end, id) && Running(s'.peer.end, id) {
      FinishedIsRest(s', id);
      RestMeansDelivered(s', id);
    }
  }

  lemma StillReachable(s: Nodes, acts: seq<SideAction>)
    requires Reachable(s) && Run(s, acts).Some?
    ensures Reachable(Run(s, acts).value)
  {
    hide Perform;
    var before :| Run(START_NODES, before) == Some(s);
    RunAppend(START_NODES, before, acts);
  }

  lemma {:induction false} RunAppend(s: Nodes, a: seq<SideAction>, b: seq<SideAction>)
    requires Run(s, a).Some?
    ensures Run(s, a + b) == Run(Run(s, a).value, b)
    decreases |a|
  {
    hide Perform;
    if a == [] {
      assert a + b == b;
    } else {
      assert (a + b)[1..] == a[1..] + b;
      RunAppend(Perform(s, a[0]).value, a[1..], b);
    }
  }

  lemma FinishedIsRest(s: Nodes, id: StreamId)
    requires Finished(s) && Running(s.peer.end, id)
    ensures AtRest(s) && !Link.AwaitsReader(s.peer.end.tasks[id].inbound)
  {
    if Link.AwaitsReader(s.peer.end.tasks[id].inbound) {
      WritingIsPossible(Swap(s), id);
      assert false;
    }
  }

  lemma WritingIsPossible(s: Nodes, id: StreamId)
    requires Running(s.me.end, id) && Link.AwaitsReader(s.me.end.tasks[id].inbound)
    ensures Internal(StreamStep(id, Link.Write(1))) && Next(s, StreamStep(id, Link.Write(1))).Some?
  {
  }
}
