/**
 One picomux stream between two endpoints, seen on its own: two halves joined by two FIFO
 lines. A step is what a task does between two awaits, so every interleaving of the two
 endpoints' tasks, of the queues and of the network is a sequence of these steps.
 */
module PicomuxLink {
  import opened Common
  import opened PicomuxWindow

  datatype Msg = Syn(metadata: seq<byte>) | Psh(body: seq<byte>) | More(quantum: nat) | Fin

  /**
   `Fresh`: no table entry yet. `Live`: entry present and task running. `Ended`: that task has
   stopped and the entry is gone. `Closed`: the FIN has been queued as well.
   */
  datatype Phase = Fresh | Live | Ended | Closed

  /** `incoming_task`: a body read from the application, then the permit to send it. */
  datatype Outbound = Idle | Waiting(body: seq<byte>) | Holding(body: seq<byte>)

  datatype Half = Half(
    phase: Phase,
    inbox: seq<Msg>,            // frames buffered for this half
    permits: nat,               // credit for sending
    window: Window,             // credit granted to the other half
    inbound: Option<seq<byte>>, // rest of the frame being written to the application
    outbound: Outbound,
    queue: seq<Msg>,            // waiting in the outgoing queue
    wire: seq<Msg>,             // written to the connection, not yet read by the other half
    sent: seq<byte>,            // everything this half has put in PSH frames
    delivered: seq<byte>,       // everything this half has written to its application
    finished: bool,             // the FIN of the other half has been dequeued
    metadata: seq<byte>)        // what the stream was opened with

  const NEW := Half(Fresh, [], INIT_WINDOW, START, None, Idle, [], [], [], [], false, [])

  const MAX_BODY := 8192

  datatype Step =
    | Open(metadata: seq<byte>)
    | Take(body: seq<byte>)
    | Acquire
    | Push
    | Transmit
    | Deliver
    | Dequeue
    | Write(count: nat)
    | Settle(raw: nat)
    | End
    | Announce

  /** The acting half and the other one. */
  datatype Pair = Pair(me: Half, peer: Half)

  function Line(h: Half): seq<Msg> {
    h.wire + h.queue
  }

  /** The stream's task stops for any reason: the entry goes, with everything buffered in it. */
  function Stop(h: Half): Half {
    h.(phase := Ended, inbox := [], permits := 0, inbound := None, outbound := Idle)
  }

  /** Dispatch of a message by the half it is addressed to; `None` kills the connection. */
  function Receive(h: Half, m: Msg): Option<Half> {
    match m
    case Syn(metadata) =>
      if h.phase.Live? then None
      else Some(NEW.(phase := Live, queue := h.queue, wire := h.wire, metadata := metadata))
    case More(q) =>
      if h.phase.Live? then Some(h.(permits := h.permits + q)) else Some(h)
    case _ =>
      if h.phase.Live? && |h.inbox| <= MAX_WINDOW * 2 then Some(h.(inbox := h.inbox + [m]))
      else Some(h)
  }

  predicate Quiet(p: Pair) {
    && (p.me.phase.Fresh? || p.me.phase.Closed?) && Line(p.me) == []
    && (p.peer.phase.Fresh? || p.peer.phase.Closed?) && Line(p.peer) == []
  }

  /** A step that changes the acting half only. */
  function Act(h: Half, s: Step): Option<Half> {
    match s
    case Take(body) =>
      if h.phase.Live? && h.outbound.Idle? && 1 <= |body| <= MAX_BODY
      then Some(h.(outbound := Waiting(body))) else None
    case Acquire =>
      if h.phase.Live? && h.outbound.Waiting? && h.permits > 0
      then Some(h.(outbound := Holding(h.outbound.body), permits := h.permits - 1)) else None
    case Push =>
      if h.phase.Live? && h.outbound.Holding?
      then Some(h.(outbound := Idle, queue := h.queue + [Psh(h.outbound.body)],
                   sent := h.sent + h.outbound.body)) else None
    case Transmit =>
      if h.queue != []
      then Some(h.(wire := h.wire + [h.queue[0]], queue := h.queue[1..])) else None
    case Dequeue =>
      if h.phase.Live? && h.inbound.None? && h.inbox != [] then
        (match h.inbox[0]
         case Psh(body) => Some(h.(inbound := Some(body), inbox := h.inbox[1..]))
         case Fin => Some(Stop(h).(finished := true))
         case _ => None)
      else None
    case Write(n) =>
      if h.phase.Live? && h.inbound.Some? && 1 <= n <= |h.inbound.value|
      then Some(h.(delivered := h.delivered + h.inbound.value[..n],
                   inbound := Some(h.inbound.value[n..]))) else None
    case Settle(raw) =>
      if h.phase.Live? && h.inbound == Some([]) && h.window.remote >= 1 then
        var r := PicomuxWindow.Settle(h.window, raw);
        Some(h.(inbound := None, window := r.window,
                queue := h.queue + (if r.more.Some? then [More(r.more.value)] else [])))
      else None
    case End =>
      if h.phase.Live? then Some(Stop(h)) else None
    case Announce =>
      if h.phase.Ended? then Some(h.(phase := Closed, queue := h.queue + [Fin])) else None
    case _ => None
  }

  /** The half that has just queued its SYN. */
  function Opener(metadata: seq<byte>): Half {
    NEW.(phase := Live, queue := [Syn(metadata)], metadata := metadata)
  }

  function Next(p: Pair, s: Step): Option<Pair> {
    match s
    case Open(metadata) =>
      if Quiet(p) then Some(Pair(Opener(metadata), NEW)) else None
    case Deliver =>
      if p.me.wire == [] then None else
        (match Receive(p.peer, p.me.wire[0])
         case None => None
         case Some(peer') => Some(Pair(p.me.(wire := p.me.wire[1..]), peer')))
    case _ =>
      (match Act(p.me, s)
       case None => None
       case Some(me') => Some(Pair(me', p.peer)))
  }

  // ----- measures of a line

  function Payload(ms: seq<Msg>): seq<byte> {
    if ms == [] then [] else (if ms[0].Psh? then ms[0].body else []) + Payload(ms[1..])
  }

  function Count(ms: seq<Msg>): nat {
    if ms == [] then 0 else (if ms[0].Psh? then 1 else 0) + Count(ms[1..])
  }

  function Grant(ms: seq<Msg>): nat {
    if ms == [] then 0 else (if ms[0].More? then ms[0].quantum else 0) + Grant(ms[1..])
  }

  lemma {:induction false} MeasuresAdd(a: seq<Msg>, b: seq<Msg>)
    ensures Payload(a + b) == Payload(a) + Payload(b)
    ensures Count(a + b) == Count(a) + Count(b)
    ensures Grant(a + b) == Grant(a) + Grant(b)
  {
    if a == [] {
      assert a + b == b;
    } else {
      assert (a + b)[1..] == a[1..] + b;
      MeasuresAdd(a[1..], b);
    }
  }

  lemma MeasuresSnoc(a: seq<Msg>, m: Msg)
    ensures Payload(a + [m]) == Payload(a) + (if m.Psh? then m.body else [])
    ensures Count(a + [m]) == Count(a) + (if m.Psh? then 1 else 0)
    ensures Grant(a + [m]) == Grant(a) + (if m.More? then m.quantum else 0)
  {
    MeasuresAdd(a, [m]);
    assert [m][1..] == [];
  }

  lemma MeasuresHead(ms: seq<Msg>)
    requires ms != []
    ensures Payload(ms) == (if ms[0].Psh? then ms[0].body else []) + Payload(ms[1..])
    ensures Count(ms) == (if ms[0].Psh? then 1 else 0) + Count(ms[1..])
    ensures Grant(ms) == (if ms[0].More? then ms[0].quantum else 0) + Grant(ms[1..])
  {
  }

  lemma MeasuresOfNothing()
    ensures Payload([]) == [] && Count([]) == 0 && Grant([]) == 0
  {
  }

  // ----- the invariant

  predicate Receiving(h: Half) {
    h.phase.Fresh? || h.phase.Live?
  }

  function Rest(h: Half): seq<byte> {
    if h.inbound.Some? then h.inbound.value else []
  }

  function Busy(h: Half): nat {
    if h.inbound.Some? then 1 else 0
  }

  function Held(h: Half): nat {
    if h.outbound.Holding? then 1 else 0
  }

  /** All messages between the sender's queue and the receiver's application, oldest first. */
  function Path(s: Half, r: Half): seq<Msg> {
    r.inbox + Line(s)
  }

  ghost predicate HalfOk(h: Half) {
    && Sane(h.window)
    && (h.phase.Fresh? ==> h == NEW)
    && (!h.phase.Live? ==> h.inbox == [] && h.inbound.None? && h.outbound.Idle?)
    && (forall m :: m in h.inbox ==> m.Psh? || m.Fin?)
  }

  ghost predicate NoSyn(ms: seq<Msg>) {
    forall i :: 0 <= i < |ms| ==> !ms[i].Syn?
  }

  ghost predicate FinOnlyLast(ms: seq<Msg>, closed: bool) {
    forall i :: 0 <= i < |ms| && ms[i].Fin? ==> closed && i == |ms| - 1
  }

  predicate EndsWithFin(ms: seq<Msg>) {
    ms != [] && ms[|ms| - 1].Fin?
  }

  lemma TailStaysOrdered(ms: seq<Msg>, closed: bool)
    requires ms != [] && FinOnlyLast(ms, closed)
    ensures FinOnlyLast(ms[1..], closed)
    ensures EndsWithFin(ms) && !ms[0].Fin? ==> EndsWithFin(ms[1..])
    ensures NoSyn(ms) ==> NoSyn(ms[1..])
  {
    assert forall i :: 0 <= i < |ms| - 1 ==> ms[1..][i] == ms[i + 1];
  }

  /** Frames are added behind the others while there is no FIN, and the FIN behind them all. */
  lemma SnocStaysOrdered(ms: seq<Msg>, m: Msg)
    requires FinOnlyLast(ms, false) && !m.Syn?
    ensures FinOnlyLast(ms + [m], m.Fin?)
    ensures m.Fin? ==> EndsWithFin(ms + [m])
    ensures NoSyn(ms) ==> NoSyn(ms + [m])
    ensures ms != [] ==> (ms + [m])[0] == ms[0] && (ms + [m])[1..] == ms[1..] + [m]
    ensures ms != [] && NoSyn(ms[1..]) ==> NoSyn(ms[1..] + [m])
  {
    var all := ms + [m];
    assert forall i :: 0 <= i < |all| ==> all[i] == if i < |ms| then ms[i] else m;
  }

  lemma SuffixStaysOrdered(ms: seq<Msg>, k: nat, closed: bool)
    requires k <= |ms| && FinOnlyLast(ms, closed)
    ensures FinOnlyLast(ms[k..], closed)
  {
    assert forall i :: 0 <= i < |ms| - k ==> ms[k..][i] == ms[k + i];
  }

  /** The SYN leads, and only while the receiver has not seen it; the FIN is last and not lost. */
  ghost predicate Ordered(s: Half, r: Half) {
    var line, path := Line(s), Path(s, r);
    && (if r.phase.Fresh? && !s.phase.Fresh?
        then line != [] && line[0] == Syn(s.metadata) && NoSyn(line[1..])
        else NoSyn(line))
    && FinOnlyLast(path, s.phase.Closed?)
    && (s.phase.Closed? && Receiving(r) ==> EndsWithFin(path))
  }

  /** What the receiver's application has, what is on the way, and what was sent. */
  ghost predicate Transparent(s: Half, r: Half) {
    && (Receiving(r) ==> r.delivered + Rest(r) + Payload(Path(s, r)) == s.sent)
    && (!Receiving(r) ==> r.delivered <= s.sent)
    && (r.finished ==> s.phase.Closed? && !Receiving(r) && r.delivered == s.sent)
  }

  /** Every credit the receiver has granted is somewhere. */
  ghost predicate Conserved(s: Half, r: Half) {
    Receiving(r) ==>
      if Receiving(s)
      then s.permits + Held(s) + Count(Path(s, r)) + Busy(r) + Grant(Line(r)) == r.window.remote
      else Count(Path(s, r)) + Busy(r) <= r.window.remote
  }

  ghost predicate Flow(s: Half, r: Half) {
    Ordered(s, r) && Transparent(s, r) && Conserved(s, r)
  }

  /** Both ends know the stream by the same metadata. */
  predicate Agreed(a: Half, b: Half) {
    !a.phase.Fresh? && !b.phase.Fresh? ==> a.metadata == b.metadata
  }

  ghost predicate Inv(p: Pair) {
    && HalfOk(p.me) && HalfOk(p.peer) && Flow(p.me, p.peer) && Flow(p.peer, p.me)
    && Agreed(p.me, p.peer)
  }

  // ----- every step keeps the invariant

  lemma LineIsOrdered(s: Half, r: Half)
    requires Ordered(s, r)
    ensures FinOnlyLast(Line(s), s.phase.Closed?)
  {
    var line, path, k := Line(s), Path(s, r), |r.inbox|;
    assert forall i :: 0 <= i < |line| ==> path[k + i] == line[i];
  }

  /** Adding a frame other than the SYN to a line keeps it in order; the FIN closes it. */
  lemma LineGrows(s: Half, s': Half, r: Half, m: Msg)
    requires Ordered(s, r) && !s.phase.Closed? && !s.phase.Fresh? && !m.Syn?
    requires Line(s') == Line(s) + [m] && s'.metadata == s.metadata
    requires !s'.phase.Fresh? && s'.phase.Closed? == m.Fin?
    ensures Ordered(s', r)
  {
    LineIsOrdered(s, r);
    hide FinOnlyLast, EndsWithFin, NoSyn;
    assert Path(s', r) == Path(s, r) + [m];
    hide Path, Line;
    SnocStaysOrdered(Path(s, r), m);
    SnocStaysOrdered(Line(s), m);
  }

  /** What a half does with a body before it is sent only moves a permit. */
  lemma OutboundKeeps(p: Pair, outbound: Outbound, permits: nat)
    requires Inv(p) && p.me.phase.Live?
    requires permits + (if outbound.Holding? then 1 else 0) == p.me.permits + Held(p.me)
    ensures Inv(p.(me := p.me.(outbound := outbound, permits := permits)))
  {
    hide Payload, Count, Grant, Sane, FinOnlyLast, EndsWithFin, NoSyn;
    var me := p.me.(outbound := outbound, permits := permits);
    assert Line(me) == Line(p.me) && Path(me, p.peer) == Path(p.me, p.peer)
        && Path(p.peer, me) == Path(p.peer, p.me);
    assert Ordered(me, p.peer) && Ordered(p.peer, me);
    assert Transparent(me, p.peer) && Transparent(p.peer, me);
    assert Conserved(me, p.peer) && Conserved(p.peer, me);
  }

  lemma TakeOrAcquireKeeps(p: Pair, s: Step)
    requires Inv(p) && (s.Take? || s.Acquire?) && Next(p, s).Some?
    ensures Inv(Next(p, s).value)
  {
    hide Inv;
    var q := Next(p, s).value;
    OutboundKeeps(p, q.me.outbound, q.me.permits);
  }

  lemma PushKeeps(p: Pair)
    requires Inv(p) && Next(p, Push).Some?
    ensures Inv(Next(p, Push).value)
  {
    hide Payload, Count, Grant, Sane, FinOnlyLast, EndsWithFin, NoSyn;
    var q := Next(p, Push).value;
    var m := Psh(p.me.outbound.body);
    assert Line(q.me) == Line(p.me) + [m];
    assert Path(q.me, q.peer) == Path(p.me, p.peer) + [m];
    MeasuresSnoc(Path(p.me, p.peer), m);
    MeasuresSnoc(Line(p.me), m);
    LineGrows(p.me, q.me, p.peer, m);
    assert Ordered(q.peer, q.me);
  }

  lemma TransmitKeeps(p: Pair)
    requires Inv(p) && Next(p, Transmit).Some?
    ensures Inv(Next(p, Transmit).value)
  {
    hide Payload, Count, Grant, Sane, FinOnlyLast, EndsWithFin, NoSyn;
    var q := Next(p, Transmit).value;
    assert Line(q.me) == Line(p.me);
  }

  /** The oldest buffered frame becomes the one being written. */
  lemma DequeueDataMoves(p: Pair)
    requires Inv(p) && Next(p, Dequeue).Some? && p.me.inbox[0].Psh?
    ensures var q, path := Next(p, Dequeue).value, Path(p.peer, p.me);
            && q == Pair(p.me.(inbound := Some(p.me.inbox[0].body), inbox := p.me.inbox[1..]), p.peer)
            && p.me.phase.Live? && p.me.inbound.None?
            && path != [] && path[0] == p.me.inbox[0] && Path(q.peer, q.me) == path[1..]
            && Line(q.me) == Line(p.me) && Path(q.me, q.peer) == Path(p.me, p.peer)
  {
    hide Flow;
  }

  lemma DequeueDataStaysOrdered(p: Pair)
    requires Inv(p) && Next(p, Dequeue).Some? && p.me.inbox[0].Psh?
    ensures var q := Next(p, Dequeue).value; Ordered(q.me, q.peer) && Ordered(q.peer, q.me)
  {
    DequeueDataMoves(p);
    hide Transparent, Conserved, HalfOk, Next, Path, Line, FinOnlyLast, EndsWithFin, NoSyn;
    TailStaysOrdered(Path(p.peer, p.me), p.peer.phase.Closed?);
  }

  lemma DequeueDataStaysBalanced(p: Pair)
    requires Inv(p) && Next(p, Dequeue).Some? && p.me.inbox[0].Psh?
    ensures var q := Next(p, Dequeue).value;
            && Transparent(q.me, q.peer) && Conserved(q.me, q.peer)
            && Transparent(q.peer, q.me) && Conserved(q.peer, q.me)
  {
    DequeueDataMoves(p);
    hide Payload, Count, Grant, Ordered, HalfOk, Next, Path, Line;
    MeasuresHead(Path(p.peer, p.me));
  }

  lemma DequeueDataKeeps(p: Pair)
    requires Inv(p) && Next(p, Dequeue).Some? && p.me.inbox[0].Psh?
    ensures Inv(Next(p, Dequeue).value)
  {
    DequeueDataMoves(p);
    hide Ordered, Transparent, Conserved, Next;
    DequeueDataStaysOrdered(p);
    DequeueDataStaysBalanced(p);
  }

  /** When the FIN is dequeued nothing else is left on the way. */
  lemma FinIsLast(p: Pair)
    requires Inv(p) && p.me.inbox != [] && p.me.inbox[0].Fin?
    ensures p.me.inbox == [Fin] && Line(p.peer) == [] && p.peer.phase.Closed?
    ensures p.me.inbound.None? ==> p.me.delivered == p.peer.sent
  {
    var path := Path(p.peer, p.me);
    assert path[0] == p.me.inbox[0];
    assert path == [Fin];
    assert Payload(path) == [] by { assert path[1..] == []; }
  }

  lemma DequeueFinKeeps(p: Pair)
    requires Inv(p) && Next(p, Dequeue).Some? && p.me.inbox[0].Fin?
    ensures Inv(Next(p, Dequeue).value)
  {
    hide Payload, Count, Grant, Sane;
    FinIsLast(p);
    var q := Next(p, Dequeue).value;
    assert Path(q.me, q.peer) == Path(p.me, p.peer) && Path(q.peer, q.me) == [];
  }

  lemma WriteKeeps(p: Pair, n: nat)
    requires Inv(p) && Next(p, Write(n)).Some?
    ensures Inv(Next(p, Write(n)).value)
  {
    hide Payload, Count, Grant, Sane, FinOnlyLast, EndsWithFin, NoSyn;
    var q := Next(p, Write(n)).value;
    var rest := p.me.inbound.value;
    assert rest == rest[..n] + rest[n..];
  }

  lemma SettleKeeps(p: Pair, raw: nat)
    requires Inv(p) && Next(p, Settle(raw)).Some?
    ensures Inv(Next(p, Settle(raw)).value)
  {
    hide Payload, Count, Grant, Sane, FinOnlyLast, EndsWithFin, NoSyn;
    var q := Next(p, Settle(raw)).value;
    SettleKeepsSane(p.me.window, raw);
    var more := PicomuxWindow.Settle(p.me.window, raw).more;
    if more.Some? {
      var m := More(more.value);
      assert Line(q.me) == Line(p.me) + [m];
      assert Path(q.me, q.peer) == Path(p.me, p.peer) + [m];
      MeasuresSnoc(Path(p.me, p.peer), m);
      MeasuresSnoc(Line(p.me), m);
      LineGrows(p.me, q.me, p.peer, m);
    } else {
      assert Line(q.me) == Line(p.me);
    }
  }

  /** The half-line of a stopping receiver loses its buffer but nothing of what was delivered. */
  lemma EndKeeps(p: Pair)
    requires Inv(p) && Next(p, End).Some?
    ensures Inv(Next(p, End).value)
  {
    hide Payload, Count, Grant, Sane, FinOnlyLast, EndsWithFin, NoSyn;
    var q := Next(p, End).value;
    var path := Path(p.peer, p.me);
    assert Line(q.me) == Line(p.me) && Path(q.me, q.peer) == Path(p.me, p.peer);
    assert Path(q.peer, q.me) == path[|p.me.inbox|..];
    SuffixStaysOrdered(path, |p.me.inbox|, p.peer.phase.Closed?);
  }

  lemma AnnounceKeeps(p: Pair)
    requires Inv(p) && Next(p, Announce).Some?
    ensures Inv(Next(p, Announce).value)
  {
    hide Payload, Count, Grant, Sane, FinOnlyLast, EndsWithFin, NoSyn;
    var q := Next(p, Announce).value;
    assert Line(q.me) == Line(p.me) + [Fin];
    assert Path(q.me, q.peer) == Path(p.me, p.peer) + [Fin];
    MeasuresSnoc(Path(p.me, p.peer), Fin);
    MeasuresSnoc(Line(p.me), Fin);
    LineGrows(p.me, q.me, p.peer, Fin);
    assert Ordered(q.peer, q.me);
  }

  /** Between honest halves a delivery is never refused, and the "buffer is full" branch is dead. */
  lemma DeliveryAccepted(p: Pair)
    requires Inv(p) && p.me.wire != []
    ensures Next(p, Deliver).Some?
    ensures |p.peer.inbox| <= MAX_WINDOW + 1
  {
    assert Line(p.me)[0] == p.me.wire[0];
    InboxBounded(p);
  }

  lemma {:induction false} CountBuffered(ms: seq<Msg>)
    requires forall m :: m in ms ==> m.Psh? || m.Fin?
    requires forall i :: 0 <= i < |ms| - 1 ==> !ms[i].Fin?
    ensures |ms| <= Count(ms) + 1
  {
    if |ms| > 1 {
      assert ms[0] in ms;
      assert forall i :: 0 <= i < |ms| - 2 ==> ms[1..][i] == ms[i + 1];
      CountBuffered(ms[1..]);
    }
  }

  lemma InboxBounded(p: Pair)
    requires Inv(p)
    ensures |p.peer.inbox| <= MAX_WINDOW + 1
  {
    var inbox := p.peer.inbox;
    if p.peer.phase.Live? {
      var path := Path(p.me, p.peer);
      assert forall i :: 0 <= i < |inbox| ==> path[i] == inbox[i];
      CountBuffered(inbox);
      MeasuresAdd(inbox, Line(p.me));
    }
  }

  /** Delivering the SYN removes the head of the line and makes a new half at the other end. */
  lemma DeliverSynMoves(p: Pair)
    requires Inv(p) && p.me.wire != [] && p.me.wire[0].Syn?
    ensures Next(p, Deliver).Some? && p.peer == NEW && p.me.phase != Fresh
    ensures var q, line := Next(p, Deliver).value, Line(p.me);
            && q == Pair(p.me.(wire := p.me.wire[1..]), NEW.(phase := Live, metadata := p.me.metadata))
            && line != [] && line[0].Syn? && Line(q.me) == line[1..] && Line(q.peer) == []
            && Path(p.me, p.peer) == line && Path(q.me, q.peer) == line[1..]
            && Path(q.peer, q.me) == Path(p.peer, p.me) == p.me.inbox
  {
    hide Transparent, Conserved, Payload, Count, Grant, Sane;
    DeliveryAccepted(p);
    assert Line(p.me)[0] == p.me.wire[0];
  }

  lemma EmptyHasNoSyn()
    ensures NoSyn([])
  {
  }

  lemma OpenedLineIsOrdered(s: Half, r: Half, s': Half, r': Half)
    requires Ordered(s, r) && r == NEW && !s.phase.Fresh? && Path(s, r) == Line(s)
    requires s'.phase == s.phase && r'.phase.Live?
    requires Line(s') == Line(s)[1..] && Path(s', r') == Line(s)[1..]
    ensures Ordered(s', r')
  {
    hide Path, Line, FinOnlyLast, EndsWithFin, NoSyn;
    TailStaysOrdered(Line(s), s.phase.Closed?);
  }

  lemma DeliverSynStaysOrdered(p: Pair)
    requires Inv(p) && p.me.wire != [] && p.me.wire[0].Syn?
    ensures Next(p, Deliver).Some?
    ensures var q := Next(p, Deliver).value; Ordered(q.me, q.peer) && Ordered(q.peer, q.me)
  {
    DeliverSynMoves(p);
    var q := Next(p, Deliver).value;
    OpenedLineIsOrdered(p.me, p.peer, q.me, q.peer);
    hide Transparent, Conserved, HalfOk, Next, Path, Line, FinOnlyLast, EndsWithFin, NoSyn;
    EmptyHasNoSyn();
  }

  lemma DeliverSynStaysBalanced(p: Pair)
    requires Inv(p) && p.me.wire != [] && p.me.wire[0].Syn?
    ensures Next(p, Deliver).Some?
    ensures var q := Next(p, Deliver).value;
            && Transparent(q.me, q.peer) && Conserved(q.me, q.peer)
            && Transparent(q.peer, q.me) && Conserved(q.peer, q.me)
  {
    DeliverSynMoves(p);
    hide Payload, Count, Grant, Ordered, Next, Path, Line;
    MeasuresHead(Line(p.me));
  }

  lemma DeliverSynKeeps(p: Pair)
    requires Inv(p) && p.me.wire != [] && p.me.wire[0].Syn?
    ensures Next(p, Deliver).Some? && Inv(Next(p, Deliver).value)
  {
    DeliverSynMoves(p);
    hide Ordered, Transparent, Conserved, Next;
    DeliverSynStaysOrdered(p);
    DeliverSynStaysBalanced(p);
  }

  /** Removing a MORE from the middle of a path leaves the order of the rest. */
  lemma MoreLeavesOrder(inbox: seq<Msg>, line: seq<Msg>, closed: bool)
    requires line != [] && line[0].More? && FinOnlyLast(inbox + line, closed)
    ensures FinOnlyLast(inbox + line[1..], closed)
    ensures EndsWithFin(inbox + line) ==> EndsWithFin(inbox + line[1..])
    ensures NoSyn(line) ==> NoSyn(line[1..])
  {
    var path, rest, k := inbox + line, inbox + line[1..], |inbox|;
    assert forall i :: 0 <= i < |rest| ==> rest[i] == path[if i < k then i else i + 1];
  }

  lemma DeliverMoreMoves(p: Pair)
    requires Inv(p) && p.me.wire != [] && p.me.wire[0].More?
    ensures Next(p, Deliver).Some? && !p.peer.phase.Fresh?
    ensures var q, line := Next(p, Deliver).value, Line(p.me);
            && q.me == p.me.(wire := p.me.wire[1..])
            && q.peer == p.peer.(permits := q.peer.permits)
            && (p.peer.phase.Live? ==> q.peer.permits == p.peer.permits + line[0].quantum)
            && line != [] && line[0] == p.me.wire[0] && Line(q.me) == line[1..] && Line(q.peer) == Line(p.peer)
            && Path(p.me, p.peer) == p.peer.inbox + line && Path(q.me, q.peer) == p.peer.inbox + line[1..]
            && Path(q.peer, q.me) == Path(p.peer, p.me)
  {
    hide Transparent, Conserved, Payload, Count, Grant, Sane;
    DeliveryAccepted(p);
    assert Line(p.me)[0] == p.me.wire[0];
  }

  lemma DeliverMoreStaysOrdered(p: Pair)
    requires Inv(p) && p.me.wire != [] && p.me.wire[0].More?
    ensures Next(p, Deliver).Some?
    ensures var q := Next(p, Deliver).value; Ordered(q.me, q.peer) && Ordered(q.peer, q.me)
  {
    DeliverMoreMoves(p);
    hide Transparent, Conserved, HalfOk, Next, Path, Line, FinOnlyLast, EndsWithFin, NoSyn;
    MoreLeavesOrder(p.peer.inbox, Line(p.me), p.me.phase.Closed?);
  }

  lemma DeliverMoreStaysBalanced(p: Pair)
    requires Inv(p) && p.me.wire != [] && p.me.wire[0].More?
    ensures Next(p, Deliver).Some?
    ensures var q := Next(p, Deliver).value;
            && Transparent(q.me, q.peer) && Conserved(q.me, q.peer)
            && Transparent(q.peer, q.me) && Conserved(q.peer, q.me)
  {
    DeliverMoreMoves(p);
    hide Payload, Count, Grant, Ordered, Next, Path, Line;
    var line := Line(p.me);
    MeasuresHead(line);
    MeasuresAdd(p.peer.inbox, line);
    MeasuresAdd(p.peer.inbox, line[1..]);
  }

  lemma DeliverMoreKeeps(p: Pair)
    requires Inv(p) && p.me.wire != [] && p.me.wire[0].More?
    ensures Next(p, Deliver).Some? && Inv(Next(p, Deliver).value)
  {
    DeliverMoreMoves(p);
    hide Ordered, Transparent, Conserved, Next;
    DeliverMoreStaysOrdered(p);
    DeliverMoreStaysBalanced(p);
  }

  /** Delivering data or the FIN moves it to the buffer of a live half, and drops it otherwise. */
  lemma DeliverFrameMoves(p: Pair)
    requires Inv(p) && p.me.wire != [] && (p.me.wire[0].Psh? || p.me.wire[0].Fin?)
    ensures Next(p, Deliver).Some? && !p.peer.phase.Fresh?
    ensures var q, line := Next(p, Deliver).value, Line(p.me);
            && q.me == p.me.(wire := p.me.wire[1..])
            && q.peer == p.peer.(inbox := q.peer.inbox)
            && line != [] && line[0] == p.me.wire[0] && Line(q.me) == line[1..] && Line(q.peer) == Line(p.peer)
            && (p.peer.phase.Live? ==>
                  q.peer.inbox == p.peer.inbox + [line[0]] && Path(q.me, q.peer) == Path(p.me, p.peer))
            && (!p.peer.phase.Live? ==>
                  q.peer == p.peer && Path(p.me, p.peer) == line && Path(q.me, q.peer) == line[1..])
            && Path(q.peer, q.me) == Path(p.peer, p.me)
  {
    hide Transparent, Conserved, Payload, Count, Grant, Sane;
    DeliveryAccepted(p);
    assert Line(p.me)[0] == p.me.wire[0];
  }

  lemma DeliverFrameStaysOrdered(p: Pair)
    requires Inv(p) && p.me.wire != [] && (p.me.wire[0].Psh? || p.me.wire[0].Fin?)
    ensures Next(p, Deliver).Some?
    ensures var q := Next(p, Deliver).value; Ordered(q.me, q.peer) && Ordered(q.peer, q.me)
  {
    DeliverFrameMoves(p);
    hide Transparent, Conserved, HalfOk, Next, Path, Line, FinOnlyLast, EndsWithFin, NoSyn;
    LineIsOrdered(p.me, p.peer);
    TailStaysOrdered(Line(p.me), p.me.phase.Closed?);
  }

  lemma DeliverFrameStaysBalanced(p: Pair)
    requires Inv(p) && p.me.wire != [] && (p.me.wire[0].Psh? || p.me.wire[0].Fin?)
    ensures Next(p, Deliver).Some?
    ensures var q := Next(p, Deliver).value;
            && Transparent(q.me, q.peer) && Conserved(q.me, q.peer)
            && Transparent(q.peer, q.me) && Conserved(q.peer, q.me)
  {
    DeliverFrameMoves(p);
    hide Payload, Count, Grant, Ordered, Next, Path, Line;
    MeasuresHead(Line(p.me));
  }

  lemma DeliverFrameKeeps(p: Pair)
    requires Inv(p) && p.me.wire != [] && (p.me.wire[0].Psh? || p.me.wire[0].Fin?)
    ensures Next(p, Deliver).Some? && Inv(Next(p, Deliver).value)
  {
    DeliverFrameMoves(p);
    hide Ordered, Transparent, Conserved, Next;
    DeliverFrameStaysOrdered(p);
    DeliverFrameStaysBalanced(p);
  }

  lemma OpenerFlowOk(h: Half, n: Half, metadata: seq<byte>)
    requires n == NEW && h == Opener(metadata)
    ensures Flow(h, n)
  {
    hide Payload, Count, Grant;
    var syn := [Syn(metadata)];
    assert syn[1..] == [];
    assert Path(h, n) == syn && Line(h) == syn && Line(n) == [];
    MeasuresHead(syn);
    MeasuresOfNothing();
    assert Ordered(h, n);
    assert Transparent(h, n);
    assert Conserved(h, n);
  }

  lemma OpenedFlowOk(h: Half, n: Half, metadata: seq<byte>)
    requires n == NEW && h == Opener(metadata)
    ensures Flow(n, h)
  {
    hide Payload, Count, Grant;
    var syn := [Syn(metadata)];
    assert syn[1..] == [];
    assert Path(n, h) == [] && Line(h) == syn && Line(n) == [];
    MeasuresHead(syn);
    MeasuresOfNothing();
    assert Ordered(n, h);
    assert Transparent(n, h);
    assert Conserved(n, h);
  }

  lemma OpenKeeps(p: Pair, metadata: seq<byte>)
    requires Next(p, Open(metadata)).Some?
    ensures Inv(Next(p, Open(metadata)).value)
  {
    hide Flow;
    OpenerFlowOk(Opener(metadata), NEW, metadata);
    OpenedFlowOk(Opener(metadata), NEW, metadata);
  }

  lemma StepKeepsInv(p: Pair, s: Step)
    requires Inv(p) && Next(p, s).Some?
    ensures Inv(Next(p, s).value)
  {
    hide Inv;
    match s
    case Open(metadata) => OpenKeeps(p, metadata);
    case Take(_) => TakeOrAcquireKeeps(p, s);
    case Acquire => TakeOrAcquireKeeps(p, s);
    case Push => PushKeeps(p);
    case Transmit => TransmitKeeps(p);
    case Deliver =>
      if p.me.wire[0].Syn? {
        DeliverSynKeeps(p);
      } else if p.me.wire[0].More? {
        DeliverMoreKeeps(p);
      } else {
        DeliverFrameKeeps(p);
      }
    case Dequeue =>
      if p.me.inbox[0].Psh? {
        DequeueDataKeeps(p);
      } else {
        DequeueFinKeeps(p);
      }
    case Write(n) => WriteKeeps(p, n);
    case Settle(raw) => SettleKeeps(p, raw);
    case End => EndKeeps(p);
    case Announce => AnnounceKeeps(p);
  }

  // ----- whole runs

  datatype Action = Left(step: Step) | Right(step: Step)

  function Swap(p: Pair): Pair {
    Pair(p.peer, p.me)
  }

  /** In a run the pair is (left half, right half). */
  function Perform(p: Pair, a: Action): Option<Pair> {
    match a
    case Left(s) => Next(p, s)
    case Right(s) => (match Next(Swap(p), s) case None => None case Some(q) => Some(Swap(q)))
  }

  function Run(p: Pair, acts: seq<Action>): Option<Pair>
    decreases |acts|
  {
    if acts == [] then Some(p)
    else match Perform(p, acts[0])
      case None => None
      case Some(q) => Run(q, acts[1..])
  }

  lemma PerformKeepsInv(p: Pair, a: Action)
    requires Inv(p) && Perform(p, a).Some?
    ensures Inv(Perform(p, a).value)
  {
    match a
    case Left(s) => StepKeepsInv(p, s);
    case Right(s) => StepKeepsInv(Swap(p), s);
  }

  lemma {:induction false} RunKeepsInv(p: Pair, acts: seq<Action>)
    requires Inv(p) && Run(p, acts).Some?
    ensures Inv(Run(p, acts).value)
    decreases |acts|
  {
    hide Inv, Perform;
    if acts != [] {
      PerformKeepsInv(p, acts[0]);
      RunKeepsInv(Perform(p, acts[0]).value, acts[1..]);
    }
  }

  lemma NewPairOk()
    ensures Inv(Pair(NEW, NEW))
  {
    assert Line(NEW) == [] == Path(NEW, NEW);
  }

  // ----- from what the application hands over to what the other one gets

  function Body(o: Outbound): seq<byte> {
    if o.Idle? then [] else o.body
  }

  /** All that a half has been given so far, sent or not. */
  function Offered(h: Half): seq<byte> {
    h.sent + Body(h.outbound)
  }

  /** While a half is running everything it was handed is in PSH frames or about to be. */
  ghost predicate Booked(h: Half, taken: seq<byte>) {
    Offered(h) <= taken && (Receiving(h) ==> Offered(h) == taken)
  }

  /**
   The bytes handed to one side by the steps of a run, `sofar` before it. Opening a stream
   starts over.
   */
  function TakenAfter(acts: seq<Action>, left: bool, sofar: seq<byte>): seq<byte> {
    if acts == [] then sofar
    else TakenAfter(acts[1..], left, TakenBy(acts[0], left, sofar))
  }

  function TakenBy(a: Action, left: bool, sofar: seq<byte>): seq<byte> {
    if a.step.Open? then []
    else if a.step.Take? && a.Left? == left then sofar + a.step.body
    else sofar
  }

  lemma StepKeepsBooks(p: Pair, s: Step, mine: seq<byte>, theirs: seq<byte>)
    requires Inv(p) && Next(p, s).Some? && Booked(p.me, mine) && Booked(p.peer, theirs)
    ensures Booked(Next(p, s).value.me, TakenBy(Left(s), true, mine))
    ensures Booked(Next(p, s).value.peer, TakenBy(Left(s), false, theirs))
  {
    hide Payload, Count, Grant, Sane, Transparent, Conserved, PicomuxWindow.Settle;
    if s.Deliver? {
      assert Line(p.me)[0] == p.me.wire[0];
    }
  }

  lemma PerformKeepsBooks(p: Pair, a: Action, left: seq<byte>, right: seq<byte>)
    requires Inv(p) && Perform(p, a).Some? && Booked(p.me, left) && Booked(p.peer, right)
    ensures Booked(Perform(p, a).value.me, TakenBy(a, true, left))
    ensures Booked(Perform(p, a).value.peer, TakenBy(a, false, right))
  {
    hide Booked, Next, Flow, HalfOk;
    match a
    case Left(s) => StepKeepsBooks(p, s, left, right);
    case Right(s) => StepKeepsBooks(Swap(p), s, right, left);
  }

  lemma {:induction false} RunKeepsBooks(p: Pair, acts: seq<Action>, left: seq<byte>, right: seq<byte>)
    requires Inv(p) && Run(p, acts).Some? && Booked(p.me, left) && Booked(p.peer, right)
    ensures Booked(Run(p, acts).value.me, TakenAfter(acts, true, left))
    ensures Booked(Run(p, acts).value.peer, TakenAfter(acts, false, right))
    decreases |acts|
  {
    hide Inv, Perform, Booked;
    if acts != [] {
      PerformKeepsInv(p, acts[0]);
      PerformKeepsBooks(p, acts[0], left, right);
      RunKeepsBooks(Perform(p, acts[0]).value, acts[1..],
                    TakenBy(acts[0], true, left), TakenBy(acts[0], false, right));
    }
  }

  /** What has been delivered is a prefix of what was handed over. */
  lemma DeliveredWasTaken(p: Pair, taken: seq<byte>)
    requires Inv(p) && Booked(p.me, taken)
    ensures p.peer.delivered <= taken
  {
    hide Ordered, Conserved, HalfOk;
  }

  // ----- progress

  /** Steps of the multiplexer itself, as opposed to the applications at its two ends. */
  predicate Internal(s: Step) {
    !s.Open? && !s.Take? && !s.End?
  }

  function Weight(m: Msg): nat {
    match m
    case Syn(_) => 30
    case Psh(body) => |body| + 10
    case More(_) => 2
    case Fin => 2
  }

  function Weigh(ms: seq<Msg>, stage: nat): nat {
    if ms == [] then 0 else Weight(ms[0]) + stage + Weigh(ms[1..], stage)
  }

  lemma {:induction false} WeighSnoc(ms: seq<Msg>, m: Msg, stage: nat)
    ensures Weigh(ms + [m], stage) == Weigh(ms, stage) + Weight(m) + stage
  {
    if ms == [] {
      assert ms + [m] == [m] && [m][1..] == [];
    } else {
      assert (ms + [m])[1..] == ms[1..] + [m];
      WeighSnoc(ms[1..], m, stage);
    }
  }

  function PhaseWork(ph: Phase): nat {
    match ph case Fresh => 0 case Live => 20 case Ended => 10 case Closed => 0
  }

  /** An upper bound on the internal steps a half can still take or cause. */
  function HalfWork(h: Half): nat {
    PhaseWork(h.phase)
    + (match h.outbound case Idle => 0 case Waiting(b) => |b| + 14 case Holding(b) => |b| + 13)
    + (match h.inbound case None => 0 case Some(rest) => |rest| + 7)
    + Weigh(h.inbox, 0) + Weigh(h.wire, 1) + Weigh(h.queue, 2)
  }

  function Work(p: Pair): nat {
    HalfWork(p.me) + HalfWork(p.peer)
  }

  lemma WeighHead(ms: seq<Msg>, stage: nat)
    ensures Weigh(ms, stage) == if ms == [] then 0 else Weight(ms[0]) + stage + Weigh(ms[1..], stage)
  {
  }

  lemma ActShrinks(h: Half, s: Step)
    requires Internal(s) && Act(h, s).Some?
    ensures HalfWork(Act(h, s).value) < HalfWork(h)
  {
    hide Weigh, PicomuxWindow.Settle;
    match s
    case Push => WeighSnoc(h.queue, Psh(h.outbound.body), 2);
    case Transmit =>
      WeighHead(h.queue, 2);
      WeighSnoc(h.wire, h.queue[0], 1);
    case Settle(raw) =>
      var more := PicomuxWindow.Settle(h.window, raw).more;
      if more.Some? {
        WeighSnoc(h.queue, More(more.value), 2);
      } else {
        assert h.queue + [] == h.queue;
      }
    case Dequeue =>
      WeighHead(h.inbox, 0);
      WeighHead([], 0);
    case Announce => WeighSnoc(h.queue, Fin, 2);
    case _ =>
  }

  lemma ReceiveGrows(h: Half, m: Msg)
    requires Receive(h, m).Some?
    requires h.phase.Live? || (h.inbox == [] && h.inbound.None? && h.outbound.Idle?)
    ensures HalfWork(Receive(h, m).value) <= HalfWork(h) + Weight(m)
  {
    if m.Psh? || m.Fin? {
      WeighSnoc(h.inbox, m, 0);
    }
  }

  lemma DeliverShrinks(p: Pair)
    requires HalfOk(p.peer) && Next(p, Deliver).Some?
    ensures Work(Next(p, Deliver).value) < Work(p)
  {
    hide Receive;
    ReceiveGrows(p.peer, p.me.wire[0]);
  }

  lemma InternalStepShrinks(p: Pair, a: Action)
    requires Inv(p) && Internal(a.step) && Perform(p, a).Some?
    ensures Work(Perform(p, a).value) < Work(p)
  {
    hide Act, HalfWork, Receive, Flow;
    var p' := if a.Left? then p else Swap(p);
    if a.step.Deliver? {
      DeliverShrinks(p');
    } else {
      ActShrinks(p'.me, a.step);
    }
  }

  /** Left alone by the applications, the multiplexer comes to rest within `Work` steps. */
  lemma {:induction false} InternalRunsAreFinite(p: Pair, acts: seq<Action>)
    requires Inv(p) && Run(p, acts).Some?
    requires forall i :: 0 <= i < |acts| ==> Internal(acts[i].step)
    ensures |acts| <= Work(p)
    decreases |acts|
  {
    hide Inv, Perform, Work;
    if acts != [] {
      PerformKeepsInv(p, acts[0]);
      InternalStepShrinks(p, acts[0]);
      InternalRunsAreFinite(Perform(p, acts[0]).value, acts[1..]);
    }
  }

  /** Internal steps that wait for nobody. Writing waits for the application to read. */
  predicate Prompt(s: Step) {
    Internal(s) && !s.Write?
  }

  /** Both ends are running, or one is and the other has not seen the SYN yet. */
  predicate Connected(p: Pair) {
    Receiving(p.me) && Receiving(p.peer) && (p.me.phase.Live? || p.peer.phase.Live?)
  }

  predicate StaysLive(h: Half, h': Half) {
    h.phase.Live? ==> h'.phase.Live? && h'.metadata == h.metadata
  }

  lemma InternalStepStaysConnected(p: Pair, s: Step)
    requires Inv(p) && Connected(p) && Internal(s) && Next(p, s).Some?
    ensures Connected(Next(p, s).value)
    ensures StaysLive(p.me, Next(p, s).value.me) && StaysLive(p.peer, Next(p, s).value.peer)
  {
    hide Payload, Count, Grant, Sane, Transparent, Conserved, PicomuxWindow.Settle;
    if s.Deliver? {
      assert Line(p.me)[0] == p.me.wire[0];
    }
    if s.Dequeue? {
      assert Path(p.peer, p.me)[0] == p.me.inbox[0];
    }
  }

  /** The multiplexer itself never ends a stream, and loses nothing of what it was handed. */
  lemma {:induction false} InternalRunStaysConnected(p: Pair, acts: seq<Action>)
    requires Inv(p) && Connected(p) && Run(p, acts).Some?
    requires forall i :: 0 <= i < |acts| ==> Internal(acts[i].step)
    ensures var q := Run(p, acts).value;
            && Connected(q) && Offered(q.me) == Offered(p.me) && Offered(q.peer) == Offered(p.peer)
            && StaysLive(p.me, q.me) && StaysLive(p.peer, q.peer)
    decreases |acts|
  {
    hide Inv, Perform, Offered, Connected;
    if acts != [] {
      var q := Perform(p, acts[0]).value;
      PerformKeepsInv(p, acts[0]);
      InternalActionStaysConnected(p, acts[0]);
      InternalRunStaysConnected(q, acts[1..]);
    }
  }

  lemma InternalActionStaysConnected(p: Pair, a: Action)
    requires Inv(p) && Connected(p) && Internal(a.step) && Perform(p, a).Some?
    ensures var q := Perform(p, a).value;
            && Connected(q) && Offered(q.me) == Offered(p.me) && Offered(q.peer) == Offered(p.peer)
            && StaysLive(p.me, q.me) && StaysLive(p.peer, q.peer)
  {
    hide Next, Flow, HalfOk;
    PerformKeepsBooks(p, a, Offered(p.me), Offered(p.peer));
    match a
    case Left(s) => InternalStepStaysConnected(p, s);
    case Right(s) => InternalStepStaysConnected(Swap(p), s);
  }

  /** One end has stopped; the other has not, or has stopped because it was told. */
  predicate Closing(p: Pair) {
    !Receiving(p.me) && (Receiving(p.peer) || p.peer.finished)
  }

  lemma InternalActionStaysClosing(p: Pair, a: Action)
    requires Inv(p) && Closing(p) && Internal(a.step) && Perform(p, a).Some?
    ensures Closing(Perform(p, a).value) && Perform(p, a).value.me.sent == p.me.sent
  {
    hide Payload, Count, Grant, Sane, Transparent, Conserved, PicomuxWindow.Settle;
    if a.step.Deliver? {
      assert p.me.wire != [] ==> Line(p.me)[0] == p.me.wire[0];
      assert p.peer.wire != [] ==> Line(p.peer)[0] == p.peer.wire[0];
    }
  }

  lemma {:induction false} InternalRunStaysClosing(p: Pair, acts: seq<Action>)
    requires Inv(p) && Closing(p) && Run(p, acts).Some?
    requires forall i :: 0 <= i < |acts| ==> Internal(acts[i].step)
    ensures Closing(Run(p, acts).value) && Run(p, acts).value.me.sent == p.me.sent
    decreases |acts|
  {
    hide Inv, Perform, Closing;
    if acts != [] {
      PerformKeepsInv(p, acts[0]);
      InternalActionStaysClosing(p, acts[0]);
      InternalRunStaysClosing(Perform(p, acts[0]).value, acts[1..]);
    }
  }

  ghost predicate AtRest(p: Pair) {
    forall s :: Prompt(s) ==> Next(p, s).None? && Next(Swap(p), s).None?
  }

  /** The application has not made room for the rest of the frame being written to it. */
  predicate AwaitsReader(inbound: Option<seq<byte>>) {
    inbound.Some? && inbound.value != []
  }

  /**
   No window deadlock: at rest between two live halves, unless the receiving application has
   stopped reading, nothing is held back anywhere, every byte handed over has reached it, and
   the sender holds the whole window it was granted, which is at least eight frames. Whether
   the sender's own application reads does not matter.
   */
  lemma RestMeansDelivered(p: Pair)
    requires Inv(p) && AtRest(p) && p.me.phase.Live? && p.peer.phase.Live?
    requires !AwaitsReader(p.peer.inbound)
    ensures p.me.outbound.Idle? && p.me.queue == [] && p.me.wire == [] && p.peer.inbox == []
    ensures p.peer.inbound.None?
    ensures p.peer.delivered == p.me.sent
    ensures p.me.permits == p.peer.window.remote >= 8
  {
    HalfAtRest(p);
    HalfAtRest(Swap(p));
    assert Path(p.me, p.peer) == [] && Line(p.peer) == [];
  }

  /** At rest every line is empty: queued frames can always move, and delivery is never refused. */
  lemma LinesAtRest(p: Pair)
    requires Inv(p) && AtRest(p)
    ensures Line(p.me) == []
  {
    hide Inv;
    assert Next(p, Transmit).None? && Next(p, Deliver).None? by {
      assert Prompt(Transmit) && Prompt(Deliver);
    }
    if p.me.wire != [] {
      DeliveryAccepted(p);
      assert false;
    }
  }

  /** A stream that is being opened is open at both ends once nothing moves. */
  lemma RestMeansOpen(p: Pair)
    requires Inv(p) && AtRest(p) && Connected(p)
    ensures p.me.phase.Live? && p.peer.phase.Live? && p.me.metadata == p.peer.metadata
  {
    hide Transparent, Conserved, HalfOk;
    LinesAtRest(p);
    LinesAtRest(Swap(p));
  }

  /**
   The FIN arrives, and after everything else: once nothing moves, the other end has been told
   and its application has every byte that was sent.
   */
  lemma RestMeansClosed(p: Pair)
    requires Inv(p) && AtRest(p) && Closing(p) && !AwaitsReader(p.peer.inbound)
    ensures p.me.phase.Closed? && p.peer.phase.Closed?
    ensures p.peer.finished && p.peer.delivered == p.me.sent
  {
    LinesAtRest(p);
    LinesAtRest(Swap(p));
    hide Payload, Count, Grant, Sane, Conserved;
    AnnouncedAtRest(p);
    AnnouncedAtRest(Swap(p));
    if p.peer.phase.Live? {
      HalfAtRest(Swap(p));
      assert false;
    }
  }

  lemma AnnouncedAtRest(p: Pair)
    requires AtRest(p)
    ensures !p.me.phase.Ended?
  {
    assert Prompt(Announce) && Next(p, Announce).None?;
  }

  /** Nothing left for this half to do until an application acts. */
  predicate Drained(h: Half) {
    && h.queue == [] && h.wire == []
    && (AwaitsReader(h.inbound) || (h.inbox == [] && h.inbound.None?))
    && !h.outbound.Holding? && (h.outbound.Waiting? ==> h.permits == 0)
  }

  /** A live half that is not drained always has a step to take that waits for nobody. */
  lemma BusyHalfCanStep(p: Pair) returns (s: Step)
    requires Inv(p) && p.me.phase.Live? && !Drained(p.me)
    ensures Prompt(s) && Next(p, s).Some?
  {
    hide Flow;
    if p.me.queue != [] {
      s := Transmit;
    } else if p.me.wire != [] {
      DeliveryAccepted(p);
      s := Deliver;
    } else if p.me.outbound.Holding? {
      s := Push;
    } else if p.me.inbound == Some([]) {
      s := Settle(0);
    } else if p.me.inbound.None? && p.me.inbox != [] {
      assert p.me.inbox[0] in p.me.inbox;
      s := Dequeue;
    } else {
      s := Acquire;
    }
  }

  lemma HalfAtRest(p: Pair)
    requires Inv(p) && AtRest(p) && p.me.phase.Live?
    ensures Drained(p.me)
  {
    hide Inv, Drained, Next;
    if !Drained(p.me) {
      var s := BusyHalfCanStep(p);
      assert false;
    }
  }
}
