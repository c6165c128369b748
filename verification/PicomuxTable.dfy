/**
 The table of per-stream buffers inside a mux: for each stream the channel of frames waiting
 for the application and the semaphore holding the permits for sending.
 */
module PicomuxTable {
  import opened Common
  import opened PicomuxFrame
  import opened PicomuxWindow

  datatype Entry = Entry(inbox: seq<Frame>, permits: nat)

  type Table = map<StreamId, Entry>

  /** `create_entry`, replacing any entry of the same id. */
  function Create(t: Table, id: StreamId): Table {
    t[id := Entry([], INIT_WINDOW)]
  }

  /** `send_to`: frames for unknown streams and for over-full buffers are dropped. */
  function SendTo(t: Table, id: StreamId, f: Frame): Table {
    if id !in t || |t[id].inbox| > MAX_WINDOW * 2 then t
    else t[id := t[id].(inbox := t[id].inbox + [f])]
  }

  /** `wait_send_window`, at the moment it completes; `None` while it waits. */
  function Acquire(t: Table, id: StreamId): Option<Table> {
    if id !in t || t[id].permits == 0 then None
    else Some(t[id := t[id].(permits := t[id].permits - 1)])
  }

  /** `incr_send_window`. */
  function Release(t: Table, id: StreamId, amount: nat): Table {
    if id !in t then t else t[id := t[id].(permits := t[id].permits + amount)]
  }

  /** `BufferReceive::recv`, at the moment it completes; `None` while it waits. */
  function Recv(t: Table, id: StreamId): Option<(Frame, Table)> {
    if id !in t || t[id].inbox == [] then None
    else Some((t[id].inbox[0], t[id := t[id].(inbox := t[id].inbox[1..])]))
  }

  /** `Drop for BufferReceive`. */
  function Remove(t: Table, id: StreamId): Table {
    t - {id}
  }

  /** No buffer ever holds more than `2 * MAX_WINDOW + 1` frames. */
  ghost predicate Bounded(t: Table) {
    forall id :: id in t ==> |t[id].inbox| <= MAX_WINDOW * 2 + 1
  }

  /** An arbitrary peer and arbitrary local callers cannot overfill a buffer. */
  datatype Call =
    | CallCreate(id: StreamId)
    | CallSendTo(id: StreamId, frame: Frame)
    | CallAcquire(id: StreamId)
    | CallRelease(id: StreamId, amount: nat)
    | CallRecv(id: StreamId)
    | CallRemove(id: StreamId)

  function Apply(t: Table, c: Call): Table {
    match c
    case CallCreate(id) => Create(t, id)
    case CallSendTo(id, f) => SendTo(t, id, f)
    case CallAcquire(id) => (match Acquire(t, id) case None => t case Some(t') => t')
    case CallRelease(id, n) => Release(t, id, n)
    case CallRecv(id) => (match Recv(t, id) case None => t case Some((_, t')) => t')
    case CallRemove(id) => Remove(t, id)
  }

  function ApplyAll(t: Table, calls: seq<Call>): Table
    decreases |calls|
  {
    if calls == [] then t else ApplyAll(Apply(t, calls[0]), calls[1..])
  }

  lemma {:induction false} BuffersStayBounded(t: Table, calls: seq<Call>)
    requires Bounded(t)
    ensures Bounded(ApplyAll(t, calls))
    decreases |calls|
  {
    if calls != [] {
      BuffersStayBounded(Apply(t, calls[0]), calls[1..]);
    }
  }

  /** A frame for a known stream is kept, behind those before it, unless 3000 are waiting already. */
  lemma FramesAreKept(t: Table, id: StreamId, f: Frame)
    requires id in t
    ensures |t[id].inbox| <= 3000 ==>
              SendTo(t, id, f) == t[id := Entry(t[id].inbox + [f], t[id].permits)]
    ensures |t[id].inbox| > 3000 ==> SendTo(t, id, f) == t
  {
  }

  /** What is taken out is what was put in first, and a new stream starts with ten permits. */
  lemma EntryLifeCycle(t: Table, id: StreamId, f: Frame, g: Frame, amount: nat)
    ensures var blank := Create(t, id);
            var full := SendTo(SendTo(blank, id, f), id, g);
            && Recv(blank, id).None? && Recv(full, id) == Some((f, SendTo(blank, id, g)))
            && Acquire(Release(blank, id, amount), id).value[id].permits == 9 + amount
            && id !in Remove(full, id)
  {
    var blank := Create(t, id);
    var none: seq<Frame> := [];
    assert none + [f] == [f] && none + [g] == [g] && [f] + [g] == [f, g];
    assert SendTo(blank, id, f) == t[id := Entry([f], 10)];
    assert SendTo(blank, id, g) == t[id := Entry([g], 10)];
    assert SendTo(SendTo(blank, id, f), id, g) == t[id := Entry([f, g], 10)];
    assert [f, g][1..] == [g];
    assert t[id := Entry([f, g], 10)][id := Entry([g], 10)] == t[id := Entry([g], 10)];
  }

  /** A call for one stream leaves every other stream's entry alone. */
  lemma CallsAreIndependent(t: Table, c: Call, other: StreamId)
    requires c.id != other
    ensures other in Apply(t, c) <==> other in t
    ensures other in t ==> Apply(t, c)[other] == t[other]
  {
  }

  /** The shared table, changed in place. */
  class BufferTable {
    var inner: Table

    constructor ()
      ensures inner == map[]
    {
      inner := map[];
    }

    method ContainsId(id: StreamId) returns (b: bool)
      ensures b <==> id in inner
    {
      b := id in inner;
    }

    method CreateEntry(id: StreamId)
      modifies this
      ensures inner == Create(old(inner), id)
      ensures Bounded(old(inner)) ==> Bounded(inner)
    {
      inner := inner[id := Entry([], INIT_WINDOW)];
    }

    method SendFrame(id: StreamId, f: Frame)
      modifies this
      ensures inner == SendTo(old(inner), id, f)
      ensures Bounded(old(inner)) ==> Bounded(inner)
    {
      if id in inner {
        var e := inner[id];
        if |e.inbox| > MAX_WINDOW * 2 {
          // the buffer is full: the message is dropped
        } else {
          inner := inner[id := Entry(e.inbox + [f], e.permits)];
        }
      }
    }

    /** One poll of `wait_send_window`. */
    method TryAcquire(id: StreamId) returns (acquired: bool)
      modifies this
      ensures acquired <==> Acquire(old(inner), id).Some?
      ensures inner == if acquired then Acquire(old(inner), id).value else old(inner)
    {
      acquired := false;
      if id in inner {
        var e := inner[id];
        if e.permits > 0 {
          inner := inner[id := Entry(e.inbox, e.permits - 1)];
          acquired := true;
        }
      }
    }

    method IncrSendWindow(id: StreamId, amount: nat)
      modifies this
      ensures inner == Release(old(inner), id, amount)
    {
      if id in inner {
        var e := inner[id];
        inner := inner[id := Entry(e.inbox, e.permits + amount)];
      }
    }

    /** One poll of `BufferReceive::recv`. */
    method TryRecv(id: StreamId) returns (frame: Option<Frame>)
      modifies this
      ensures match Recv(old(inner), id)
              case None => frame.None? && inner == old(inner)
              case Some((f, t)) => frame == Some(f) && inner == t
    {
      frame := None;
      if id in inner {
        var e := inner[id];
        if |e.inbox| > 0 {
          frame := Some(e.inbox[0]);
          inner := inner[id := Entry(e.inbox[1..], e.permits)];
        }
      }
    }

    method DropReceiver(id: StreamId)
      modifies this
      ensures inner == Remove(old(inner), id)
    {
      inner := inner - {id};
    }
  }
}
