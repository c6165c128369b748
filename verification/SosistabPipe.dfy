/**
 The sosistab3 pipe: polled writes that may be accepted in pieces, polled reads that decrypt
 whatever has arrived, and the end-to-end guarantee over every schedule of both.
 */
module SosistabPipe {
  import opened Common
  import opened SosistabRecord

  // ----- the lower pipe, as the answers it gives to successive polls

  /** `Accepted(n)` takes at most the bytes offered; after the last answer it is pending. */
  datatype LowerWrite = WriteBlocked | Accepted(n: nat) | WriteFailed

  /** `Arrived([])` is end of file. */
  datatype LowerRead = ReadBlocked | Arrived(bytes: seq<byte>) | ReadFailed

  datatype WritePoll = WritePending | Written(n: nat) | WriteError

  datatype ReadPoll = ReadPending | Got(bytes: seq<byte>) | ReadError

  // ----- writing

  datatype WriteSide = WriteSide(cipher: Cipher, obfs: bool, nonce: nat, toWrite: seq<byte>)

  /** Result of draining a buffer: what the lower pipe took and what is left. */
  datatype Drain = Drain(poll: WritePoll, wrote: seq<byte>, left: seq<byte>)

  /** The loop of `poll_write` for a caller's buffer of `len` bytes. */
  function WriteLoop(toWrite: seq<byte>, len: nat, lower: seq<LowerWrite>): Drain
    decreases |lower|
  {
    if lower == [] then
      Drain(WritePending, [], toWrite)
    else
      match lower[0]
      case WriteBlocked => Drain(WritePending, [], toWrite)
      case WriteFailed => Drain(WriteError, [], toWrite)
      case Accepted(n) =>
        var m := Min(n, |toWrite|);
        if m == |toWrite| then
          Drain(Written(len), toWrite, [])
        else
          var d := WriteLoop(toWrite[m..], len, lower[1..]);
          d.(wrote := toWrite[..m] + d.wrote)
  }

  datatype WriteStep = WriteStep(side: WriteSide, poll: WritePoll, wrote: seq<byte>)

  /** `poll_write`: a new buffer is encrypted only when the previous one has gone out. */
  function PollWrite(w: WriteSide, buf: seq<byte>, jitter: nat, lower: seq<LowerWrite>): WriteStep
    requires jitter < 10
  {
    var w' := if w.toWrite != [] then w else
      w.(toWrite := Encrypt(w.cipher, w.nonce, buf, w.obfs, jitter),
         nonce := w.nonce + 2 * RecordCount(|buf|, w.obfs));
    var d := WriteLoop(w'.toWrite, |buf|, lower);
    WriteStep(w'.(toWrite := d.left), d.poll, d.wrote)
  }

  /** One turn of the write loop: it stops, or goes on with what the lower pipe left. */
  lemma WriteLoopTurn(toWrite: seq<byte>, len: nat, lower: seq<LowerWrite>)
    ensures var whole := WriteLoop(toWrite, len, lower);
            if lower == [] || lower[0].WriteBlocked? then
              whole == Drain(WritePending, [], toWrite)
            else if lower[0].WriteFailed? then
              whole == Drain(WriteError, [], toWrite)
            else if lower[0].n >= |toWrite| then
              whole == Drain(Written(len), toWrite, [])
            else
              var m := lower[0].n;
              var d := WriteLoop(toWrite[m..], len, lower[1..]);
              whole == d.(wrote := toWrite[..m] + d.wrote)
  {
  }

  /** What the lower pipe took is exactly what left the buffer; `Written` means all of it went. */
  lemma {:induction false} WriteLoopConserves(toWrite: seq<byte>, len: nat, lower: seq<LowerWrite>)
    ensures var d := WriteLoop(toWrite, len, lower);
            && d.wrote + d.left == toWrite
            && (toWrite != [] ==> (d.poll.Written? <==> d.left == []))
            && (d.poll.Written? ==> d.poll.n == len)
    decreases |lower|
  {
    hide WriteLoop;
    WriteLoopTurn(toWrite, len, lower);
    if lower != [] && lower[0].Accepted? && lower[0].n < |toWrite| {
      var m := lower[0].n;
      var d := WriteLoop(toWrite[m..], len, lower[1..]);
      WriteLoopConserves(toWrite[m..], len, lower[1..]);
      assert toWrite[..m] + d.wrote + d.left == toWrite[..m] + (d.wrote + d.left) == toWrite;
    }
  }

  /** The loop so far has written `wrote` and goes on with `toWrite` and `lower`. */
  ghost predicate Continues(whole: Drain, wrote: seq<byte>, toWrite: seq<byte>, len: nat, lower: seq<LowerWrite>) {
    var d := WriteLoop(toWrite, len, lower);
    whole == d.(wrote := wrote + d.wrote)
  }

  lemma DrainTurn(whole: Drain, wrote: seq<byte>, toWrite: seq<byte>, len: nat, lower: seq<LowerWrite>, m: nat)
    requires lower != [] && lower[0].Accepted? && m == Min(lower[0].n, |toWrite|)
    requires Continues(whole, wrote, toWrite, len, lower)
    ensures m == |toWrite| ==> whole == Drain(Written(len), wrote + toWrite[..m], []) && toWrite[m..] == []
    ensures m < |toWrite| ==> Continues(whole, wrote + toWrite[..m], toWrite[m..], len, lower[1..])
  {
    if m == |toWrite| {
      assert toWrite[..m] == toWrite;
    } else {
      var d := WriteLoop(toWrite[m..], len, lower[1..]);
      assert wrote + (toWrite[..m] + d.wrote) == (wrote + toWrite[..m]) + d.wrote;
    }
  }

  // ----- reading

  datatype ReadSide = ReadSide(cipher: Cipher, nonce: nat, raw: seq<byte>, readBuf: seq<byte>, closed: bool)

  /** State after a read poll, its result, and how many answers of the lower pipe it used. */
  datatype ReadStep = ReadStep(side: ReadSide, poll: ReadPoll, used: nat)

  /** One chunk is appended to the raw buffer and decrypted until stuck. */
  function Absorb(r: ReadSide, chunk: seq<byte>): (ReadSide, bool) {
    var p := DecodeAll(r.cipher, r.nonce, r.raw + chunk);
    (r.(nonce := p.nonce, raw := p.left, readBuf := r.readBuf + p.out), p.broken)
  }

  /** `poll_read` with a buffer of `cap` bytes. */
  function PollRead(r: ReadSide, cap: nat, lower: seq<LowerRead>): (s: ReadStep)
    ensures s.used <= |lower|
    decreases |lower|
  {
    if r.readBuf != [] || r.closed then
      var m := Min(cap, |r.readBuf|);
      ReadStep(r.(readBuf := r.readBuf[m..]), Got(r.readBuf[..m]), 0)
    else if lower == [] then
      ReadStep(r, ReadPending, 0)
    else
      match lower[0]
      case ReadBlocked => ReadStep(r, ReadPending, 1)
      case ReadFailed => ReadStep(r, ReadError, 1)
      case Arrived(bytes) =>
        if bytes == [] then
          var s := PollRead(r.(closed := true), cap, lower[1..]);
          s.(used := s.used + 1)
        else
          var (r', broken) := Absorb(r, bytes);
          if broken then
            ReadStep(r', ReadError, 1)
          else
            var s := PollRead(r', cap, lower[1..]);
            s.(used := s.used + 1)
  }

  /** A read with something to give gives as much of it as fits, and touches nothing else. */
  lemma ReadReturnsBuffer(r: ReadSide, cap: nat, lower: seq<LowerRead>)
    requires r.readBuf != [] || r.closed
    ensures PollRead(r, cap, lower) ==
            if cap < |r.readBuf|
            then ReadStep(r.(readBuf := r.readBuf[cap..]), Got(r.readBuf[..cap]), 0)
            else ReadStep(r.(readBuf := []), Got(r.readBuf), 0)
  {
    if cap >= |r.readBuf| {
      assert r.readBuf[..|r.readBuf|] == r.readBuf && r.readBuf[|r.readBuf|..] == [];
    }
  }

  /** Bytes came in at this answer. */
  predicate Chunk(l: LowerRead) {
    l.Arrived? && l.bytes != []
  }

  /**
   What the results of a read mean. Bytes fill the caller's buffer or are all there is; no bytes,
   for a caller with room, mean that end of file was seen and everything decoded was returned;
   pending means that everything decoded was returned and the lower pipe has no more for now; an
   error means that the lower pipe failed or that bytes came in that do not decode.
   */
  lemma {:induction false} ReadPollMeans(r: ReadSide, cap: nat, lower: seq<LowerRead>)
    ensures var s := PollRead(r, cap, lower);
            match s.poll
            case Got(bytes) =>
              && |bytes| <= cap && (|bytes| == cap || s.side.readBuf == [])
              && (bytes == [] && cap > 0 ==>
                    s.side.closed && s.side.readBuf == [] && (r.closed || Arrived([]) in lower[..s.used]))
            case ReadPending =>
              && s.side.readBuf == [] && !s.side.closed
              && (s.used == |lower| || (s.used > 0 && lower[s.used - 1].ReadBlocked?))
              && forall i :: 0 <= i < s.used ==> Chunk(lower[i]) || lower[i].ReadBlocked?
            case ReadError =>
              s.used > 0 && (lower[s.used - 1].ReadFailed? || Chunk(lower[s.used - 1]))
    decreases |lower|
  {
    hide DecodeAll, PollRead;
    var s := PollRead(r, cap, lower);
    if r.readBuf != [] || r.closed {
      ReadReturnsBuffer(r, cap, lower);
    } else if lower == [] || !lower[0].Arrived? {
      PollReadStops(r, cap, lower);
    } else {
      PollReadTurn(r, cap, lower);
      var chunk, more := lower[0].bytes, lower[1..];
      if chunk == [] || !Absorb(r, chunk).1 {
        var r' := if chunk == [] then r.(closed := true) else Absorb(r, chunk).0;
        ReadPollMeans(r', cap, more);
        var rest := PollRead(r', cap, more);
        assert s == rest.(used := rest.used + 1);
        assert forall i :: 1 <= i < |lower| ==> lower[i] == more[i - 1];
        assert lower[..rest.used + 1] == [lower[0]] + more[..rest.used];
        if chunk == [] {
          assert lower[0] == Arrived([]);
          ReadReturnsBuffer(r', cap, more);
        }
      }
    }
  }

  /** Reads with the given buffer sizes, while nothing more arrives. */
  function ReadMany(r: ReadSide, caps: seq<nat>): (ReadSide, seq<byte>)
    decreases |caps|
  {
    if caps == [] then (r, [])
    else
      var s := PollRead(r, caps[0], []);
      var (r', out) := ReadMany(s.side, caps[1..]);
      (r', Output(s.poll) + out)
  }

  /** Enough reads into buffers of any size but zero return all that was decoded, in order. */
  lemma {:induction false} ReadsDrainBuffer(r: ReadSide, caps: seq<nat>)
    requires |caps| >= |r.readBuf| && forall i :: 0 <= i < |caps| ==> caps[i] > 0
    ensures ReadMany(r, caps) == (r.(readBuf := []), r.readBuf)
    decreases |caps|
  {
    hide PollRead;
    if caps != [] {
      if r.readBuf != [] || r.closed {
        ReadReturnsBuffer(r, caps[0], []);
      } else {
        PollReadStops(r, caps[0], []);
      }
      var s := PollRead(r, caps[0], []);
      ReadsDrainBuffer(s.side, caps[1..]);
      assert Output(s.poll) + s.side.readBuf == r.readBuf;
    }
  }

  /** The bytes carried by a list of answers. */
  function Carried(lower: seq<LowerRead>): seq<byte> {
    if lower == [] then []
    else (if lower[0].Arrived? then lower[0].bytes else []) + Carried(lower[1..])
  }

  lemma {:induction false} CarriedSplit(lower: seq<LowerRead>, k: nat)
    requires k <= |lower|
    ensures Carried(lower) == Carried(lower[..k]) + Carried(lower[k..])
  {
    if k > 0 {
      assert lower[..k][1..] == lower[1..][..k - 1];
      assert lower[1..][k - 1..] == lower[k..];
      CarriedSplit(lower[1..], k - 1);
    }
  }

  function Output(p: ReadPoll): seq<byte> {
    if p.Got? then p.bytes else []
  }

  /** The decoder's progress as seen from outside: delivered bytes plus the read buffer. */
  ghost predicate ReadsAs(r: ReadSide, delivered: seq<byte>, arrived: seq<byte>) {
    DecodeAll(r.cipher, 0, arrived) == Progress(delivered + r.readBuf, r.raw, r.nonce, false)
  }

  lemma AbsorbReads(r: ReadSide, delivered: seq<byte>, arrived: seq<byte>, chunk: seq<byte>)
    requires ReadsAs(r, delivered, arrived)
    ensures DecodeAll(r.cipher, 0, arrived + chunk).broken == Absorb(r, chunk).1
    ensures !Absorb(r, chunk).1 ==> ReadsAs(Absorb(r, chunk).0, delivered, arrived + chunk)
  {
    hide DecodeAll;
    DecodeAllAppend(r.cipher, 0, arrived, chunk);
    var p := DecodeAll(r.cipher, r.nonce, r.raw + chunk);
    assert delivered + (r.readBuf + p.out) == (delivered + r.readBuf) + p.out;
  }

  /** A stream in which no prefix breaks the decoder. */
  ghost predicate Unbroken(c: Cipher, arrived: seq<byte>, more: seq<byte>) {
    forall k :: 0 <= k <= |more| ==> !DecodeAll(c, 0, arrived + more[..k]).broken
  }

  lemma UnbrokenTail(c: Cipher, arrived: seq<byte>, chunk: seq<byte>, more: seq<byte>)
    requires Unbroken(c, arrived, chunk + more)
    ensures !DecodeAll(c, 0, arrived + chunk).broken
    ensures Unbroken(c, arrived + chunk, more)
  {
    hide DecodeAll;
    assert (chunk + more)[..|chunk|] == chunk;
    assert !DecodeAll(c, 0, arrived + (chunk + more)[..|chunk|]).broken;
    forall k | 0 <= k <= |more| ensures !DecodeAll(c, 0, arrived + chunk + more[..k]).broken {
      assert (chunk + more)[..|chunk| + k] == chunk + more[..k];
      assert arrived + (chunk + more[..k]) == arrived + chunk + more[..k];
      assert !DecodeAll(c, 0, arrived + (chunk + more)[..|chunk| + k]).broken;
    }
  }

  /** A read poll accounts for every byte it took from the lower pipe. */
  lemma {:induction false} PollReadConserves(
    r: ReadSide, cap: nat, lower: seq<LowerRead>, delivered: seq<byte>, arrived: seq<byte>)
    requires ReadsAs(r, delivered, arrived)
    requires Unbroken(r.cipher, arrived, Carried(lower))
    ensures var s := PollRead(r, cap, lower);
            && ReadsAs(s.side, delivered + Output(s.poll), arrived + Carried(lower[..s.used]))
            && s.side.cipher == r.cipher
            && (s.poll.ReadError? ==> s.used > 0 && lower[s.used - 1].ReadFailed?)
    decreases |lower|
  {
    hide DecodeAll, Absorb, Unbroken;
    var s := PollRead(r, cap, lower);
    if r.readBuf != [] || r.closed {
      var m := Min(cap, |r.readBuf|);
      assert delivered + r.readBuf == (delivered + r.readBuf[..m]) + r.readBuf[m..];
      assert arrived + Carried(lower[..0]) == arrived;
    } else if lower == [] || !lower[0].Arrived? {
      assert delivered + [] == delivered;
      if lower != [] {
        assert lower[..1][1..] == [];
      }
      assert Carried(lower[..s.used]) == [];
      assert arrived + [] == arrived;
    } else {
      PollReadAbsorbs(r, cap, lower, delivered, arrived);
    }
  }

  /** A turn of the read loop with nothing to give and no bytes coming in. */
  lemma PollReadStops(r: ReadSide, cap: nat, lower: seq<LowerRead>)
    requires r.readBuf == [] && !r.closed && (lower == [] || !lower[0].Arrived?)
    ensures PollRead(r, cap, lower) ==
            if lower == [] then ReadStep(r, ReadPending, 0)
            else ReadStep(r, if lower[0].ReadBlocked? then ReadPending else ReadError, 1)
  {
  }

  /** A turn of the read loop in which the lower pipe answers with bytes or end of file. */
  lemma PollReadTurn(r: ReadSide, cap: nat, lower: seq<LowerRead>)
    requires r.readBuf == [] && !r.closed && lower != [] && lower[0].Arrived?
    ensures lower[0].bytes != [] && Absorb(r, lower[0].bytes).1 ==>
              PollRead(r, cap, lower) == ReadStep(Absorb(r, lower[0].bytes).0, ReadError, 1)
    ensures var chunk := lower[0].bytes;
            var r' := if chunk == [] then r.(closed := true) else Absorb(r, chunk).0;
            chunk == [] || !Absorb(r, chunk).1 ==>
              var s := PollRead(r', cap, lower[1..]);
              PollRead(r, cap, lower) == s.(used := s.used + 1)
  {
    hide Absorb;
  }

  lemma PollReadAbsorbs(
    r: ReadSide, cap: nat, lower: seq<LowerRead>, delivered: seq<byte>, arrived: seq<byte>)
    requires ReadsAs(r, delivered, arrived) && Unbroken(r.cipher, arrived, Carried(lower))
    requires r.readBuf == [] && !r.closed && lower != [] && lower[0].Arrived?
    ensures var s := PollRead(r, cap, lower);
            && ReadsAs(s.side, delivered + Output(s.poll), arrived + Carried(lower[..s.used]))
            && s.side.cipher == r.cipher
            && (s.poll.ReadError? ==> s.used > 0 && lower[s.used - 1].ReadFailed?)
    decreases |lower|, 0
  {
    hide DecodeAll, Unbroken, PollRead, Absorb, ReadsAs;
    var chunk, more := lower[0].bytes, lower[1..];
    AbsorbOne(r, delivered, arrived, chunk, Carried(more));
    PollReadTurn(r, cap, lower);
    var r' := if chunk == [] then r.(closed := true) else Absorb(r, chunk).0;
    PollReadConserves(r', cap, more, delivered, arrived + chunk);
    var used := PollRead(r', cap, more).used;
    assert lower[..used + 1][1..] == more[..used];
    assert arrived + chunk + Carried(more[..used]) == arrived + Carried(lower[..used + 1]);
  }

  /** Taking in one chunk of an unbroken stream. */
  lemma AbsorbOne(r: ReadSide, delivered: seq<byte>, arrived: seq<byte>, chunk: seq<byte>, more: seq<byte>)
    requires ReadsAs(r, delivered, arrived) && Unbroken(r.cipher, arrived, chunk + more)
    ensures Unbroken(r.cipher, arrived + chunk, more)
    ensures !Absorb(r, chunk).1 && Absorb(r, chunk).0.cipher == r.cipher
    ensures ReadsAs(if chunk == [] then r.(closed := true) else Absorb(r, chunk).0, delivered, arrived + chunk)
  {
    hide DecodeAll, Unbroken;
    UnbrokenTail(r.cipher, arrived, chunk, more);
    AbsorbReads(r, delivered, arrived, chunk);
    if chunk == [] {
      assert arrived + chunk == arrived;
    }
  }

  // ----- one direction of a connection, end to end

  /**
   `taken` is what the writer's caller has handed over and `parts` the records it was put in;
   `buffer` is the last buffer, offered again for as long as it is `pending`; `arrived` and
   `returned` are what the reader has taken from the wire and given to its caller.
   */
  datatype Session = Session(
    writer: WriteSide,
    reader: ReadSide,
    wire: seq<byte>,
    parts: seq<Part>,
    buffer: seq<byte>,
    taken: seq<byte>,
    pending: bool,
    encryptions: nat,
    writes: nat,
    arrived: seq<byte>,
    returned: seq<byte>)

  datatype Event =
    | WriteEvent(buf: seq<byte>, jitter: nat, lowerWrite: seq<LowerWrite>)
    | ReadEvent(cap: nat, lowerRead: seq<LowerRead>)

  function Start(c: Cipher, obfs: bool): Session {
    Session(WriteSide(c, obfs, 0, []), ReadSide(c, 0, [], [], false), [], [], [], [], false, 0, 0, [], [])
  }

  /**
   A poll of either end. A writer that was left pending must offer the same buffer again, and
   a plaintext of 2^31 bytes or more cannot be framed; the reader is handed bytes from the wire.
   */
  function Next(s: Session, e: Event): Option<Session> {
    match e
    case WriteEvent(buf, jitter, lower) =>
      if jitter < 10 && |buf| < TWO31 && (s.pending ==> buf == s.buffer) then
        var encrypts := s.writer.toWrite == [];
        var w := PollWrite(s.writer, buf, jitter, lower);
        Some(s.(writer := w.side, wire := s.wire + w.wrote,
                parts := if encrypts then s.parts + Parts(buf, s.writer.obfs, jitter) else s.parts,
                encryptions := s.encryptions + (if encrypts then 1 else 0),
                buffer := buf, pending := !w.poll.Written?,
                taken := if s.pending then s.taken else s.taken + buf,
                writes := s.writes + (if s.pending then 0 else 1)))
      else None
    case ReadEvent(cap, lower) =>
      if Carried(lower) <= s.wire then
        var r := PollRead(s.reader, cap, lower);
        var got := Carried(lower[..r.used]);
        CarriedSplit(lower, r.used);
        Some(s.(reader := r.side, wire := s.wire[|got|..], arrived := s.arrived + got,
                returned := s.returned + Output(r.poll)))
      else None
  }

  ghost predicate Inv(s: Session) {
    && s.writer.cipher == s.reader.cipher && Lawful(s.reader.cipher.aead)
    && Sendable(s.parts)
    && s.taken == Plaintext(s.parts)
    && s.encryptions == s.writes
    && (s.pending <==> s.writer.toWrite != []) && (s.pending ==> |s.buffer| < TWO31)
    && s.writer.nonce == 2 * |s.parts|
    && s.arrived + s.wire + s.writer.toWrite == Ciphertext(s.reader.cipher, 0, s.parts)
    && ReadsAs(s.reader, s.returned, s.arrived)
  }

  lemma StartOk(c: Cipher, obfs: bool)
    requires Lawful(c.aead)
    ensures Inv(Start(c, obfs))
  {
  }

  /** A direction made of honest records breaks at no point. */
  lemma HonestUnbroken(c: Cipher, ps: seq<Part>, arrived: seq<byte>, more: seq<byte>, rest: seq<byte>)
    requires Lawful(c.aead) && Sendable(ps) && arrived + more + rest == Ciphertext(c, 0, ps)
    ensures Unbroken(c, arrived, more)
  {
    hide DecodeAll, Ciphertext;
    forall k | 0 <= k <= |more| ensures !DecodeAll(c, 0, arrived + more[..k]).broken {
      assert Ciphertext(c, 0, ps)[..|arrived| + k] == arrived + more[..k];
      var d := DecoderStaysInStep(c, 0, ps, |arrived| + k);
    }
  }

  /** What a read poll does to a session that satisfies the invariant. */
  lemma ReadAccounts(s: Session, cap: nat, lower: seq<LowerRead>)
    requires Inv(s) && Carried(lower) <= s.wire
    ensures var r := PollRead(s.reader, cap, lower);
            && ReadsAs(r.side, s.returned + Output(r.poll), s.arrived + Carried(lower[..r.used]))
            && r.side.cipher == s.reader.cipher
            && (r.poll.ReadError? ==> r.used > 0 && lower[r.used - 1].ReadFailed?)
  {
    hide DecodeAll, Ciphertext, PollRead, Plaintext, ReadsAs, Lawful, Sendable, Carried, Unbroken;
    var all := Carried(lower);
    var after := s.wire[|all|..] + s.writer.toWrite;
    assert s.arrived + all + after == s.arrived + s.wire + s.writer.toWrite;
    HonestUnbroken(s.reader.cipher, s.parts, s.arrived, all, after);
    PollReadConserves(s.reader, cap, lower, s.returned, s.arrived);
  }

  lemma ReadEventMoves(s: Session, cap: nat, lower: seq<LowerRead>)
    requires Carried(lower) <= s.wire
    ensures var r := PollRead(s.reader, cap, lower);
            var got := Carried(lower[..r.used]);
            && got <= s.wire
            && Next(s, ReadEvent(cap, lower)) ==
               Some(s.(reader := r.side, wire := s.wire[|got|..], arrived := s.arrived + got,
                       returned := s.returned + Output(r.poll)))
  {
    hide PollRead, Carried, Output;
    CarriedSplit(lower, PollRead(s.reader, cap, lower).used);
  }

  /** A read fails only if the lower pipe does: honest records never break the decoder. */
  lemma ReadKeepsInv(s: Session, cap: nat, lower: seq<LowerRead>)
    requires Inv(s) && Carried(lower) <= s.wire
    ensures Next(s, ReadEvent(cap, lower)).Some? && Inv(Next(s, ReadEvent(cap, lower)).value)
    ensures var r := PollRead(s.reader, cap, lower);
            r.poll.ReadError? ==> r.used > 0 && lower[r.used - 1].ReadFailed?
  {
    hide Ciphertext, PollRead, Plaintext, ReadsAs, Lawful, Sendable, Carried, Output, Next;
    ReadAccounts(s, cap, lower);
    ReadEventMoves(s, cap, lower);
    var got := Carried(lower[..PollRead(s.reader, cap, lower).used]);
    assert s.arrived + got + s.wire[|got|..] == s.arrived + s.wire;
  }

  /** The state at the head of the write loop: a fresh buffer has been encrypted, an old one kept. */
  function Begin(s: Session, buf: seq<byte>, jitter: nat): Session
    requires jitter < 10
  {
    if s.writer.toWrite != [] then s else
      s.(writer := s.writer.(toWrite := Encrypt(s.writer.cipher, s.writer.nonce, buf, s.writer.obfs, jitter),
                             nonce := s.writer.nonce + 2 * RecordCount(|buf|, s.writer.obfs)),
         parts := s.parts + Parts(buf, s.writer.obfs, jitter),
         buffer := buf, taken := s.taken + buf, pending := true,
         encryptions := s.encryptions + 1, writes := s.writes + 1)
  }

  lemma BeginKeepsInv(s: Session, buf: seq<byte>, jitter: nat)
    requires Inv(s) && jitter < 10 && |buf| < TWO31
    ensures Inv(Begin(s, buf, jitter)) && Begin(s, buf, jitter).writer.toWrite != []
  {
    hide DecodeAll, Ciphertext, ReadsAs, Encrypt, Plaintext;
    var w, c := s.writer, s.reader.cipher;
    if w.toWrite == [] {
      EncryptIsCiphertext(c, w.nonce, buf, w.obfs, jitter);
      CiphertextAppend(c, 0, s.parts, Parts(buf, w.obfs, jitter));
      PlaintextAppend(s.parts, Parts(buf, w.obfs, jitter));
      SendableParts(buf, w.obfs, jitter);
      EncryptNonempty(c, w.nonce, buf, w.obfs, jitter);
      assert s.arrived + s.wire + [] == s.arrived + s.wire;
    }
  }

  /** A write poll is the beginning followed by the write loop. */
  lemma WriteIsBeginThenDrain(s: Session, buf: seq<byte>, jitter: nat, lower: seq<LowerWrite>)
    requires Inv(s) && Next(s, WriteEvent(buf, jitter, lower)).Some?
    ensures var b := Begin(s, buf, jitter);
            var d := WriteLoop(b.writer.toWrite, |buf|, lower);
            Next(s, WriteEvent(buf, jitter, lower)).value ==
            b.(writer := b.writer.(toWrite := d.left), wire := s.wire + d.wrote,
               buffer := buf, pending := !d.poll.Written?)
  {
    hide Ciphertext, ReadsAs, WriteLoop, Encrypt, Lawful, Plaintext, Parts, Sendable, RecordCount;
  }

  lemma WriteKeepsInv(s: Session, buf: seq<byte>, jitter: nat, lower: seq<LowerWrite>)
    requires Inv(s) && jitter < 10 && |buf| < TWO31 && Next(s, WriteEvent(buf, jitter, lower)).Some?
    ensures Inv(Next(s, WriteEvent(buf, jitter, lower)).value)
  {
    hide Ciphertext, WriteLoop, ReadsAs, Lawful, Plaintext, Sendable, Begin, Next;
    BeginKeepsInv(s, buf, jitter);
    WriteIsBeginThenDrain(s, buf, jitter, lower);
    var b := Begin(s, buf, jitter);
    var d := WriteLoop(b.writer.toWrite, |buf|, lower);
    BeginKeepsWire(s, buf, jitter);
    WriteLoopConserves(b.writer.toWrite, |buf|, lower);
    assert b.arrived + (b.wire + d.wrote) + d.left == b.arrived + b.wire + b.writer.toWrite;
  }

  lemma BeginKeepsWire(s: Session, buf: seq<byte>, jitter: nat)
    requires jitter < 10
    ensures Begin(s, buf, jitter).wire == s.wire
  {
  }

  lemma EncryptNonempty(c: Cipher, n: nat, buf: seq<byte>, obfs: bool, jitter: nat)
    requires Lawful(c.aead) && jitter < 10
    ensures Encrypt(c, n, buf, obfs, jitter) != []
  {
    hide NextPowerOfTwo;
    RecordLength(c, n, buf, false);
  }

  lemma SendableParts(buf: seq<byte>, obfs: bool, jitter: nat)
    requires |buf| < TWO31 && jitter < 10
    ensures Sendable(Parts(buf, obfs, jitter))
  {
    hide NextPowerOfTwo;
    if |buf| + RECORD_OVERHEAD < PADDING_LIMIT {
      PaddingFits(|buf|, jitter);
    }
  }

  function Run(s: Session, es: seq<Event>): Option<Session>
    decreases |es|
  {
    if es == [] then Some(s)
    else match Next(s, es[0])
      case None => None
      case Some(s') => Run(s', es[1..])
  }

  lemma {:induction false} RunKeepsInv(s: Session, es: seq<Event>)
    requires Inv(s) && Run(s, es).Some?
    ensures Inv(Run(s, es).value)
    decreases |es|
  {
    hide Inv, PollWrite, PollRead;
    if es != [] {
      match es[0] {
        case WriteEvent(buf, jitter, lower) => WriteKeepsInv(s, buf, jitter, lower);
        case ReadEvent(cap, lower) => ReadKeepsInv(s, cap, lower);
      }
      RunKeepsInv(Next(s, es[0]).value, es[1..]);
    }
  }

  lemma PlaintextPrefix(ps: seq<Part>, d: nat)
    requires d <= |ps|
    ensures Plaintext(ps[..d]) <= Plaintext(ps)
  {
    hide Plaintext;
    assert ps == ps[..d] + ps[d..];
    PlaintextAppend(ps[..d], ps[d..]);
  }

  /** What the invariant says about what the reader has returned. */
  lemma Transparent(s: Session) returns (d: nat)
    requires Inv(s)
    ensures s.taken == Plaintext(s.parts)
    ensures InStep(s.reader.cipher, 0, s.parts, |s.arrived|, DecodeAll(s.reader.cipher, 0, s.arrived), d)
    ensures s.returned + s.reader.readBuf == Plaintext(s.parts[..d])
    ensures s.returned + s.reader.readBuf <= s.taken && s.returned <= s.taken
    ensures s.reader.nonce == 2 * d && s.writer.nonce == s.reader.nonce + 2 * (|s.parts| - d)
    ensures s.writer.toWrite == [] && s.wire == [] ==>
              s.reader.raw == [] && s.returned + s.reader.readBuf == s.taken
  {
    hide DecodeAll, Record;
    var c, all := s.reader.cipher, Ciphertext(s.reader.cipher, 0, s.parts);
    assert all[..|s.arrived|] == s.arrived;
    d := DecoderStaysInStep(c, 0, s.parts, |s.arrived|);
    PlaintextPrefix(s.parts, d);
    if s.writer.toWrite == [] && s.wire == [] {
      assert s.arrived == all;
      EverythingDecoded(c, s.parts, d, |s.reader.raw|);
      assert s.parts[..d] == s.parts;
    }
  }

  /**
   End to end, for every schedule: what the reader has returned is a prefix of what the writer
   took in; it is all of it once every buffer is empty; each plaintext was encrypted once; the
   reader has opened exactly the first `d` records and returned or buffered their plaintext; and
   the two counters differ by two for every record not yet opened.
   */
  lemma PipeIsTransparent(c: Cipher, obfs: bool, es: seq<Event>) returns (d: nat)
    requires Lawful(c.aead) && Run(Start(c, obfs), es).Some?
    ensures var s := Run(Start(c, obfs), es).value;
            && s.returned + s.reader.readBuf <= s.taken
            && s.returned <= s.taken
            && (s.writer.toWrite == [] && s.wire == [] ==> s.reader.raw == [])
            && (s.writer.toWrite == [] && s.wire == [] && s.reader.readBuf == [] ==>
                  s.returned == s.taken)
            && s.encryptions == s.writes
            && s.taken == Plaintext(s.parts)
            && InStep(c, 0, s.parts, |s.arrived|, DecodeAll(c, 0, s.arrived), d)
            && s.returned + s.reader.readBuf == Plaintext(s.parts[..d])
            && s.reader.nonce == 2 * d
            && s.writer.nonce == s.reader.nonce + 2 * (|s.parts| - d)
  {
    hide DecodeAll, Next, Record, Ciphertext, Plaintext, InStep, ReadsAs;
    StartOk(c, obfs);
    RunKeepsInv(Start(c, obfs), es);
    RunKeepsCipher(Start(c, obfs), es);
    d := Transparent(Run(Start(c, obfs), es).value);
  }

  /**
   In every run, all that was written is what the cipher returned for a list of calls, two for
   each record, and no two of these calls share a nonce while the 64-bit counter lasts.
   */
  lemma SessionNeverReusesNonces(c: Cipher, obfs: bool, es: seq<Event>)
    requires Lawful(c.aead) && Run(Start(c, obfs), es).Some?
    ensures var s := Run(Start(c, obfs), es).value;
            var calls := SealCalls(0, s.parts);
            && s.arrived + s.wire + s.writer.toWrite == SealAll(c, calls)
            && |calls| == s.writer.nonce
            && (s.writer.nonce <= 0x1_0000_0000_0000_0000 ==>
                  forall i, j :: 0 <= i < j < |calls| ==> calls[i].nonce != calls[j].nonce)
  {
    hide DecodeAll, Next, Record, SealCalls, SealAll, NonceBytes, Ciphertext;
    StartOk(c, obfs);
    RunKeepsInv(Start(c, obfs), es);
    RunKeepsCipher(Start(c, obfs), es);
    var s := Run(Start(c, obfs), es).value;
    var calls := SealCalls(0, s.parts);
    CiphertextIsSealed(c, 0, s.parts);
    SealCallCount(0, s.parts);
    if s.writer.nonce <= 0x1_0000_0000_0000_0000 {
      forall i, j | 0 <= i < j < |calls| ensures calls[i].nonce != calls[j].nonce {
        NonceNeverReused(0, s.parts, i, j);
      }
    }
  }

  // ----- nothing is held back

  /** A buffer can always be written, and the write is done once the lower pipe has taken it all. */
  lemma WriteCompletes(s: Session, buf: seq<byte>, jitter: nat) returns (n: nat)
    requires Inv(s) && !s.pending && |buf| < 0x8000_0000 && jitter < 10
    ensures var s' := Next(s, WriteEvent(buf, jitter, [Accepted(n)]));
            && s'.Some? && !s'.value.pending && s'.value.taken == s.taken + buf
            && s'.value.writer.toWrite == [] && s'.value.reader == s.reader
            && PollWrite(s.writer, buf, jitter, [Accepted(n)]).poll == Written(|buf|)
  {
    hide Encrypt, Ciphertext, Plaintext, ReadsAs, Lawful, Parts;
    n := |Encrypt(s.writer.cipher, s.writer.nonce, buf, s.writer.obfs, jitter)|;
  }

  /** A pending write is done as soon as the lower pipe takes what is left of it. */
  lemma PendingWriteCompletes(s: Session)
    requires Inv(s) && s.pending
    ensures var s' := Next(s, WriteEvent(s.buffer, 0, [Accepted(|s.writer.toWrite|)]));
            && s'.Some? && !s'.value.pending && s'.value.taken == s.taken && s'.value.reader == s.reader
            && PollWrite(s.writer, s.buffer, 0, [Accepted(|s.writer.toWrite|)]).poll == Written(|s.buffer|)
  {
    hide Encrypt, Ciphertext, Plaintext, ReadsAs, Lawful, Parts;
  }

  /** A read with room for everything, while nothing or all of the wire arrives. */
  lemma WideRead(r: ReadSide, cap: nat, wire: seq<byte>)
    requires !r.closed && r.readBuf == [] && wire != [] && !Absorb(r, wire).1
    requires cap >= |Absorb(r, wire).0.readBuf|
    ensures var s := PollRead(r, cap, [Arrived(wire)]);
            s.used == 1 && s.side == Absorb(r, wire).0.(readBuf := []) && Output(s.poll) == Absorb(r, wire).0.readBuf
  {
    hide DecodeAll;
    var lower := [Arrived(wire)];
    assert lower[1..] == [];
    PollReadTurn(r, cap, lower);
    var r' := Absorb(r, wire).0;
    if r'.readBuf != [] {
      ReadReturnsBuffer(r', cap, []);
    } else {
      PollReadStops(r', cap, []);
    }
  }

  /** The first of two reads that empty a session: what is already decoded. */
  lemma ReadDecoded(s: Session)
    requires Inv(s) && !s.reader.closed
    ensures var s' := Next(s, ReadEvent(|s.reader.readBuf|, []));
            s'.Some? && s'.value == s.(reader := s.reader.(readBuf := []), returned := s.returned + s.reader.readBuf)
  {
    hide Ciphertext, Plaintext, ReadsAs, Lawful, Sendable;
    var none: seq<LowerRead> := [];
    assert none[..0] == [];
    if s.reader.readBuf != [] {
      ReadReturnsBuffer(s.reader, |s.reader.readBuf|, []);
    } else {
      PollReadStops(s.reader, 0, []);
      assert s.returned + [] == s.returned;
    }
    assert s.wire[0..] == s.wire && s.arrived + [] == s.arrived;
  }

  /** The second: all of the wire. */
  lemma ReadArrived(s: Session) returns (cap: nat)
    requires Inv(s) && !s.reader.closed && s.reader.readBuf == [] && s.wire != []
    ensures var s' := Next(s, ReadEvent(cap, [Arrived(s.wire)]));
            && s'.Some? && s'.value.wire == [] && s'.value.reader.readBuf == [] && s'.value.taken == s.taken
            && s'.value.writer == s.writer && !s'.value.reader.closed
  {
    hide DecodeAll, Ciphertext, Plaintext, ReadsAs, Lawful, Sendable, Unbroken;
    var lower := [Arrived(s.wire)];
    assert lower[1..] == [] && lower[..1] == lower;
    assert Carried(lower) == s.wire + [] == s.wire;
    assert s.arrived + s.wire + s.writer.toWrite == Ciphertext(s.reader.cipher, 0, s.parts);
    HonestUnbroken(s.reader.cipher, s.parts, s.arrived, s.wire, s.writer.toWrite);
    assert s.wire + [] == s.wire;
    AbsorbOne(s.reader, s.returned, s.arrived, s.wire, []);
    cap := |Absorb(s.reader, s.wire).0.readBuf|;
    WideRead(s.reader, cap, s.wire);
    assert s.wire[|s.wire|..] == [];
  }

  lemma WrittenCanBeRead(s: Session) returns (es: seq<Event>)
    requires Inv(s) && !s.pending && !s.reader.closed
    ensures |es| <= 2 && Run(s, es).Some?
    ensures Run(s, es).value.taken == s.taken && Run(s, es).value.returned == s.taken
  {
    hide Inv, Next, Carried;
    var first := ReadEvent(|s.reader.readBuf|, []);
    ReadDecoded(s);
    var s1 := Next(s, first).value;
    es := [first];
    assert es[1..] == [] && Run(s, es) == Some(s1);
    RunKeepsInv(s, es);
    assert s.writer.toWrite == [] by { PendingMeansUnwritten(s); }
    var last := s1;
    if s1.wire != [] {
      var cap := ReadArrived(s1);
      var second := ReadEvent(cap, [Arrived(s1.wire)]);
      last := Next(s1, second).value;
      es := [first, second];
      assert es[1..] == [second] && es[1..][1..] == [];
      assert Run(s1, es[1..]) == Run(last, []);
      RunKeepsInv(s, es);
    }
    var d := Transparent(last);
  }

  /**
   Nothing gets stuck: from any point of any session whose reader has not been told of an end of
   file, one more write poll and two reads return everything that was ever taken in.
   */
  lemma EverythingCanBeRead(s: Session) returns (es: seq<Event>)
    requires Inv(s) && !s.reader.closed
    ensures |es| <= 3 && Run(s, es).Some?
    ensures Run(s, es).value.taken == s.taken && Run(s, es).value.returned == s.taken
  {
    hide Inv, Next, Carried;
    if s.pending {
      PendingWriteCompletes(s);
      var again := WriteEvent(s.buffer, 0, [Accepted(|s.writer.toWrite|)]);
      var s1 := Next(s, again).value;
      var one := [again];
      assert one[1..] == [] && Run(s, one) == Some(s1);
      RunKeepsInv(s, one);
      var rest := WrittenCanBeRead(s1);
      es := [again] + rest;
      assert es[1..] == rest;
    } else {
      es := WrittenCanBeRead(s);
    }
  }

  lemma PendingMeansUnwritten(s: Session)
    requires Inv(s)
    ensures s.pending <==> s.writer.toWrite != []
  {
  }

  lemma {:induction false} RunKeepsCipher(s: Session, es: seq<Event>)
    requires Inv(s) && Run(s, es).Some?
    ensures Run(s, es).value.reader.cipher == s.reader.cipher
    decreases |es|
  {
    hide Inv;
    if es != [] {
      var s' := Next(s, es[0]).value;
      RunKeepsInv(s, [es[0]]) by { assert Run(s, [es[0]]) == Run(s', []); }
      assert Run(s, [es[0]]) == Some(s');
      NextKeepsCipher(s, es[0]);
      RunKeepsCipher(s', es[1..]);
    }
  }

  lemma NextKeepsCipher(s: Session, e: Event)
    requires Inv(s) && Next(s, e).Some?
    ensures Next(s, e).value.reader.cipher == s.reader.cipher
  {
    if e.ReadEvent? {
      PollReadKeepsCipher(s.reader, e.cap, e.lowerRead);
    }
  }

  lemma {:induction false} PollReadKeepsCipher(r: ReadSide, cap: nat, lower: seq<LowerRead>)
    ensures PollRead(r, cap, lower).side.cipher == r.cipher
    decreases |lower|
  {
    hide DecodeAll;
    if lower != [] && lower[0].Arrived? {
      var r' := if lower[0].bytes == [] then r.(closed := true) else Absorb(r, lower[0].bytes).0;
      PollReadKeepsCipher(r', cap, lower[1..]);
    }
  }

  /** With all of the ciphertext in hand the decoder has nothing left over. */
  lemma EverythingDecoded(c: Cipher, ps: seq<Part>, d: nat, left: nat)
    requires d <= |ps| && |Ciphertext(c, 0, ps[..d])| + left == |Ciphertext(c, 0, ps)|
    requires d < |ps| ==> left < |Record(c, 2 * d, ps[d].body, ps[d].padding)|
    ensures d == |ps|
  {
    hide Record;
    if d < |ps| {
      assert ps == ps[..d] + ps[d..];
      CiphertextAppend(c, 0, ps[..d], ps[d..]);
      assert false;
    }
  }

  // ----- the pipe object

  class Pipe {
    const state: State
    var readBuf: seq<byte>
    var readClosed: bool
    var rawReadBuf: seq<byte>
    var toWriteBuf: seq<byte>

    constructor (state: State)
      requires state.Valid()
      ensures this.state == state && state.Valid()
      ensures readBuf == [] && !readClosed && rawReadBuf == [] && toWriteBuf == []
    {
      this.state := state;
      readBuf, readClosed, rawReadBuf, toWriteBuf := [], false, [], [];
    }

    ghost function Writer(): WriteSide
      reads this, state
    {
      WriteSide(state.SendCipher(), state.obfsLengths, state.sendNonce, toWriteBuf)
    }

    ghost function Reader(): ReadSide
      reads this, state
    {
      ReadSide(state.RecvCipher(), state.recvNonce, rawReadBuf, readBuf, readClosed)
    }

    /** Offers the write buffer to the lower pipe until it is empty or the pipe stops. */
    method WriteOut(len: nat, lower: seq<LowerWrite>) returns (poll: WritePoll, wrote: seq<byte>)
      modifies this`toWriteBuf
      ensures Drain(poll, wrote, toWriteBuf) == WriteLoop(old(toWriteBuf), len, lower)
    {
      ghost var whole := WriteLoop(toWriteBuf, len, lower);
      wrote := [];
      var i := 0;
      while i < |lower| && lower[i].Accepted?
        invariant i <= |lower|
        invariant Continues(whole, wrote, toWriteBuf, len, lower[i..])
      {
        var m := Min(lower[i].n, |toWriteBuf|);
        DrainTurn(whole, wrote, toWriteBuf, len, lower[i..], m);
        wrote := wrote + toWriteBuf[..m];
        toWriteBuf := toWriteBuf[m..];
        if toWriteBuf == [] {
          return Written(len), wrote;
        }
        assert lower[i..][1..] == lower[i + 1..];
        i := i + 1;
      }
      assert wrote + [] == wrote;
      poll := if i < |lower| && lower[i].WriteFailed? then WriteError else WritePending;
    }

    method Write(buf: seq<byte>, jitter: nat, lower: seq<LowerWrite>)
      returns (poll: WritePoll, wrote: seq<byte>)
      requires Lawful(state.aead) && state.Valid() && jitter < 10
      modifies this`toWriteBuf, state`sendNonce, state`sendBuf, state`sealed
      ensures state.Valid()
      ensures state.sealed == old(state.sealed) +
                if old(toWriteBuf) != [] then []
                else SealCalls(old(state.sendNonce), Parts(buf, state.obfsLengths, jitter))
      ensures WriteStep(Writer(), poll, wrote) == PollWrite(old(Writer()), buf, jitter, lower)
      ensures Reader() == old(Reader())
    {
      hide WriteLoop, Encrypt, SealCalls, NonceBytes;
      if toWriteBuf == [] {
        ghost var hunk := Encrypt(state.SendCipher(), state.sendNonce, buf, state.obfsLengths, jitter);
        assert [] + hunk == hunk;
        toWriteBuf := state.EncryptHunk(buf, toWriteBuf, jitter);
      }
      poll, wrote := WriteOut(|buf|, lower);
    }

    /** Decrypts as many records as possible; returns whether authentication failed. */
    method DecryptAll() returns (broken: bool)
      modifies this`rawReadBuf, this`readBuf, state`recvNonce
      ensures var p := DecodeAll(state.RecvCipher(), old(state.recvNonce), old(rawReadBuf));
              && Reader() == old(Reader()).(nonce := p.nonce, raw := p.left, readBuf := old(readBuf) + p.out)
              && broken == p.broken
    {
      hide DecodeOne;
      ghost var whole := DecodeAll(state.RecvCipher(), state.recvNonce, rawReadBuf);
      ghost var done: seq<byte> := [];
      assert readBuf + [] == readBuf;
      while true
        invariant readClosed == old(readClosed)
        invariant readBuf == old(readBuf) + done
        invariant var p := DecodeAll(state.RecvCipher(), state.recvNonce, rawReadBuf);
                  whole == p.(out := done + p.out)
        decreases |rawReadBuf|
      {
        ghost var p := DecodeAll(state.RecvCipher(), state.recvNonce, rawReadBuf);
        var result;
        result, readBuf := state.Decrypt(rawReadBuf, readBuf);
        assert done + [] == done;
        match result
        case Opened(body, used) =>
          rawReadBuf := rawReadBuf[used..];
          ghost var rest := DecodeAll(state.RecvCipher(), state.recvNonce, rawReadBuf);
          assert p.out == body + rest.out;
          assert done + (body + rest.out) == (done + body) + rest.out;
          done := done + body;
        case Short =>
          return false;
        case Broken =>
          return true;
      }
    }

    method Read(cap: nat, lower: seq<LowerRead>) returns (poll: ReadPoll, used: nat)
      modifies this`readBuf, this`readClosed, this`rawReadBuf, state`recvNonce
      ensures ReadStep(Reader(), poll, used) == PollRead(old(Reader()), cap, lower)
      ensures Writer() == old(Writer())
    {
      used := 0;
      while true
        invariant used <= |lower|
        invariant PollRead(old(Reader()), cap, lower) ==
                  var s := PollRead(Reader(), cap, lower[used..]);
                  s.(used := s.used + used)
        decreases |lower| - used
      {
        if readBuf != [] || readClosed {
          var m := Min(cap, |readBuf|);
          poll := Got(readBuf[..m]);
          readBuf := readBuf[m..];
          return;
        }
        if used == |lower| {
          return ReadPending, used;
        }
        assert lower[used..][1..] == lower[used + 1..];
        match lower[used] {
          case ReadBlocked =>
            return ReadPending, used + 1;
          case ReadFailed =>
            return ReadError, used + 1;
          case Arrived(bytes) =>
            if |bytes| == 0 {
              readClosed := true;
            } else {
              rawReadBuf := rawReadBuf + bytes;
              var broken := DecryptAll();
              if broken {
                return ReadError, used + 1;
              }
            }
        }
        used := used + 1;
      }
    }
  }
}
