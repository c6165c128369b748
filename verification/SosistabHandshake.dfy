/**
 The sosistab3 handshake: an encrypted 140-byte envelope and random padding in each direction.
 What matters to the record layer is that both ends stop reading exactly where the other
 stopped writing, and that they end up with each other's keys.
 */
module SosistabHandshake {
  import opened Common
  import opened Streams
  import opened SosistabRecord
  import Dedup = SosistabDedup
  import Pipe = SosistabPipe

  /** The primitives used: cipher, key derivation, hash, and Diffie-Hellman. */
  datatype Crypto = Crypto(
    aead: Aead,
    derive: Derive,
    hash: seq<byte> -> seq<byte>,
    publicKey: seq<byte> -> seq<byte>,
    sharedSecret: (seq<byte>, seq<byte>) -> seq<byte>)

  ghost predicate Sound(cr: Crypto) {
    && Lawful(cr.aead)
    && (forall x: seq<byte> :: |cr.hash(x)| == 32)
    && (forall sk: seq<byte> :: |cr.publicKey(sk)| == 32)
    && (forall a: seq<byte>, b: seq<byte> ::
          cr.sharedSecret(a, cr.publicKey(b)) == cr.sharedSecret(b, cr.publicKey(a)))
  }

  datatype Cookie = Cookie(key: Key, obfsLengths: bool)

  function CookieKey(cr: Crypto, cookie: Cookie, isServer: bool): Key {
    cr.derive(if isServer then "server" else "client", cookie.key)
  }

  // ----- the 112-byte message

  const MESSAGE_SIZE := 112
  const ENVELOPE_SIZE := 140
  const TWO64 := 0x1_0000_0000_0000_0000

  datatype Handshake = Handshake(
    ephPk: seq<byte>,
    timestamp: nat,
    paddingLen: nat,
    paddingHash: seq<byte>,
    respondingTo: seq<byte>)

  predicate WellSized(h: Handshake) {
    && |h.ephPk| == 32 && h.timestamp < TWO64 && h.paddingLen < TWO64
    && |h.paddingHash| == 32 && |h.respondingTo| == 32
  }

  function MessageBytes(h: Handshake): seq<byte> {
    h.ephPk + BigEndian(h.timestamp, 8) + BigEndian(h.paddingLen, 8) + h.paddingHash + h.respondingTo
  }

  function ParseMessage(s: seq<byte>): Handshake
    requires |s| == MESSAGE_SIZE
  {
    Handshake(s[..32], FromBigEndian(s[32..40]), FromBigEndian(s[40..48]), s[48..80], s[80..112])
  }

  lemma MessageRoundTrip(h: Handshake)
    requires WellSized(h)
    ensures |MessageBytes(h)| == MESSAGE_SIZE && ParseMessage(MessageBytes(h)) == h
  {
    var s := MessageBytes(h);
    PowerValues();
    assert s[..32] == h.ephPk;
    assert s[32..40] == BigEndian(h.timestamp, 8);
    assert s[40..48] == BigEndian(h.paddingLen, 8);
    assert s[48..80] == h.paddingHash;
    assert s[80..112] == h.respondingTo;
    BigEndianRoundTrip(h.timestamp, 8);
    BigEndianRoundTrip(h.paddingLen, 8);
  }

  // ----- the envelope

  function SealEnvelope(cr: Crypto, cookie: Cookie, isServer: bool, nonce: seq<byte>, h: Handshake): seq<byte> {
    var (body, tag) := cr.aead.seal(CookieKey(cr, cookie, isServer), nonce, MessageBytes(h));
    nonce + body + tag
  }

  function OpenEnvelope(cr: Crypto, cookie: Cookie, isServer: bool, s: seq<byte>): Option<Handshake>
    requires |s| == ENVELOPE_SIZE
  {
    match cr.aead.open(CookieKey(cr, cookie, isServer), s[..12], s[12..124], s[124..140])
    case None => None
    case Some(m) => if |m| == MESSAGE_SIZE then Some(ParseMessage(m)) else None
  }

  lemma EnvelopeRoundTrip(cr: Crypto, cookie: Cookie, isServer: bool, nonce: seq<byte>, h: Handshake)
    requires Sound(cr) && WellSized(h) && |nonce| == 12
    ensures var e := SealEnvelope(cr, cookie, isServer, nonce, h);
            |e| == ENVELOPE_SIZE && OpenEnvelope(cr, cookie, isServer, e) == Some(h)
  {
    MessageRoundTrip(h);
    hide MessageBytes, ParseMessage;
    var (body, tag) := cr.aead.seal(CookieKey(cr, cookie, isServer), nonce, MessageBytes(h));
    var e := SealEnvelope(cr, cookie, isServer, nonce, h);
    assert e[..12] == nonce && e[12..124] == body && e[124..140] == tag;
  }

  // ----- what each side sends

  /** An end's fresh randomness: secret key, padding and envelope nonce. */
  datatype Fresh = Fresh(sk: seq<byte>, padding: seq<byte>, nonce: seq<byte>)

  predicate ValidFresh(f: Fresh) {
    |f.padding| <= 1024 && |f.nonce| == 12
  }

  function Hello(cr: Crypto, f: Fresh, timestamp: nat, respondingTo: seq<byte>): Handshake {
    Handshake(cr.publicKey(f.sk), timestamp, |f.padding|, cr.hash(f.padding), respondingTo)
  }

  function HelloEnvelope(cr: Crypto, cookie: Cookie, isServer: bool, f: Fresh, timestamp: nat,
                         respondingTo: seq<byte>): seq<byte>
  {
    SealEnvelope(cr, cookie, isServer, f.nonce, Hello(cr, f, timestamp, respondingTo))
  }

  // ----- what each side does with what it receives

  datatype Refusal = Truncated | BadEnvelope | BadPadding | BadTimestamp | AlreadySeen | NotAReply

  /** The finished state of one end: its record keys. */
  datatype Keys = Keys(send: Key, recv: Key)

  /** `Established` is what the record state is made from: the keys and the cookie's padding switch. */
  datatype Outcome = Established(keys: Keys, obfsLengths: bool) | Refused(why: Refusal)

  function KeysFrom(cr: Crypto, sk: seq<byte>, theirPk: seq<byte>, isServer: bool): Keys {
    var ss := cr.sharedSecret(sk, theirPk);
    Keys(SendKey(cr.derive, ss, isServer), RecvKey(cr.derive, ss, isServer))
  }

  const WAIT_INTERVAL := 30

  /** The client's first half: the hello goes out, and its envelope is kept for comparison. */
  method SendClientHello(cr: Crypto, lower: Stream, cookie: Cookie, f: Fresh, timestamp: nat)
    returns (envelope: seq<byte>)
    modifies lower`output
    ensures envelope == HelloEnvelope(cr, cookie, false, f, timestamp, cr.hash([]))
    ensures lower.output == old(lower.output) + envelope + f.padding
  {
    var mine := Handshake(cr.publicKey(f.sk), timestamp, |f.padding|, cr.hash(f.padding), cr.hash([]));
    envelope := SealEnvelope(cr, cookie, false, f.nonce, mine);
    var toSend := envelope + f.padding;
    lower.WriteAll(toSend);
    assert lower.output == old(lower.output) + envelope + f.padding;
  }

  /** Reads an envelope and then the padding it announces. */
  datatype Reading = Read(hello: Handshake, envelope: seq<byte>, rest: seq<byte>) | Failed(why: Refusal)

  function ReadEnvelope(cr: Crypto, cookie: Cookie, fromServer: bool, input: seq<byte>): (r: Reading)
    ensures r.Read? ==> input == r.envelope + r.rest && |r.envelope| == ENVELOPE_SIZE
  {
    if |input| < ENVELOPE_SIZE then Failed(Truncated)
    else
      match OpenEnvelope(cr, cookie, fromServer, input[..ENVELOPE_SIZE])
      case None => Failed(BadEnvelope)
      case Some(h) => Read(h, input[..ENVELOPE_SIZE], input[ENVELOPE_SIZE..])
  }

  function ReadPadding(cr: Crypto, r: Reading): Reading
    requires r.Read?
  {
    var n := r.hello.paddingLen;
    if |r.rest| < n then Failed(Truncated)
    else if cr.hash(r.rest[..n]) != r.hello.paddingHash then Failed(BadPadding)
    else r.(rest := r.rest[n..])
  }

  /** What the client makes of the server's answer. */
  function ClientVerdict(cr: Crypto, cookie: Cookie, f: Fresh, envelope: seq<byte>, input: seq<byte>)
    : (Outcome, seq<byte>)
  {
    var r := ReadEnvelope(cr, cookie, true, input);
    if r.Failed? then (Refused(r.why), input)
    else if r.hello.respondingTo != cr.hash(envelope) then (Refused(NotAReply), input)
    else
      var r' := ReadPadding(cr, r);
      if r'.Failed? then (Refused(r'.why), input)
      else (Established(KeysFrom(cr, f.sk, r'.hello.ephPk, false), cookie.obfsLengths), r'.rest)
  }

  /** The client's second half. */
  method FinishClient(cr: Crypto, lower: Stream, cookie: Cookie, f: Fresh, envelope: seq<byte>)
    returns (outcome: Outcome)
    modifies lower`input
    ensures outcome == ClientVerdict(cr, cookie, f, envelope, old(lower.input)).0
    ensures outcome.Established? ==>
              lower.input == ClientVerdict(cr, cookie, f, envelope, old(lower.input)).1
  {
    hide OpenEnvelope;
    var raw := lower.ReadExact(ENVELOPE_SIZE);
    if raw.None? {
      return Refused(Truncated);
    }
    var theirs := OpenEnvelope(cr, cookie, true, raw.value);
    if theirs.None? {
      return Refused(BadEnvelope);
    }
    if theirs.value.respondingTo != cr.hash(envelope) {
      return Refused(NotAReply);
    }
    var buff := lower.ReadExact(theirs.value.paddingLen);
    if buff.None? {
      return Refused(Truncated);
    }
    if cr.hash(buff.value) != theirs.value.paddingHash {
      return Refused(BadPadding);
    }
    var ss := cr.sharedSecret(f.sk, theirs.value.ephPk);
    outcome := Established(Keys(SendKey(cr.derive, ss, false), RecvKey(cr.derive, ss, false)),
                             cookie.obfsLengths);
  }

  function AbsDiff(a: nat, b: nat): nat {
    if a < b then b - a else a - b
  }

  /** What the server makes of a client hello, given the handshakes it remembers. */
  function ServerVerdict(cr: Crypto, cookie: Cookie, f: Fresh, now: nat, seen: set<seq<byte>>, input: seq<byte>)
    : (Outcome, seq<byte>)
  {
    var r := ReadEnvelope(cr, cookie, false, input);
    if r.Failed? then (Refused(r.why), input)
    else
      var r' := ReadPadding(cr, r);
      if r'.Failed? then (Refused(r'.why), input)
      else if AbsDiff(r.hello.timestamp, now) > WAIT_INTERVAL then (Refused(BadTimestamp), input)
      else if cr.hash(r.envelope) in seen then (Refused(AlreadySeen), input)
      else (Established(KeysFrom(cr, f.sk, r.hello.ephPk, true), cookie.obfsLengths), r'.rest)
  }

  /** The verdict on a hello together with what the replay table is afterwards. */
  function Admit(cr: Crypto, cookie: Cookie, table: Dedup.Table<seq<byte>>, expiry: nat, k: Knock)
    : (Outcome, Dedup.Table<seq<byte>>)
  {
    var outcome := ServerVerdict(cr, cookie, k.random, k.now, table.bucket.Keys, k.input).0;
    (outcome,
     if outcome.Established? && |k.input| >= ENVELOPE_SIZE
     then Dedup.Insert(table, expiry, cr.hash(k.input[..ENVELOPE_SIZE]), k.clock, k.sweep)
     else table)
  }

  /**
   One connection to the listener: the server's randomness, the wall clock in seconds, read
   before the hello, the monotone times at which the replay table is used and swept, and the
   bytes the client sends.
   */
  datatype Knock = Knock(random: Fresh, now: nat, clock: nat, sweep: seq<byte> -> nat, end: nat, input: seq<byte>)

  /** The server side of one connection; what the client sends is what can be read from `lower`. */
  method AcceptClient(cr: Crypto, lower: Stream, cookie: Cookie, k: Knock, dedup: Dedup.Dedup<seq<byte>>)
    returns (outcome: Outcome)
    modifies lower, dedup
    ensures (outcome, dedup.Value()) ==
            Admit(cr, cookie, old(dedup.Value()), dedup.expiry, k.(input := old(lower.input)))
    ensures outcome.Refused? ==> lower.output == old(lower.output)
    ensures outcome.Established? ==>
              && |old(lower.input)| >= ENVELOPE_SIZE
              && lower.input == ServerVerdict(cr, cookie, k.random, k.now, old(dedup.bucket.Keys), old(lower.input)).1
              && lower.output == old(lower.output)
                   + HelloEnvelope(cr, cookie, true, k.random, k.now, cr.hash(old(lower.input)[..ENVELOPE_SIZE]))
                   + k.random.padding
  {
    hide OpenEnvelope, SealEnvelope, Dedup.Insert;
    var f, now := k.random, k.now;
    var raw := lower.ReadExact(ENVELOPE_SIZE);
    if raw.None? {
      return Refused(Truncated);
    }
    var theirHash := cr.hash(raw.value);
    var theirs := OpenEnvelope(cr, cookie, false, raw.value);
    if theirs.None? {
      return Refused(BadEnvelope);
    }
    var buff := lower.ReadExact(theirs.value.paddingLen);
    if buff.None? {
      return Refused(Truncated);
    }
    if cr.hash(buff.value) != theirs.value.paddingHash {
      return Refused(BadPadding);
    }
    if AbsDiff(theirs.value.timestamp, now) > WAIT_INTERVAL {
      return Refused(BadTimestamp);
    }
    var known := dedup.Contains(theirHash);
    if known {
      return Refused(AlreadySeen);
    }
    dedup.Add(theirHash, k.clock, k.sweep);
    var mine := Handshake(cr.publicKey(f.sk), now, |f.padding|, cr.hash(f.padding), theirHash);
    var envelope := SealEnvelope(cr, cookie, true, f.nonce, mine);
    lower.WriteAll(envelope + f.padding);
    assert lower.output == old(lower.output) + envelope + f.padding;
    var ss := cr.sharedSecret(f.sk, theirs.value.ephPk);
    outcome := Established(Keys(SendKey(cr.derive, ss, true), RecvKey(cr.derive, ss, true)),
                             cookie.obfsLengths);
  }

  /** The replay table of a listener remembers envelopes for a minute. */
  method NewReplayTable() returns (dedup: Dedup.Dedup<seq<byte>>)
    ensures fresh(dedup) && dedup.expiry == 60 && dedup.bucket == map[] && dedup.lastSize == 1
  {
    dedup := new Dedup.Dedup(WAIT_INTERVAL * 2);
  }

  // ----- who is let in

  /** The text of an envelope, if its tag is right under the key derived for the given name. */
  function EnvelopeText(cr: Crypto, cookie: Cookie, name: string, input: seq<byte>): Option<seq<byte>>
    requires |input| >= 140
  {
    cr.aead.open(cr.derive(name, cookie.key), input[..12], input[12..124], input[124..140])
  }

  /** A 112-byte message whose announced padding follows the envelope and has the announced hash. */
  predicate Padded(cr: Crypto, m: seq<byte>, input: seq<byte>)
    requires |m| == 112 && |input| >= 140
  {
    var n := FromBigEndian(m[40..48]);
    140 + n <= |input| && cr.hash(input[140..140 + n]) == m[48..80]
  }

  /**
   The server lets a client in exactly if the envelope opens under the client's cookie key, the
   padding is there and hashes as announced, the timestamp is within thirty seconds of the
   clock, and the envelope has not been seen; it then stands right after the padding and holds
   the keys of the secret shared with the key in the message.
   */
  lemma ServerAcceptsIff(cr: Crypto, cookie: Cookie, f: Fresh, now: nat, seen: set<seq<byte>>, input: seq<byte>)
    ensures ServerVerdict(cr, cookie, f, now, seen, input).0.Established? <==>
            && |input| >= 140
            && var text := EnvelopeText(cr, cookie, "client", input);
               && text.Some? && |text.value| == 112 && Padded(cr, text.value, input)
               && -30 <= FromBigEndian(text.value[32..40]) - now <= 30
               && cr.hash(input[..140]) !in seen
    ensures ServerVerdict(cr, cookie, f, now, seen, input).0.Established? ==>
            var m := EnvelopeText(cr, cookie, "client", input).value;
            var secret := cr.sharedSecret(f.sk, m[..32]);
            ServerVerdict(cr, cookie, f, now, seen, input) ==
            (Established(Keys(cr.derive("dn", secret), cr.derive("up", secret)), cookie.obfsLengths),
             input[140 + FromBigEndian(m[40..48])..])
  {
    hide FromBigEndian;
    EnvelopeSlices(input);
  }

  /** The client likewise, except that the answer must quote the hash of its own envelope. */
  lemma ClientAcceptsIff(cr: Crypto, cookie: Cookie, f: Fresh, envelope: seq<byte>, input: seq<byte>)
    ensures ClientVerdict(cr, cookie, f, envelope, input).0.Established? <==>
            && |input| >= 140
            && var text := EnvelopeText(cr, cookie, "server", input);
               && text.Some? && |text.value| == 112 && Padded(cr, text.value, input)
               && text.value[80..112] == cr.hash(envelope)
    ensures ClientVerdict(cr, cookie, f, envelope, input).0.Established? ==>
            var m := EnvelopeText(cr, cookie, "server", input).value;
            var secret := cr.sharedSecret(f.sk, m[..32]);
            ClientVerdict(cr, cookie, f, envelope, input) ==
            (Established(Keys(cr.derive("up", secret), cr.derive("dn", secret)), cookie.obfsLengths),
             input[140 + FromBigEndian(m[40..48])..])
  {
    hide FromBigEndian;
    EnvelopeSlices(input);
  }

  lemma EnvelopeSlices(input: seq<byte>)
    ensures |input| >= 140 ==>
              var head, rest := input[..140], input[140..];
              && head[..12] == input[..12] && head[12..124] == input[12..124] && head[124..140] == input[124..140]
              && forall n :: 0 <= n <= |rest| ==> rest[..n] == input[140..140 + n] && rest[n..] == input[140 + n..]
  {
  }

  /** The messages the two ends send, byte range by byte range. */
  lemma HelloLayout(cr: Crypto, f: Fresh, timestamp: nat, respondingTo: seq<byte>)
    requires Sound(cr) && ValidFresh(f) && timestamp < TWO64 && |respondingTo| == 32
    ensures var m := MessageBytes(Hello(cr, f, timestamp, respondingTo));
            && |m| == 112
            && m[..32] == cr.publicKey(f.sk) && FromBigEndian(m[32..40]) == timestamp
            && FromBigEndian(m[40..48]) == |f.padding| && m[48..80] == cr.hash(f.padding)
            && m[80..112] == respondingTo
  {
    hide MessageBytes, FromBigEndian;
    MessageRoundTrip(Hello(cr, f, timestamp, respondingTo));
  }

  // ----- a run of the listener

  /** A replay is refused, with no answer and no change to the table. */
  lemma ReplayIsRefused(cr: Crypto, cookie: Cookie, table: Dedup.Table<seq<byte>>, expiry: nat, k: Knock)
    requires |k.input| >= 140 && cr.hash(k.input[..140]) in table.bucket
    ensures Admit(cr, cookie, table, expiry, k).0.Refused? && Admit(cr, cookie, table, expiry, k).1 == table
  {
    ServerAcceptsIff(cr, cookie, k.random, k.now, table.bucket.Keys, k.input);
  }

  function VisitOf(cr: Crypto, k: Knock): Dedup.Visit<seq<byte>>
    requires |k.input| >= 140
  {
    Dedup.Visit(cr.hash(k.input[..140]), k.clock, k.sweep, k.end)
  }

  /** The listener's replay table with the log of its admissions; `None` if the clock runs backwards. */
  function Answer(cr: Crypto, cookie: Cookie, g: Dedup.Gate<seq<byte>>, expiry: nat, k: Knock)
    : Option<Dedup.Gate<seq<byte>>>
  {
    if |k.input| < 140 then Some(g)
    else if !Dedup.OnTime(g.clock, g.table.bucket, VisitOf(cr, k)) then None
    else
      var (outcome, table) := Admit(cr, cookie, g.table, expiry, k);
      if outcome.Established?
      then Some(Dedup.Gate(table, g.log + [Dedup.Accepted(cr.hash(k.input[..140]), k.clock)], k.end))
      else Some(g.(table := table))
  }

  /** Each connection passes the gate of the replay table, or does not get that far. */
  lemma AnswerIsPass(cr: Crypto, cookie: Cookie, g: Dedup.Gate<seq<byte>>, expiry: nat, k: Knock)
    requires Answer(cr, cookie, g, expiry, k).Some?
    ensures var g' := Answer(cr, cookie, g, expiry, k).value;
            || g' == g
            || (|k.input| >= 140 && Dedup.Pass(g, expiry, VisitOf(cr, k)) == Some(g'))
  {
    hide ServerVerdict, Dedup.Insert;
    ServerAcceptsIff(cr, cookie, k.random, k.now, g.table.bucket.Keys, k.input);
  }

  function AnswerAll(cr: Crypto, cookie: Cookie, expiry: nat, ks: seq<Knock>): Option<Dedup.Gate<seq<byte>>> {
    if ks == [] then Some(Dedup.Gate(Dedup.Empty(), [], 0))
    else match AnswerAll(cr, cookie, expiry, ks[..|ks| - 1])
      case None => None
      case Some(g) => Answer(cr, cookie, g, expiry, ks[|ks| - 1])
  }

  /** Connection `i` of a run was let in. */
  predicate LetIn(cr: Crypto, cookie: Cookie, expiry: nat, ks: seq<Knock>, i: nat)
    requires i < |ks|
  {
    var g := AnswerAll(cr, cookie, expiry, ks[..i]);
    g.Some? && |ks[i].input| >= 140 && Admit(cr, cookie, g.value.table, expiry, ks[i]).0.Established?
  }

  lemma {:induction false} RunIsGated(cr: Crypto, cookie: Cookie, expiry: nat, ks: seq<Knock>)
    requires AnswerAll(cr, cookie, expiry, ks).Some?
    ensures Dedup.Inv(AnswerAll(cr, cookie, expiry, ks).value, expiry)
    ensures forall i :: 0 <= i < |ks| && LetIn(cr, cookie, expiry, ks, i) ==>
              Dedup.Accepted(cr.hash(ks[i].input[..140]), ks[i].clock)
              in AnswerAll(cr, cookie, expiry, ks).value.log
    decreases |ks|
  {
    hide Admit, Dedup.Pass, Dedup.Remembers, Dedup.NoReplay, Dedup.Compact;
    if ks == [] {
      Dedup.EmptyGateOk<seq<byte>>(expiry);
    } else {
      var last := |ks| - 1;
      var front := ks[..last];
      RunIsGated(cr, cookie, expiry, front);
      var g := AnswerAll(cr, cookie, expiry, front).value;
      AnswerIsPass(cr, cookie, g, expiry, ks[last]);
      if Answer(cr, cookie, g, expiry, ks[last]).value != g {
        Dedup.PassKeepsInv(g, expiry, VisitOf(cr, ks[last]));
      }
      forall i | 0 <= i < |ks| && LetIn(cr, cookie, expiry, ks, i)
        ensures Dedup.Accepted(cr.hash(ks[i].input[..140]), ks[i].clock)
                in AnswerAll(cr, cookie, expiry, ks).value.log
      {
        if i < last {
          assert front[..i] == ks[..i] && LetIn(cr, cookie, expiry, front, i);
        }
      }
    }
  }

  /**
   The listener itself refuses replays: in any run of connections, two that present the same
   envelope and are both let in are at least one expiry apart.
   */
  lemma ListenerSpacesReplays(cr: Crypto, cookie: Cookie, expiry: nat, ks: seq<Knock>, i: nat, j: nat)
    requires i < j < |ks| && AnswerAll(cr, cookie, expiry, ks[..j + 1]).Some?
    requires LetIn(cr, cookie, expiry, ks, i) && LetIn(cr, cookie, expiry, ks, j)
    requires ks[i].input[..140] == ks[j].input[..140]
    ensures ks[j].clock - ks[i].clock >= expiry
  {
    hide Admit, Dedup.Remembers, Dedup.Compact;
    var before, upto := ks[..j], ks[..j + 1];
    assert upto[..j] == before && before[..i] == ks[..i];
    assert LetIn(cr, cookie, expiry, before, i);
    RunIsGated(cr, cookie, expiry, before);
    RunIsGated(cr, cookie, expiry, upto);
    var g := AnswerAll(cr, cookie, expiry, before).value;
    var g' := AnswerAll(cr, cookie, expiry, upto).value;
    var first := Dedup.Accepted(cr.hash(ks[i].input[..140]), ks[i].clock);
    var m :| 0 <= m < |g.log| && g.log[m] == first;
    assert g'.log[m] == first && g'.log[|g.log|] == Dedup.Accepted(first.key, ks[j].clock);
  }

  // ----- alignment

  /** Reading a peer's hello stops exactly at the byte after its padding. */
  lemma HelloAligns(cr: Crypto, cookie: Cookie, isServer: bool, f: Fresh, timestamp: nat,
                    respondingTo: seq<byte>, rest: seq<byte>)
    requires Sound(cr) && ValidFresh(f) && timestamp < TWO64 && |respondingTo| == 32
    ensures var e := HelloEnvelope(cr, cookie, isServer, f, timestamp, respondingTo);
            var h := Hello(cr, f, timestamp, respondingTo);
            var r := ReadEnvelope(cr, cookie, isServer, e + f.padding + rest);
            && r == Read(h, e, f.padding + rest)
            && ReadPadding(cr, r) == Read(h, e, rest)
  {
    hide SealEnvelope, OpenEnvelope, Lawful;
    var e := HelloEnvelope(cr, cookie, isServer, f, timestamp, respondingTo);
    var h := Hello(cr, f, timestamp, respondingTo);
    EnvelopeRoundTrip(cr, cookie, isServer, f.nonce, h);
    var input := e + f.padding + rest;
    assert input == e + (f.padding + rest);
    assert input[..ENVELOPE_SIZE] == e && input[ENVELOPE_SIZE..] == f.padding + rest;
    assert (f.padding + rest)[..|f.padding|] == f.padding;
    assert (f.padding + rest)[|f.padding|..] == rest;
  }

  /**
   Whatever the two padding lengths and whatever follows in either direction: if the clocks
   agree to thirty seconds and the hello is new, both ends finish, each has consumed exactly
   the other's hello, and each holds the other's keys.
   */
  lemma HandshakeAgrees(cr: Crypto, cookie: Cookie, c: Fresh, s: Fresh, sent: nat, now: nat,
                        seen: set<seq<byte>>, up: seq<byte>, down: seq<byte>)
    requires Sound(cr) && ValidFresh(c) && ValidFresh(s)
    requires sent < TWO64 && now < TWO64 && AbsDiff(sent, now) <= WAIT_INTERVAL
    requires cr.hash(HelloEnvelope(cr, cookie, false, c, sent, cr.hash([]))) !in seen
    ensures var mine := HelloEnvelope(cr, cookie, false, c, sent, cr.hash([]));
            var theirs := HelloEnvelope(cr, cookie, true, s, now, cr.hash(mine));
            var (server, upLeft) := ServerVerdict(cr, cookie, s, now, seen, mine + c.padding + up);
            var (client, downLeft) := ClientVerdict(cr, cookie, c, mine, theirs + s.padding + down);
            && upLeft == up && downLeft == down
            && server == Established(KeysFrom(cr, s.sk, cr.publicKey(c.sk), true), cookie.obfsLengths)
            && client == Established(KeysFrom(cr, c.sk, cr.publicKey(s.sk), false), cookie.obfsLengths)
            && server.keys.recv == client.keys.send && client.keys.recv == server.keys.send
  {
    var mine := HelloEnvelope(cr, cookie, false, c, sent, cr.hash([]));
    HelloAligns(cr, cookie, false, c, sent, cr.hash([]), up);
    HelloAligns(cr, cookie, true, s, now, cr.hash(mine), down);
  }

  /** All of an honest direction decodes to its plaintext with nothing left over. */
  lemma WholeDirectionDecodes(c: Cipher, ps: seq<Part>)
    requires Lawful(c.aead) && Sendable(ps)
    ensures DecodeAll(c, 0, Ciphertext(c, 0, ps)) == Progress(Plaintext(ps), [], 2 * |ps|, false)
  {
    hide Record, DecodeAll, Lawful;
    var all := Ciphertext(c, 0, ps);
    var d := DecoderStaysInStep(c, 0, ps, |all|);
    assert all[..|all|] == all;
    Pipe.EverythingDecoded(c, ps, d, |DecodeAll(c, 0, all).left|);
    assert ps[..d] == ps;
  }

  /**
   The handshake leads straight into the record layer: whatever records either end sends right
   after its hello, the other end decodes to their plaintext, with nothing lost at the seam.
   */
  lemma RecordsFollowHandshake(cr: Crypto, cookie: Cookie, c: Fresh, s: Fresh, sent: nat, now: nat,
                               seen: set<seq<byte>>, ups: seq<Part>, downs: seq<Part>)
    requires Sound(cr) && ValidFresh(c) && ValidFresh(s) && Sendable(ups) && Sendable(downs)
    requires sent < TWO64 && now < TWO64 && AbsDiff(sent, now) <= WAIT_INTERVAL
    requires cr.hash(HelloEnvelope(cr, cookie, false, c, sent, cr.hash([]))) !in seen
    ensures var mine := HelloEnvelope(cr, cookie, false, c, sent, cr.hash([]));
            var theirs := HelloEnvelope(cr, cookie, true, s, now, cr.hash(mine));
            var up := Ciphertext(Cipher(cr.aead, KeysFrom(cr, c.sk, cr.publicKey(s.sk), false).send), 0, ups);
            var down := Ciphertext(Cipher(cr.aead, KeysFrom(cr, s.sk, cr.publicKey(c.sk), true).send), 0, downs);
            var (server, upLeft) := ServerVerdict(cr, cookie, s, now, seen, mine + c.padding + up);
            var (client, downLeft) := ClientVerdict(cr, cookie, c, mine, theirs + s.padding + down);
            && server.Established? && client.Established?
            && client.keys == KeysFrom(cr, c.sk, cr.publicKey(s.sk), false)
            && server.keys == KeysFrom(cr, s.sk, cr.publicKey(c.sk), true)
            && DecodeAll(Cipher(cr.aead, server.keys.recv), 0, upLeft) ==
               Progress(Plaintext(ups), [], 2 * |ups|, false)
            && DecodeAll(Cipher(cr.aead, client.keys.recv), 0, downLeft) ==
               Progress(Plaintext(downs), [], 2 * |downs|, false)
  {
    hide ServerVerdict, ClientVerdict, HelloEnvelope, Ciphertext, Plaintext, DecodeAll, KeysFrom, Sendable;
    var upward := Cipher(cr.aead, KeysFrom(cr, c.sk, cr.publicKey(s.sk), false).send);
    var downward := Cipher(cr.aead, KeysFrom(cr, s.sk, cr.publicKey(c.sk), true).send);
    HandshakeAgrees(cr, cookie, c, s, sent, now, seen,
                    Ciphertext(upward, 0, ups), Ciphertext(downward, 0, downs));
    WholeDirectionDecodes(upward, ups);
    WholeDirectionDecodes(downward, downs);
  }
}
