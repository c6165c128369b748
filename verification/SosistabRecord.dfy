/**
 The sosistab3 record layer: length-prefixed encrypted records, signed lengths that mark
 padding, counted nonces, padding to a power of two, and incremental decoding. The cipher is
 a parameter with the two laws of an authenticated cipher with detached 16-byte tags.
 */
module SosistabRecord {
  import opened Common

  type Key = seq<byte>

  /** ChaCha20-Poly1305 as used here: key, nonce and text; the result of sealing is (body, tag). */
  datatype Aead = Aead(
    seal: (Key, seq<byte>, seq<byte>) -> (seq<byte>, seq<byte>),
    open: (Key, seq<byte>, seq<byte>, seq<byte>) -> Option<seq<byte>>)

  ghost predicate Lawful(a: Aead) {
    && (forall k: Key, n: seq<byte>, p: seq<byte> ::
          && |a.seal(k, n, p).0| == |p| && |a.seal(k, n, p).1| == 16
          && a.open(k, n, a.seal(k, n, p).0, a.seal(k, n, p).1) == Some(p))
    && (forall k: Key, n: seq<byte>, c: seq<byte>, t: seq<byte> ::
          a.open(k, n, c, t).Some? ==> |a.open(k, n, c, t).value| == |c|)
  }

  /** One direction of a connection. */
  datatype Cipher = Cipher(aead: Aead, key: Key)

  // ----- nonces

  /** A counter as a 96-bit nonce. */
  function NonceBytes(n: nat): seq<byte> {
    LittleEndian(n, 8) + [0, 0, 0, 0]
  }

  /** Distinct counters below 2^64 give distinct nonces. */
  lemma NoncesAreDistinct(m: nat, n: nat)
    requires m < 0x1_0000_0000_0000_0000 && n < 0x1_0000_0000_0000_0000
    requires NonceBytes(m) == NonceBytes(n)
    ensures m == n
  {
    PowerValues();
    assert LittleEndian(m, 8) == NonceBytes(m)[..8] == NonceBytes(n)[..8] == LittleEndian(n, 8);
    LittleEndianRoundTrip(m, 8);
    LittleEndianRoundTrip(n, 8);
  }

  /** Twelve bytes: the counter in eight, low byte first, and four zeros. */
  lemma NonceLayout(n: nat)
    requires n < 0x1_0000_0000_0000_0000
    ensures var s := NonceBytes(n);
            |s| == 12 && FromLittleEndian(s[..8]) == n && s[8..] == [0, 0, 0, 0]
  {
    PowerValues();
    LittleEndianRoundTrip(n, 8);
    assert NonceBytes(n)[..8] == LittleEndian(n, 8);
  }

  function Seal(c: Cipher, n: nat, p: seq<byte>): seq<byte> {
    var (body, tag) := c.aead.seal(c.key, NonceBytes(n), p);
    body + tag
  }

  // ----- signed lengths

  const TWO31 := 0x8000_0000
  const TWO32 := 0x1_0000_0000

  /** The low 32 bits of the length, negated for padding, as little-endian bytes. */
  function LengthField(len: nat, padding: bool): (s: seq<byte>)
    ensures |s| == 4
  {
    var low := len % TWO32;
    LittleEndian(if padding then (TWO32 - low) % TWO32 else low, 4)
  }

  /** The bytes read back as a two's-complement i32. */
  function SignedLength(s: seq<byte>): int {
    var u := FromLittleEndian(s);
    if u < TWO31 then u else u - TWO32
  }

  function Abs(n: int): nat {
    if n < 0 then -n else n
  }

  lemma LengthFieldDecodes(len: nat, padding: bool)
    ensures var low := len % TWO32;
            SignedLength(LengthField(len, padding)) ==
              var u := if padding then (TWO32 - low) % TWO32 else low;
              if u < TWO31 then u else u - TWO32
  {
    var low := len % TWO32;
    PowerValues();
    LittleEndianRoundTrip(if padding then (TWO32 - low) % TWO32 else low, 4);
  }

  /** The field byte by byte: the low 32 bits of the length or of its negation, low byte first. */
  lemma LengthFieldLayout(len: nat, padding: bool)
    ensures var s := LengthField(len, padding);
            var u := s[0] as int + 0x100 * s[1] as int + 0x1_0000 * s[2] as int + 0x100_0000 * s[3] as int;
            && |s| == 4 && 0 <= u < 0x1_0000_0000
            && (u - (if padding then 0 - len else len)) % 0x1_0000_0000 == 0
            && SignedLength(s) == if u < 0x8000_0000 then u else u - 0x1_0000_0000
  {
    hide LittleEndian;
    var s := LengthField(len, padding);
    var low := len % TWO32;
    PowerValues();
    LittleEndianRoundTrip(if padding then (TWO32 - low) % TWO32 else low, 4);
    assert s == [s[0], s[1], s[2], s[3]];
    LittleEndianValues(s[0], s[1], s[2], s[3]);
    hide FromLittleEndian;
    assert len == low + TWO32 * (len / TWO32);
  }

  /** A length survives the field, with its sign, exactly when it is below 2^31. */
  lemma DataLengthSurvives(len: nat)
    ensures SignedLength(LengthField(len, false)) == len <==> len < TWO31
  {
    LengthFieldDecodes(len, false);
  }

  lemma PaddingLengthSurvives(len: nat)
    requires len <= TWO31
    ensures SignedLength(LengthField(len, true)) == 0 - len
  {
    LengthFieldDecodes(len, true);
  }

  // ----- records

  const RECORD_OVERHEAD := 36

  /** `encrypt_inner`: the sealed length under nonce `n`, the sealed body under `n + 1`. */
  function Record(c: Cipher, n: nat, p: seq<byte>, padding: bool): seq<byte> {
    Seal(c, n, LengthField(|p|, padding)) + Seal(c, n + 1, p)
  }

  lemma RecordLength(c: Cipher, n: nat, p: seq<byte>, padding: bool)
    requires Lawful(c.aead)
    ensures |Record(c, n, p, padding)| == RECORD_OVERHEAD + |p|
  {
  }

  /** `Short`: more bytes are needed. `Broken`: authentication failed. */
  datatype Attempt = Short | Broken | Opened(body: seq<byte>, used: nat)

  /** One call of `decrypt` with receive counter `n`. */
  function DecodeOne(c: Cipher, n: nat, bts: seq<byte>): (r: Attempt)
    ensures r.Opened? ==> RECORD_OVERHEAD <= r.used <= |bts|
  {
    if |bts| < 24 then
      Short
    else
      match c.aead.open(c.key, NonceBytes(n), bts[..4], bts[4..20])
      case None => Broken
      case Some(field) =>
        var length := SignedLength(field);
        var actual := Abs(length);
        var rest := bts[20..];
        if actual + 16 > |rest| then
          Short
        else
          match c.aead.open(c.key, NonceBytes(n + 1), rest[..actual], rest[actual..actual + 16])
          case None => Broken
          case Some(body) => Opened(if length > 0 then body else [], 36 + actual)
  }

  /** The outcome of opening the first 20 bytes: the length field, if its tag is right. */
  function HeadField(c: Cipher, n: nat, bts: seq<byte>): Option<seq<byte>>
    requires |bts| >= 20
  {
    c.aead.open(c.key, NonceBytes(n), bts[..4], bts[4..20])
  }

  /**
   What is handed out was authenticated: both tags were right, under two consecutive nonces, and
   the result is the second text, or nothing if the length marks it as padding.
   */
  lemma OpenedIsAuthentic(c: Cipher, n: nat, bts: seq<byte>)
    requires DecodeOne(c, n, bts).Opened?
    ensures var r := DecodeOne(c, n, bts);
            && 36 <= r.used <= |bts|
            && HeadField(c, n, bts).Some?
            && var length := SignedLength(HeadField(c, n, bts).value);
               var text := c.aead.open(c.key, NonceBytes(n + 1), bts[20..r.used - 16], bts[r.used - 16..r.used]);
               && (r.used - 36 == length || r.used - 36 == -length)
               && text.Some?
               && r.body == if length > 0 then text.value else []
  {
    hide NonceBytes, SignedLength;
    var actual := Abs(SignedLength(HeadField(c, n, bts).value));
    assert bts[20..][..actual] == bts[20..20 + actual];
    assert bts[20..][actual..actual + 16] == bts[20 + actual..36 + actual];
  }

  /** The other two verdicts: refused iff a tag that is there is wrong, and otherwise more is needed. */
  lemma RefusedIffForged(c: Cipher, n: nat, bts: seq<byte>)
    ensures DecodeOne(c, n, bts).Broken? <==>
            && |bts| >= 24
            && (|| HeadField(c, n, bts).None?
                || var end := 36 + Abs(SignedLength(HeadField(c, n, bts).value));
                   end <= |bts| && c.aead.open(c.key, NonceBytes(n + 1), bts[20..end - 16], bts[end - 16..end]).None?)
    ensures DecodeOne(c, n, bts).Short? <==>
            || |bts| < 24
            || (HeadField(c, n, bts).Some? && |bts| < 36 + Abs(SignedLength(HeadField(c, n, bts).value)))
  {
    hide NonceBytes, SignedLength;
    if |bts| >= 24 && HeadField(c, n, bts).Some? {
      var actual := Abs(SignedLength(HeadField(c, n, bts).value));
      if 36 + actual <= |bts| {
        assert bts[20..][..actual] == bts[20..20 + actual];
        assert bts[20..][actual..actual + 16] == bts[20 + actual..36 + actual];
      }
    }
  }

  lemma RecordHead(c: Cipher, n: nat, p: seq<byte>, padding: bool, bts: seq<byte>)
    requires Lawful(c.aead) && |bts| >= 20
    requires Seal(c, n, LengthField(|p|, padding)) == bts[..20]
    ensures c.aead.open(c.key, NonceBytes(n), bts[..4], bts[4..20]) == Some(LengthField(|p|, padding))
  {
    var (body, tag) := c.aead.seal(c.key, NonceBytes(n), LengthField(|p|, padding));
    assert bts[..4] == bts[..20][..4] == body;
    assert bts[4..20] == bts[..20][4..] == tag;
  }

  /** A record of known length opens to its body, or to nothing if it is padding. */
  lemma RecordOpens(c: Cipher, n: nat, p: seq<byte>, padding: bool, rest: seq<byte>)
    requires Lawful(c.aead) && |p| < TWO31
    ensures DecodeOne(c, n, Record(c, n, p, padding) + rest) ==
            Opened(if padding then [] else p, |Record(c, n, p, padding)|)
  {
    hide LittleEndian, FromLittleEndian, NonceBytes;
    var bts := Record(c, n, p, padding) + rest;
    RecordLength(c, n, p, padding);
    assert bts[..20] == Seal(c, n, LengthField(|p|, padding));
    RecordHead(c, n, p, padding, bts);
    DataLengthSurvives(|p|);
    PaddingLengthSurvives(|p|);
    var (body, tag) := c.aead.seal(c.key, NonceBytes(n + 1), p);
    assert bts[20..] == body + tag + rest;
    assert bts[20..][..|p|] == body;
    assert bts[20..][|p|..|p| + 16] == tag;
  }

  /**
   A data record reads back as what was sealed, and stops at its own end, exactly when the
   plaintext is shorter than 2^31 bytes: `as i32` wraps for anything longer.
   */
  lemma RecordRoundTrip(c: Cipher, n: nat, p: seq<byte>)
    requires Lawful(c.aead)
    ensures DecodeOne(c, n, Record(c, n, p, false)) == Opened(p, RECORD_OVERHEAD + |p|)
            <==> |p| < TWO31
  {
    var bts := Record(c, n, p, false);
    RecordLength(c, n, p, false);
    if |p| < TWO31 {
      RecordOpens(c, n, p, false, []);
      assert bts + [] == bts;
    } else {
      assert bts[..20] == Seal(c, n, LengthField(|p|, false));
      RecordHead(c, n, p, false, bts);
      LengthFieldDecodes(|p|, false);
    }
  }

  /** An honest record is not accepted, and not refused, before its last byte has arrived. */
  lemma PartialRecordWaits(c: Cipher, n: nat, p: seq<byte>, padding: bool, arrived: nat)
    requires Lawful(c.aead) && |p| < TWO31
    requires arrived < |Record(c, n, p, padding)|
    ensures DecodeOne(c, n, Record(c, n, p, padding)[..arrived]).Short?
  {
    var bts := Record(c, n, p, padding)[..arrived];
    RecordLength(c, n, p, padding);
    if arrived >= 24 {
      assert bts[..20] == Seal(c, n, LengthField(|p|, padding));
      RecordHead(c, n, p, padding, bts);
      DataLengthSurvives(|p|);
      PaddingLengthSurvives(|p|);
    }
  }

  // ----- incremental decoding of an arbitrary byte stream

  /** A verdict other than `Short` depends only on bytes already seen. */
  lemma VerdictIsStable(c: Cipher, n: nat, a: seq<byte>, b: seq<byte>)
    requires !DecodeOne(c, n, a).Short?
    ensures DecodeOne(c, n, a + b) == DecodeOne(c, n, a)
  {
    hide NonceBytes, SignedLength;
    assert (a + b)[..4] == a[..4] && (a + b)[4..20] == a[4..20];
    var field := c.aead.open(c.key, NonceBytes(n), a[..4], a[4..20]);
    if field.Some? {
      var actual := Abs(SignedLength(field.value));
      var rest := a[20..];
      assert (a + b)[20..] == rest + b;
      assert (rest + b)[..actual] == rest[..actual];
      assert (rest + b)[actual..actual + 16] == rest[actual..actual + 16];
    }
  }

  /** What a run of the decrypt loop has produced. */
  datatype Progress = Progress(out: seq<byte>, left: seq<byte>, nonce: nat, broken: bool)

  /** Decrypt until stuck. */
  function DecodeAll(c: Cipher, n: nat, bts: seq<byte>): (r: Progress)
    ensures |r.left| <= |bts|
    decreases |bts|
  {
    match DecodeOne(c, n, bts)
    case Short => Progress([], bts, n, false)
    case Broken => Progress([], bts, n, true)
    case Opened(body, used) =>
      var r := DecodeAll(c, n + 2, bts[used..]);
      r.(out := body + r.out)
  }

  /** The loop after one more chunk has been read from the lower pipe. */
  function Feed(c: Cipher, r: Progress, chunk: seq<byte>): Progress {
    var r' := DecodeAll(c, r.nonce, r.left + chunk);
    r'.(out := r.out + r'.out)
  }

  function FeedAll(c: Cipher, r: Progress, chunks: seq<seq<byte>>): Progress
    decreases |chunks|
  {
    if chunks == [] then r else FeedAll(c, Feed(c, r, chunks[0]), chunks[1..])
  }

  lemma {:induction false} DecodeAllAppend(c: Cipher, n: nat, a: seq<byte>, b: seq<byte>)
    ensures DecodeAll(c, n, a + b) == Feed(c, DecodeAll(c, n, a), b)
    decreases |a|
  {
    hide DecodeOne;
    match DecodeOne(c, n, a) {
      case Short =>
        var r := DecodeAll(c, n, a + b);
        assert [] + r.out == r.out;
      case Broken =>
        VerdictIsStable(c, n, a, b);
      case Opened(body, used) =>
        VerdictIsStable(c, n, a, b);
        assert (a + b)[used..] == a[used..] + b;
        DecodeAllAppend(c, n + 2, a[used..], b);
        var r := DecodeAll(c, n + 2, a[used..]);
        var r' := DecodeAll(c, r.nonce, r.left + b);
        assert body + (r.out + r'.out) == (body + r.out) + r'.out;
    }
  }

  /**
   Chunking independence: for every byte stream, honest or not, and every way of cutting it,
   feeding the chunks one by one gives the plaintext, leftover, counter and verdict of
   decoding the whole stream at once.
   */
  lemma {:induction false} ChunkingDoesNotMatter(c: Cipher, n: nat, seen: seq<byte>, chunks: seq<seq<byte>>)
    ensures FeedAll(c, DecodeAll(c, n, seen), chunks) == DecodeAll(c, n, seen + Flatten(chunks))
    decreases |chunks|
  {
    hide DecodeAll, Feed;
    if chunks == [] {
      assert seen + Flatten(chunks) == seen;
    } else {
      DecodeAllAppend(c, n, seen, chunks[0]);
      ChunkingDoesNotMatter(c, n, seen + chunks[0], chunks[1..]);
      assert seen + chunks[0] + Flatten(chunks[1..]) == seen + Flatten(chunks);
    }
  }

  // ----- padding

  predicate PowerOfTwo(n: nat) {
    n == 1 || (n > 0 && n % 2 == 0 && PowerOfTwo(n / 2))
  }

  /** `usize::next_power_of_two`. */
  function NextPowerOfTwo(n: nat): nat {
    DoubleUntil(1, n)
  }

  function DoubleUntil(p: nat, n: nat): nat
    requires p > 0
    decreases n - p
  {
    if p >= n then p else DoubleUntil(2 * p, n)
  }

  lemma {:induction false} DoubleUntilIsLeast(p: nat, n: nat, other: nat)
    requires PowerOfTwo(p) && (p == 1 || p / 2 < n)
    ensures var q := DoubleUntil(p, n); PowerOfTwo(q) && q >= n && (q == 1 || q / 2 < n)
    ensures other >= n && PowerOfTwo(other) && other >= p ==> other >= DoubleUntil(p, n)
    decreases n - p
  {
    if p < n {
      assert (2 * p) / 2 == p;
      DoubleUntilIsLeast(2 * p, n, other);
      if other >= n && PowerOfTwo(other) && other >= p {
        NextAfter(p, other);
      }
    }
  }

  /** The next power of two above `p` is `2p`. */
  lemma {:induction false} NextAfter(p: nat, other: nat)
    requires PowerOfTwo(p) && PowerOfTwo(other) && other > p
    ensures other >= 2 * p
  {
    if p > 1 {
      NextAfter(p / 2, other / 2);
    }
  }

  /** The least power of two that is at least `n`. */
  lemma NextPowerOfTwoIsLeast(n: nat, other: nat)
    ensures PowerOfTwo(NextPowerOfTwo(n)) && NextPowerOfTwo(n) >= n
    ensures NextPowerOfTwo(n) == 1 || NextPowerOfTwo(n) / 2 < n
    ensures other >= n && PowerOfTwo(other) ==> other >= NextPowerOfTwo(n)
  {
    if other >= n && PowerOfTwo(other) {
      assert other >= 1;
    }
    DoubleUntilIsLeast(1, n, other);
  }

  const PADDING_LIMIT := 2000

  /** Bytes of padding body for a plaintext of `len` bytes and a random `jitter` below ten. */
  function PaddingLength(len: nat, jitter: nat): int {
    NextPowerOfTwo(len + 2 * RECORD_OVERHEAD) + jitter - (len + 2 * RECORD_OVERHEAD)
  }

  /** No subtraction underflows and the slice of the zero buffer is in range. */
  lemma PaddingFits(len: nat, jitter: nat)
    requires len + RECORD_OVERHEAD < PADDING_LIMIT && jitter < 10
    ensures 0 <= PaddingLength(len, jitter) <= 2000
  {
    var want := len + 2 * RECORD_OVERHEAD;
    assert PowerOfTwo(2048) by {
      assert PowerOfTwo(8) && PowerOfTwo(16) && PowerOfTwo(32) && PowerOfTwo(64);
      assert PowerOfTwo(128) && PowerOfTwo(256) && PowerOfTwo(512) && PowerOfTwo(1024);
    }
    NextPowerOfTwoIsLeast(want, 2048);
  }

  function Zeros(n: nat): (s: seq<byte>)
    ensures |s| == n
  {
    seq(n, _ => 0)
  }

  /** `encrypt`: the data record and, for short writes under length obfuscation, a padding record. */
  function Encrypt(c: Cipher, n: nat, p: seq<byte>, obfs: bool, jitter: nat): seq<byte>
    requires jitter < 10
  {
    if obfs && |p| + RECORD_OVERHEAD < PADDING_LIMIT then
      PaddingFits(|p|, jitter);
      Record(c, n, p, false) + Record(c, n + 2, Zeros(PaddingLength(|p|, jitter)), true)
    else
      Record(c, n, p, false)
  }

  /** Records made by one `encrypt`. */
  function RecordCount(len: nat, obfs: bool): nat {
    if obfs && len + RECORD_OVERHEAD < PADDING_LIMIT then 2 else 1
  }

  /**
   The wire length of a padded write is a power of two plus the jitter, and the power is the
   least one that leaves room for both records.
   */
  lemma PaddedWireLength(c: Cipher, n: nat, p: seq<byte>, jitter: nat, other: nat)
    requires Lawful(c.aead) && jitter < 10 && |p| + 36 < 2000
    ensures var base := |Encrypt(c, n, p, true, jitter)| - jitter;
            && PowerOfTwo(base)
            && base >= |p| + 72
            && (other >= |p| + 72 && PowerOfTwo(other) ==> other >= base)
  {
    PaddingFits(|p|, jitter);
    RecordLength(c, n, p, false);
    RecordLength(c, n + 2, Zeros(PaddingLength(|p|, jitter)), true);
    NextPowerOfTwoIsLeast(|p| + 72, other);
  }

  /** Without length obfuscation, and for long writes, only the record itself goes out. */
  lemma UnpaddedWireLength(c: Cipher, n: nat, p: seq<byte>, obfs: bool, jitter: nat)
    requires Lawful(c.aead) && jitter < 10 && (!obfs || |p| + 36 >= 2000)
    ensures |Encrypt(c, n, p, obfs, jitter)| == |p| + 36
  {
    RecordLength(c, n, p, false);
  }

  // ----- a whole direction

  /** One record of a direction: its body and whether it is padding. */
  datatype Part = Part(body: seq<byte>, padding: bool)

  /** The records made by one `encrypt`. */
  function Parts(p: seq<byte>, obfs: bool, jitter: nat): (ps: seq<Part>)
    requires jitter < 10
    ensures |ps| == RecordCount(|p|, obfs)
  {
    if obfs && |p| + RECORD_OVERHEAD < PADDING_LIMIT then
      PaddingFits(|p|, jitter);
      [Part(p, false), Part(Zeros(PaddingLength(|p|, jitter)), true)]
    else
      [Part(p, false)]
  }

  /** The plaintext goes first; padding is a second record of zeros, and only for short writes. */
  lemma PartsMeaning(p: seq<byte>, obfs: bool, jitter: nat)
    requires jitter < 10
    ensures var ps := Parts(p, obfs, jitter);
            && 1 <= |ps| <= 2 && (|ps| == 2 <==> obfs && |p| + 36 < 2000)
            && ps[0] == Part(p, false)
            && (|ps| == 2 ==> ps[1].padding && forall i :: 0 <= i < |ps[1].body| ==> ps[1].body[i] == 0)
  {
    hide PaddingLength;
  }

  function Ciphertext(c: Cipher, n: nat, ps: seq<Part>): seq<byte>
    decreases |ps|
  {
    if ps == [] then []
    else Record(c, n, ps[0].body, ps[0].padding) + Ciphertext(c, n + 2, ps[1..])
  }

  function Plaintext(ps: seq<Part>): seq<byte> {
    if ps == [] then [] else (if ps[0].padding then [] else ps[0].body) + Plaintext(ps[1..])
  }

  lemma EncryptIsCiphertext(c: Cipher, n: nat, p: seq<byte>, obfs: bool, jitter: nat)
    requires jitter < 10
    ensures Encrypt(c, n, p, obfs, jitter) == Ciphertext(c, n, Parts(p, obfs, jitter))
    ensures Plaintext(Parts(p, obfs, jitter)) == p
  {
    hide Record, PaddingLength;
    var ps := Parts(p, obfs, jitter);
    assert ps[0] == Part(p, false);
    if |ps| == 2 {
      assert ps[1..][1..] == [];
      assert ps[1..] == [ps[1]];
      assert Ciphertext(c, n + 2, ps[1..]) == Record(c, n + 2, ps[1].body, true) + [];
      assert Plaintext(ps[1..]) == [];
    } else {
      assert ps[1..] == [];
    }
  }

  lemma {:induction false} CiphertextAppend(c: Cipher, n: nat, a: seq<Part>, b: seq<Part>)
    ensures Ciphertext(c, n, a + b) == Ciphertext(c, n, a) + Ciphertext(c, n + 2 * |a|, b)
    decreases |a|
  {
    hide Record;
    if a == [] {
      assert a + b == b;
    } else {
      assert (a + b)[1..] == a[1..] + b;
      CiphertextAppend(c, n + 2, a[1..], b);
    }
  }

  lemma {:induction false} PlaintextAppend(a: seq<Part>, b: seq<Part>)
    ensures Plaintext(a + b) == Plaintext(a) + Plaintext(b)
  {
    if a == [] {
      assert a + b == b;
    } else {
      assert (a + b)[1..] == a[1..] + b;
      PlaintextAppend(a[1..], b);
    }
  }

  ghost predicate Sendable(ps: seq<Part>) {
    forall i :: 0 <= i < |ps| ==> |ps[i].body| < TWO31
  }

  /**
   Lockstep: after any `arrived` bytes of an honest direction the decoder has opened exactly
   the first `d` records, is not broken, has produced their plaintext, has advanced its
   counter by two for each, and keeps a proper part of the next record.
   */
  ghost predicate InStep(c: Cipher, n: nat, ps: seq<Part>, arrived: nat, r: Progress, d: nat) {
    && d <= |ps|
    && !r.broken
    && r.out == Plaintext(ps[..d])
    && r.nonce == n + 2 * d
    && |Ciphertext(c, n, ps[..d])| + |r.left| == arrived
    && (d < |ps| ==> |r.left| < |Record(c, n + 2 * d, ps[d].body, ps[d].padding)|)
    && (d == |ps| ==> r.left == [])
  }

  lemma {:induction false} DecoderStaysInStep(c: Cipher, n: nat, ps: seq<Part>, arrived: nat)
    returns (d: nat)
    requires Lawful(c.aead) && Sendable(ps) && arrived <= |Ciphertext(c, n, ps)|
    ensures InStep(c, n, ps, arrived, DecodeAll(c, n, Ciphertext(c, n, ps)[..arrived]), d)
    decreases |ps|
  {
    var bts := Ciphertext(c, n, ps)[..arrived];
    d := 0;
    if ps == [] {
      assert bts == [];
    } else {
      var first := Record(c, n, ps[0].body, ps[0].padding);
      if arrived < |first| {
        assert bts == first[..arrived];
        PartialRecordWaits(c, n, ps[0].body, ps[0].padding, arrived);
        assert ps[..0] == [];
      } else {
        d := StepOverRecord(c, n, ps, arrived);
      }
    }
  }

  lemma StepOverRecord(c: Cipher, n: nat, ps: seq<Part>, arrived: nat) returns (d: nat)
    requires Lawful(c.aead) && Sendable(ps) && ps != []
    requires |Record(c, n, ps[0].body, ps[0].padding)| <= arrived <= |Ciphertext(c, n, ps)|
    ensures InStep(c, n, ps, arrived, DecodeAll(c, n, Ciphertext(c, n, ps)[..arrived]), d)
    decreases |ps|, 0
  {
    hide DecodeOne, Record, Lawful;
    var first := Record(c, n, ps[0].body, ps[0].padding);
    var tail := Ciphertext(c, n + 2, ps[1..])[..arrived - |first|];
    var bts := Ciphertext(c, n, ps)[..arrived];
    assert bts == first + tail;
    RecordOpens(c, n, ps[0].body, ps[0].padding, tail);
    assert bts[|first|..] == tail;
    var e := DecoderStaysInStep(c, n + 2, ps[1..], arrived - |first|);
    d := e + 1;
    assert ps[..d][1..] == ps[1..][..e] && ps[..d][0] == ps[0];
  }

  // ----- the calls of the cipher

  /** One use of the sealing key: the nonce and the text given to the cipher. */
  datatype SealCall = SealCall(nonce: seq<byte>, text: seq<byte>)

  /** What the cipher returns for a list of calls, written out one after the other. */
  function SealAll(c: Cipher, calls: seq<SealCall>): seq<byte> {
    if calls == [] then []
    else
      var (body, tag) := c.aead.seal(c.key, calls[0].nonce, calls[0].text);
      body + tag + SealAll(c, calls[1..])
  }

  function RecordCalls(n: nat, p: Part): seq<SealCall> {
    [SealCall(NonceBytes(n), LengthField(|p.body|, p.padding)), SealCall(NonceBytes(n + 1), p.body)]
  }

  /** The calls made for a whole direction, in order. */
  function SealCalls(n: nat, ps: seq<Part>): seq<SealCall>
    decreases |ps|
  {
    if ps == [] then [] else RecordCalls(n, ps[0]) + SealCalls(n + 2, ps[1..])
  }

  /** The calls made by one `encrypt`. */
  lemma PartsCalls(n: nat, p: seq<byte>, obfs: bool, jitter: nat)
    requires jitter < 10
    ensures var ps := Parts(p, obfs, jitter);
            SealCalls(n, ps) == RecordCalls(n, ps[0]) + if |ps| == 2 then RecordCalls(n + 2, ps[1]) else []
  {
    hide RecordCalls, PaddingLength;
    var ps := Parts(p, obfs, jitter);
    if |ps| == 2 {
      assert ps[1..] == [ps[1]] && ps[1..][1..] == [];
      assert SealCalls(n + 2, ps[1..]) == RecordCalls(n + 2, ps[1]) + SealCalls(n + 4, []);
    } else {
      assert ps[1..] == [];
    }
  }

  lemma RecordIsSealed(c: Cipher, n: nat, p: Part, rest: seq<SealCall>)
    ensures SealAll(c, RecordCalls(n, p) + rest) == Record(c, n, p.body, p.padding) + SealAll(c, rest)
  {
    hide NonceBytes, LengthField;
    var calls := RecordCalls(n, p) + rest;
    assert calls[1..][1..] == rest;
    assert calls[1..][0] == SealCall(NonceBytes(n + 1), p.body);
  }

  /** All that is ever written in a direction is the result of these calls and nothing else. */
  lemma {:induction false} CiphertextIsSealed(c: Cipher, n: nat, ps: seq<Part>)
    ensures Ciphertext(c, n, ps) == SealAll(c, SealCalls(n, ps))
    decreases |ps|
  {
    hide Record, RecordCalls, SealAll;
    if ps == [] {
      assert SealAll(c, []) == [] by { NothingSealed(c); }
    } else {
      CiphertextIsSealed(c, n + 2, ps[1..]);
      RecordIsSealed(c, n, ps[0], SealCalls(n + 2, ps[1..]));
    }
  }

  lemma NothingSealed(c: Cipher)
    ensures SealAll(c, []) == []
  {
  }

  lemma {:induction false} SealCallCount(n: nat, ps: seq<Part>)
    ensures |SealCalls(n, ps)| == 2 * |ps|
    decreases |ps|
  {
    if ps != [] {
      SealCallCount(n + 2, ps[1..]);
    }
  }

  /** The calls use consecutive counter values. */
  lemma {:induction false} SealCallNonce(n: nat, ps: seq<Part>, i: nat)
    requires i < |SealCalls(n, ps)|
    ensures SealCalls(n, ps)[i].nonce == NonceBytes(n + i)
    decreases |ps|
  {
    hide NonceBytes, LengthField;
    if i >= 2 {
      SealCallNonce(n + 2, ps[1..], i - 2);
    }
  }

  /** No two calls share a nonce, as long as the 64-bit counter has not run out. */
  lemma NonceNeverReused(n: nat, ps: seq<Part>, i: nat, j: nat)
    requires i < j < |SealCalls(n, ps)| && n + 2 * |ps| <= 0x1_0000_0000_0000_0000
    ensures SealCalls(n, ps)[i].nonce != SealCalls(n, ps)[j].nonce
  {
    hide SealCalls, NonceBytes;
    SealCallCount(n, ps);
    SealCallNonce(n, ps, i);
    SealCallNonce(n, ps, j);
    if NonceBytes(n + i) == NonceBytes(n + j) {
      NoncesAreDistinct(n + i, n + j);
      assert false;
    }
  }

  // ----- a tampered wire

  /** Nothing opens under the key but what the peer sealed, under the nonce it was sealed with. */
  ghost predicate Unforgeable(c: Cipher, calls: seq<SealCall>) {
    forall nonce, body, tag :: c.aead.open(c.key, nonce, body, tag).Some? ==>
      SealCall(nonce, c.aead.open(c.key, nonce, body, tag).value) in calls
  }

  lemma WasSealed(c: Cipher, calls: seq<SealCall>, nonce: seq<byte>, body: seq<byte>, tag: seq<byte>)
    requires Unforgeable(c, calls) && c.aead.open(c.key, nonce, body, tag).Some?
    ensures SealCall(nonce, c.aead.open(c.key, nonce, body, tag).value) in calls
  {
  }

  lemma SendableAt(ps: seq<Part>, d: nat)
    requires Sendable(ps)
    ensures d < |ps| ==> |ps[d].body| < TWO31
  {
  }

  lemma {:induction false} SealCallTexts(n: nat, ps: seq<Part>, i: nat)
    requires i < |ps|
    ensures |SealCalls(n, ps)| == 2 * |ps|
    ensures SealCalls(n, ps)[2 * i].text == LengthField(|ps[i].body|, ps[i].padding)
    ensures SealCalls(n, ps)[2 * i + 1].text == ps[i].body
    decreases |ps|
  {
    hide NonceBytes, LengthField;
    SealCallCount(n, ps);
    if i > 0 {
      SealCallTexts(n + 2, ps[1..], i - 1);
    }
  }

  /** The only call with the nonce of counter `k` is the one made at `k`. */
  lemma CallAt(ps: seq<Part>, k: nat, text: seq<byte>)
    requires k < 0x1_0000_0000_0000_0000 && 2 * |ps| < 0x1_0000_0000_0000_0000
    requires SealCall(NonceBytes(k), text) in SealCalls(0, ps)
    ensures |SealCalls(0, ps)| == 2 * |ps| && k < 2 * |ps| && SealCalls(0, ps)[k].text == text
  {
    hide SealCalls, NonceBytes;
    var calls := SealCalls(0, ps);
    var j :| 0 <= j < |calls| && calls[j] == SealCall(NonceBytes(k), text);
    SealCallCount(0, ps);
    SealCallNonce(0, ps, j);
    NoncesAreDistinct(j, k);
  }

  /** Whatever arrives, if it opens at all then as the record that was due. */
  lemma OnlyTheNextRecordOpens(c: Cipher, ps: seq<Part>, d: nat, bts: seq<byte>)
    requires Unforgeable(c, SealCalls(0, ps)) && Sendable(ps) && 2 * |ps| < 0x1_0000_0000_0000_0000
    requires d <= |ps| && DecodeOne(c, 2 * d, bts).Opened?
    ensures d < |ps| && DecodeOne(c, 2 * d, bts).body == if ps[d].padding then [] else ps[d].body
  {
    hide DecodeOne, NonceBytes, LengthField, SignedLength, SealCalls, Unforgeable, Sendable;
    assert |ps| > d ==> |ps[d].body| < TWO31 by { SendableAt(ps, d); }
    OpenedIsAuthentic(c, 2 * d, bts);
    var used := DecodeOne(c, 2 * d, bts).used;
    var field := HeadField(c, 2 * d, bts).value;
    WasSealed(c, SealCalls(0, ps), NonceBytes(2 * d), bts[..4], bts[4..20]);
    CallAt(ps, 2 * d, field);
    var text := c.aead.open(c.key, NonceBytes(2 * d + 1), bts[20..used - 16], bts[used - 16..used]);
    WasSealed(c, SealCalls(0, ps), NonceBytes(2 * d + 1), bts[20..used - 16], bts[used - 16..used]);
    CallAt(ps, 2 * d + 1, text.value);
    SealCallTexts(0, ps, d);
    DataLengthSurvives(|ps[d].body|);
    PaddingLengthSurvives(|ps[d].body|);
  }

  /**
   An attacker on the wire can cut, change, reorder or repeat bytes at will: what comes out is
   still the plaintext of the first records that were sealed, in order, and nothing else.
   */
  lemma {:induction false} TamperingIsHarmless(c: Cipher, ps: seq<Part>, d: nat, bts: seq<byte>) returns (e: nat)
    requires Unforgeable(c, SealCalls(0, ps)) && Sendable(ps) && 2 * |ps| < 0x1_0000_0000_0000_0000
    requires d <= |ps|
    ensures d <= e <= |ps|
    ensures var r := DecodeAll(c, 2 * d, bts); r.out == Plaintext(ps[d..e]) && r.nonce == 2 * e
    decreases |bts|
  {
    hide DecodeOne, Unforgeable, SealCalls, Sendable, Plaintext;
    e := d;
    assert ps[d..d] == [];
    NoPlaintext();
    match DecodeOne(c, 2 * d, bts)
    case Opened(body, used) =>
      OnlyTheNextRecordOpens(c, ps, d, bts);
      e := TamperingIsHarmless(c, ps, d + 1, bts[used..]);
      PlaintextFrom(ps, d, e);
    case _ =>
  }

  lemma NoPlaintext()
    ensures Plaintext([]) == []
  {
  }

  lemma PlaintextFrom(ps: seq<Part>, d: nat, e: nat)
    requires d < e <= |ps|
    ensures Plaintext(ps[d..e]) == (if ps[d].padding then [] else ps[d].body) + Plaintext(ps[d + 1..e])
  {
    assert ps[d..e][0] == ps[d] && ps[d..e][1..] == ps[d + 1..e];
  }

  // ----- the two directions

  /** `blake3::derive_key`: a context string and key material. */
  type Derive = (string, seq<byte>) -> Key

  function SendKey(derive: Derive, secret: seq<byte>, isServer: bool): Key {
    derive(if isServer then "dn" else "up", secret)
  }

  function RecvKey(derive: Derive, secret: seq<byte>, isServer: bool): Key {
    derive(if isServer then "up" else "dn", secret)
  }

  /** The client sends under "up" and the server under "dn"; each receives under the other's. */
  lemma KeyLabels(derive: Derive, secret: seq<byte>)
    ensures SendKey(derive, secret, false) == RecvKey(derive, secret, true) == derive("up", secret)
    ensures SendKey(derive, secret, true) == RecvKey(derive, secret, false) == derive("dn", secret)
  {
  }

  /** The mutable record state of one end of a connection. */
  class State {
    const aead: Aead
    const sendKey: Key
    const recvKey: Key
    const obfsLengths: bool
    var sendNonce: nat
    var recvNonce: nat
    var sendBuf: seq<byte>
    ghost var sealed: seq<SealCall> // every call of the cipher with the sending key

    /** Every counter value below `sendNonce` has been used for exactly one call. */
    ghost predicate Valid()
      reads this
    {
      && |sealed| == sendNonce
      && forall i :: 0 <= i < |sealed| ==> sealed[i].nonce == NonceBytes(i)
    }

    /** So no nonce has been used twice with the sending key. */
    lemma NoncesAreFresh(i: nat, j: nat)
      requires Valid() && i < j < |sealed| && sendNonce <= 0x1_0000_0000_0000_0000
      ensures sealed[i].nonce != sealed[j].nonce
    {
      hide NonceBytes;
      if NonceBytes(i) == NonceBytes(j) {
        NoncesAreDistinct(i, j);
        assert false;
      }
    }

    /** Each side's send key is the other side's receive key. */
    constructor (aead: Aead, derive: Derive, secret: seq<byte>, isServer: bool, obfsLengths: bool)
      ensures this.aead == aead && this.obfsLengths == obfsLengths
      ensures sendNonce == 0 && recvNonce == 0 && Valid()
      ensures sendKey == SendKey(derive, secret, isServer) == RecvKey(derive, secret, !isServer)
      ensures recvKey == RecvKey(derive, secret, isServer) == SendKey(derive, secret, !isServer)
    {
      this.aead := aead;
      this.obfsLengths := obfsLengths;
      if isServer {
        sendKey, recvKey := derive("dn", secret), derive("up", secret);
      } else {
        sendKey, recvKey := derive("up", secret), derive("dn", secret);
      }
      sendNonce, recvNonce, sendBuf := 0, 0, [];
      sealed := [];
    }

    function SendCipher(): Cipher {
      Cipher(aead, sendKey)
    }

    function RecvCipher(): Cipher {
      Cipher(aead, recvKey)
    }

    method NextSendNonce() returns (nonce: seq<byte>)
      modifies this`sendNonce
      ensures nonce == NonceBytes(old(sendNonce)) && sendNonce == old(sendNonce) + 1
    {
      nonce := LittleEndian(sendNonce, 8) + [0, 0, 0, 0];
      sendNonce := sendNonce + 1;
    }

    method EncryptInner(bts: seq<byte>, output: seq<byte>, isPadding: bool)
      returns (output': seq<byte>, tally: nat)
      requires Lawful(aead) && Valid()
      modifies this`sendNonce, this`sendBuf, this`sealed
      ensures Valid() && sealed == old(sealed) + RecordCalls(old(sendNonce), Part(bts, isPadding))
      ensures output' == output + Record(SendCipher(), old(sendNonce), bts, isPadding)
      ensures tally == |bts| + RECORD_OVERHEAD
      ensures sendNonce == old(sendNonce) + 2
    {
      hide NonceBytes, LengthField;
      var length := LengthField(|bts|, isPadding);
      var nonce := NextSendNonce();
      var (encLength, tagLength) := aead.seal(sendKey, nonce, length);
      sealed := sealed + [SealCall(nonce, length)];
      tally := |encLength| + |tagLength|;
      output' := output + encLength + tagLength;

      nonce := NextSendNonce();
      sendBuf := bts;
      var (encBody, tagBody) := aead.seal(sendKey, nonce, sendBuf);
      sealed := sealed + [SealCall(nonce, sendBuf)];
      sendBuf := encBody;
      tally := tally + |sendBuf| + |tagBody|;
      output' := output' + sendBuf + tagBody;
      assert output' == output + ((encLength + tagLength) + (encBody + tagBody));
    }

    /** The length equation asserted at the end of `encrypt` always holds. */
    method EncryptHunk(bts: seq<byte>, output: seq<byte>, jitter: nat)
      returns (output': seq<byte>)
      requires Lawful(aead) && Valid() && jitter < 10
      modifies this`sendNonce, this`sendBuf, this`sealed
      ensures Valid() && sealed == old(sealed) + SealCalls(old(sendNonce), Parts(bts, obfsLengths, jitter))
      ensures output' == output + Encrypt(SendCipher(), old(sendNonce), bts, obfsLengths, jitter)
      ensures sendNonce == old(sendNonce) + 2 * RecordCount(|bts|, obfsLengths)
    {
      var origLen;
      hide Record, NonceBytes, LengthField;
      PartsCalls(sendNonce, bts, obfsLengths, jitter);
      output', origLen := EncryptInner(bts, output, false);
      var overhead := origLen - |bts|;
      if obfsLengths {
        if origLen < 2000 {
          PaddingFits(|bts|, jitter);
          var desiredLen := NextPowerOfTwo(origLen + overhead) + jitter;
          var paddingInnerLen := desiredLen - origLen - overhead;
          var lala := Zeros(2000);
          assert lala[..paddingInnerLen] == Zeros(PaddingLength(|bts|, jitter));
          var paddingLen;
          output', paddingLen := EncryptInner(lala[..paddingInnerLen], output', true);
          assert origLen + paddingLen == desiredLen;
        }
      }
    }

    /** A short or refused attempt changes neither the counter nor the output. */
    method Decrypt(bts: seq<byte>, output: seq<byte>)
      returns (result: Attempt, output': seq<byte>)
      modifies this`recvNonce
      ensures result == DecodeOne(RecvCipher(), old(recvNonce), bts)
      ensures result.Opened? ==> output' == output + result.body && recvNonce == old(recvNonce) + 2
      ensures !result.Opened? ==> output' == output && recvNonce == old(recvNonce)
    {
      output' := output;
      if |bts| < 24 {
        return Short, output;
      }
      var encLength, tagLength, rest := bts[..4], bts[4..20], bts[20..];
      var field := aead.open(recvKey, NonceBytes(recvNonce), encLength, tagLength);
      if field.None? {
        return Broken, output;
      }
      var length := SignedLength(field.value);
      var actual := Abs(length);
      if actual + 16 > |rest| {
        return Short, output;
      }
      var encBody, tagBody := rest[..actual], rest[actual..actual + 16];
      var body := aead.open(recvKey, NonceBytes(recvNonce + 1), encBody, tagBody);
      if body.None? {
        return Broken, output;
      }
      if length > 0 {
        output' := output + body.value;
      }
      recvNonce := recvNonce + 2;
      result := Opened(if length > 0 then body.value else [], 36 + actual);
    }
  }
}
