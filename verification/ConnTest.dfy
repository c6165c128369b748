/**
 The connection test: the dialer sends pings with a length prefix and waits for each to be
 echoed, then sends a zero length; the listener echoes until it sees the zero and hands the
 connection over. Nothing of the test may leak into the connection, and nothing of the
 connection may be eaten by the test.
 */
module ConnTest {
  import opened Common
  import opened Streams

  /** Pings whose length fits the prefix and is not zero; the dialer picks lengths below 50000. */
  ghost predicate ValidPings(pings: seq<seq<byte>>) {
    forall i :: 0 <= i < |pings| ==> 1 <= |pings[i]| < 0x1_0000
  }

  /** The pings as they are written. */
  function PingBytes(pings: seq<seq<byte>>): seq<byte> {
    if pings == [] then [] else BigEndian(|pings[0]|, 2) + pings[0] + PingBytes(pings[1..])
  }

  const END_OF_TEST: seq<byte> := [0, 0]

  /** Everything the dialer writes. */
  function TestBytes(pings: seq<seq<byte>>): seq<byte> {
    PingBytes(pings) + END_OF_TEST
  }

  /** Result of the listener on the bytes it has received: handed over or still waiting. */
  datatype Echo = Echo(done: bool, echoed: seq<byte>, rest: seq<byte>)

  function EchoRun(input: seq<byte>): Echo
    decreases |input|
  {
    if |input| < 2 then
      Echo(false, [], input)
    else
      var size := FromBigEndian(input[..2]);
      if size == 0 then Echo(true, [], input[2..])
      else if |input| - 2 < size then Echo(false, [], input)
      else
        var e := EchoRun(input[2 + size..]);
        e.(echoed := input[2..2 + size] + e.echoed)
  }

  // ----- the two loops

  /** The dialer's loop; it succeeds exactly when what comes back starts with its own payloads. */
  method DialTest(pipe: Stream, pings: seq<seq<byte>>) returns (ok: bool)
    requires ValidPings(pings)
    modifies pipe
    ensures ok <==> Flatten(pings) <= old(pipe.input)
    ensures ok ==> pipe.input == old(pipe.input)[|Flatten(pings)|..]
    ensures ok ==> pipe.output == old(pipe.output) + TestBytes(pings)
  {
    hide BigEndian, PingBytes;
    EmptyPings();
    ghost var taken := 0;
    for i := 0 to |pings|
      invariant taken == |Flatten(pings[..i])| <= |old(pipe.input)|
      invariant Flatten(pings[..i]) <= old(pipe.input)
      invariant pipe.input == old(pipe.input)[taken..]
      invariant pipe.output == old(pipe.output) + PingBytes(pings[..i])
    {
      PingBytesSnoc(pings, i);
      FlattenSnoc(pings, i);
      FlattenPrefix(pings, i + 1);
      pipe.WriteAll(BigEndian(|pings[i]|, 2));
      pipe.WriteAll(pings[i]);
      assert pipe.output == old(pipe.output) + PingBytes(pings[..i + 1]);
      var echo := pipe.ReadExact(|pings[i]|);
      if echo.None? {
        return false;
      }
      if echo.value != pings[i] {
        assert old(pipe.input)[taken..taken + |pings[i]|] == echo.value;
        return false;
      }
      taken := taken + |pings[i]|;
    }
    assert pings[..|pings|] == pings;
    pipe.WriteAll([0, 0]);
    ok := true;
  }

  /** The listener so far has echoed `echoed` and goes on with `input`. */
  ghost predicate Continues(whole: Echo, echoed: seq<byte>, input: seq<byte>) {
    var e := EchoRun(input);
    whole == e.(echoed := echoed + e.echoed)
  }

  lemma EchoTurn(whole: Echo, echoed: seq<byte>, input: seq<byte>)
    requires Continues(whole, echoed, input) && |input| >= 2
    requires 0 < FromBigEndian(input[..2]) <= |input| - 2
    ensures var size := FromBigEndian(input[..2]);
            Continues(whole, echoed + input[2..][..size], input[2..][size..])
  {
    hide FromBigEndian;
    var size := FromBigEndian(input[..2]);
    assert input[2..][..size] == input[2..2 + size] && input[2..][size..] == input[2 + size..];
    var rest := EchoRun(input[2 + size..]).echoed;
    assert echoed + (input[2..2 + size] + rest) == (echoed + input[2..2 + size]) + rest;
  }

  /** The listener's loop. */
  method ListenTest(conn: Stream) returns (handedOver: bool)
    modifies conn
    ensures var e := EchoRun(old(conn.input));
            && handedOver == e.done
            && (e.done ==> conn.input == e.rest)
            && conn.output == old(conn.output) + e.echoed
  {
    hide FromBigEndian;
    ghost var whole := EchoRun(conn.input);
    ghost var echoed: seq<byte> := [];
    assert [] + whole.echoed == whole.echoed;
    while true
      invariant conn.output == old(conn.output) + echoed
      invariant Continues(whole, echoed, conn.input)
      decreases |conn.input|
    {
      ghost var before := conn.input;
      assert echoed + [] == echoed;
      var sizeBuf := conn.ReadExact(2);
      if sizeBuf.None? {
        return false;
      }
      var size := FromBigEndian(sizeBuf.value);
      if size == 0 {
        return true;
      }
      var payload := conn.ReadExact(size);
      if payload.None? {
        return false;
      }
      EchoTurn(whole, echoed, before);
      conn.WriteAll(payload.value);
      echoed := echoed + payload.value;
    }
  }

  // ----- lists of pings

  lemma EmptyPings()
    ensures PingBytes([]) == []
  {
  }

  lemma FlattenSnoc(pings: seq<seq<byte>>, i: nat)
    requires i < |pings|
    ensures Flatten(pings[..i + 1]) == Flatten(pings[..i]) + pings[i]
  {
    assert pings[..i + 1] == pings[..i] + [pings[i]];
    FlattenAppend(pings[..i], [pings[i]]);
    var one := [pings[i]];
    assert one[1..] == [];
    assert Flatten(one) == pings[i] + [];
  }

  lemma FlattenPrefix(pings: seq<seq<byte>>, i: nat)
    requires i <= |pings|
    ensures Flatten(pings[..i]) <= Flatten(pings)
  {
    assert pings == pings[..i] + pings[i..];
    FlattenAppend(pings[..i], pings[i..]);
  }

  lemma {:induction false} PingBytesAppend(a: seq<seq<byte>>, b: seq<seq<byte>>)
    ensures PingBytes(a + b) == PingBytes(a) + PingBytes(b)
  {
    if a == [] {
      assert a + b == b;
    } else {
      assert (a + b)[1..] == a[1..] + b;
      PingBytesAppend(a[1..], b);
    }
  }

  lemma PingBytesSnoc(pings: seq<seq<byte>>, i: nat)
    requires i < |pings|
    ensures PingBytes(pings[..i + 1]) == PingBytes(pings[..i]) + BigEndian(|pings[i]|, 2) + pings[i]
  {
    assert pings[..i + 1] == pings[..i] + [pings[i]];
    PingBytesAppend(pings[..i], [pings[i]]);
    var one := [pings[i]];
    assert one[1..] == [];
    assert PingBytes(one) == BigEndian(|pings[i]|, 2) + pings[i] + [];
  }

  // ----- the guarantee

  lemma EchoOnePing(ping: seq<byte>, rest: seq<byte>)
    requires 1 <= |ping| < 0x1_0000
    ensures EchoRun(BigEndian(|ping|, 2) + ping + rest) ==
            EchoRun(rest).(echoed := ping + EchoRun(rest).echoed)
  {
    var input := BigEndian(|ping|, 2) + ping + rest;
    PowerValues();
    BigEndianRoundTrip(|ping|, 2);
    assert input[..2] == BigEndian(|ping|, 2);
    assert input[2..2 + |ping|] == ping;
    assert input[2 + |ping|..] == rest;
  }

  /** The listener echoes the pings and then goes on with whatever follows them. */
  lemma {:induction false} EchoPings(pings: seq<seq<byte>>, rest: seq<byte>)
    requires ValidPings(pings)
    ensures EchoRun(PingBytes(pings) + rest) ==
            EchoRun(rest).(echoed := Flatten(pings) + EchoRun(rest).echoed)
    decreases |pings|
  {
    hide EchoRun, BigEndian;
    if pings == [] {
      assert PingBytes(pings) + rest == rest;
      assert [] + EchoRun(rest).echoed == EchoRun(rest).echoed;
    } else {
      var tail := PingBytes(pings[1..]) + rest;
      assert PingBytes(pings) + rest == BigEndian(|pings[0]|, 2) + pings[0] + tail;
      EchoOnePing(pings[0], tail);
      EchoPings(pings[1..], rest);
      assert pings[0] + (Flatten(pings[1..]) + EchoRun(rest).echoed)
          == Flatten(pings) + EchoRun(rest).echoed;
    }
  }

  lemma EchoEnd(rest: seq<byte>)
    ensures EchoRun(END_OF_TEST + rest) == Echo(true, [], rest)
  {
    var input := END_OF_TEST + rest;
    assert input[..2] == [0, 0] && input[2..] == rest;
    assert [0, 0][..1] == [0] && [0][..0] == [];
    assert FromBigEndian([0]) == 0;
  }

  /**
   For any number, size and content of pings and any traffic after them: the listener hands the
   connection over having consumed exactly the test, and has echoed exactly the payloads, which
   is what makes the dialer succeed.
   */
  lemma TestHandsOverCleanly(pings: seq<seq<byte>>, rest: seq<byte>)
    requires ValidPings(pings)
    ensures EchoRun(TestBytes(pings) + rest) == Echo(true, Flatten(pings), rest)
  {
    hide EchoRun;
    assert TestBytes(pings) + rest == PingBytes(pings) + (END_OF_TEST + rest);
    EchoPings(pings, END_OF_TEST + rest);
    EchoEnd(rest);
    assert Flatten(pings) + [] == Flatten(pings);
  }

  /** A ping on the wire: its length in two bytes, the high one first, and the payload. */
  lemma PingLayout(ping: seq<byte>)
    requires 1 <= |ping| < 0x1_0000
    ensures PingBytes([ping]) == [|ping| / 256, |ping| % 256] + ping
  {
    var one := [ping];
    assert one[1..] == [];
    var prefix := BigEndian(|ping|, 2);
    PowerValues();
    BigEndianRoundTrip(|ping|, 2);
    BigEndianValues(prefix[0], prefix[1]);
    assert prefix == [prefix[0], prefix[1]];
    hide BigEndian, FromBigEndian;
    assert PingBytes(one) == prefix + ping + [];
    assert PingBytes([]) == [];
  }

  /** Nothing of a ping is echoed before all of it has arrived. */
  lemma PartialPingIsNotEchoed(pings: seq<seq<byte>>, ping: seq<byte>, arrived: nat)
    requires ValidPings(pings) && 1 <= |ping| < 0x1_0000 && arrived < |ping| + 2
    ensures var part := (BigEndian(|ping|, 2) + ping)[..arrived];
            EchoRun(PingBytes(pings) + part) == Echo(false, Flatten(pings), part)
  {
    var part := (BigEndian(|ping|, 2) + ping)[..arrived];
    if arrived >= 2 {
      assert part[..2] == BigEndian(|ping|, 2);
      PowerValues();
      BigEndianRoundTrip(|ping|, 2);
    }
    hide BigEndian, FromBigEndian;
    assert EchoRun(part) == Echo(false, [], part);
    EchoPings(pings, part);
    assert Flatten(pings) + [] == Flatten(pings);
  }

  /** The echo of a ping never waits for a later ping, so the dialer's reads always complete. */
  lemma EchoIsImmediate(pings: seq<seq<byte>>, i: nat)
    requires ValidPings(pings) && i <= |pings|
    ensures EchoRun(PingBytes(pings[..i])) == Echo(false, Flatten(pings[..i]), [])
  {
    EchoPings(pings[..i], []);
    assert PingBytes(pings[..i]) + [] == PingBytes(pings[..i]);
    assert Flatten(pings[..i]) + [] == Flatten(pings[..i]);
  }
}
