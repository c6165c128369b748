/**
 Routes and the dialers compiled from them. A dial attempt succeeds, fails or hangs; the
 combinators decide when. The compiler turns n-ary races and fallbacks into nested pairs, and
 the theorem is that the nesting means what the route says.
 */
module Routes {
  import opened Common

  datatype Addr = Addr(ip: nat, port: u16)

  /** What is negotiated on top of a connection. */
  datatype Layer =
    | Sosistab(cookie: string)
    | Pings(count: nat)
    | Tls(sni: Option<string>)

  datatype Route =
    | Tcp(addr: Addr)
    | Layered(layer: Layer, lower: Route)
    | Race(inside: seq<Route>)
    | Fallback(inside: seq<Route>)
    | Timeout(ms: nat, lower: Route)
    | Delay(ms: nat, lower: Route)
    | Other

  datatype Dialer =
    | TcpDialer(addr: Addr)
    | LayerDialer(layer: Layer, inner: Dialer)
    | RaceDialer(left: Dialer, right: Dialer)
    | FallbackDialer(primary: Dialer, fallback: Dialer)
    | TimeoutDialer(inner: Dialer, ms: nat)
    | DelayDialer(inner: Dialer, ms: nat)
    | FailingDialer

  // ----- dialing in time

  /** The end of an attempt, at an absolute time in milliseconds. */
  datatype Outcome = Success(at: nat) | Failure(at: nat) | Hang

  /** What each connection and each negotiation does, depending on when it is started. */
  datatype World = World(connect: (Addr, nat) -> Outcome, negotiate: (Layer, nat) -> Outcome)

  predicate NotBefore(o: Outcome, t: nat) {
    o.Hang? || o.at >= t
  }

  /** Nothing finishes before it starts. */
  ghost predicate Causal(w: World) {
    && (forall a: Addr, t: nat :: NotBefore(w.connect(a, t), t))
    && (forall l: Layer, t: nat :: NotBefore(w.negotiate(l, t), t))
  }

  /** The first future to finish, with the left one preferred at a tie. */
  predicate LeftFirst(x: Outcome, y: Outcome) {
    !x.Hang? && (y.Hang? || x.at <= y.at)
  }

  /** `race_ok`: the first to finish decides if it succeeded; otherwise the other is awaited. */
  function RaceOk(x: Outcome, y: Outcome): Outcome {
    if LeftFirst(x, y) then (if x.Success? then x else y)
    else (if y.Success? then y else x)
  }

  /** A timer that fires at `limit` replaces whatever has not finished by then. */
  function Cut(o: Outcome, limit: nat): Outcome {
    if !o.Hang? && o.at <= limit then o else Failure(limit)
  }

  function Dial(w: World, d: Dialer, start: nat): Outcome {
    match d
    case TcpDialer(a) => w.connect(a, start)
    case LayerDialer(l, inner) =>
      var o := Dial(w, inner, start);
      if o.Success? then w.negotiate(l, o.at) else o
    case RaceDialer(x, y) => RaceOk(Dial(w, x, start), Dial(w, y, start))
    case FallbackDialer(p, f) =>
      var o := Dial(w, p, start);
      if o.Failure? then Dial(w, f, o.at) else o
    case TimeoutDialer(inner, ms) => Cut(Dial(w, inner, start), start + ms)
    case DelayDialer(inner, ms) => Dial(w, inner, start + ms)
    case FailingDialer => Failure(start)
  }

  lemma {:induction false} DialTakesTime(w: World, d: Dialer, start: nat)
    requires Causal(w)
    ensures NotBefore(Dial(w, d, start), start)
    decreases d
  {
    match d
    case TcpDialer(a) =>
    case LayerDialer(l, inner) => DialTakesTime(w, inner, start);
    case RaceDialer(x, y) =>
      DialTakesTime(w, x, start);
      DialTakesTime(w, y, start);
    case FallbackDialer(p, f) =>
      DialTakesTime(w, p, start);
      if Dial(w, p, start).Failure? {
        DialTakesTime(w, f, Dial(w, p, start).at);
      }
    case TimeoutDialer(inner, ms) => DialTakesTime(w, inner, start);
    case DelayDialer(inner, ms) => DialTakesTime(w, inner, start + ms);
    case FailingDialer =>
  }

  // ----- the compiler

  /** `Iterator::reduce` with `race`, after the first element. */
  function RaceAll(acc: Dialer, rest: seq<Dialer>): Dialer
    decreases |rest|
  {
    if rest == [] then acc else RaceAll(RaceDialer(acc, rest[0]), rest[1..])
  }

  function FallbackAll(acc: Dialer, rest: seq<Dialer>): Dialer
    decreases |rest|
  {
    if rest == [] then acc else FallbackAll(FallbackDialer(acc, rest[0]), rest[1..])
  }

  /** `route_to_dialer`. */
  function Compile(r: Route): Dialer {
    match r
    case Tcp(a) => TcpDialer(a)
    case Layered(l, lower) => LayerDialer(l, Compile(lower))
    case Race(inside) =>
      var ds := CompileAll(inside);
      if ds == [] then FailingDialer else RaceAll(ds[0], ds[1..])
    case Fallback(inside) =>
      var ds := CompileAll(inside);
      if ds == [] then FailingDialer else FallbackAll(ds[0], ds[1..])
    case Timeout(ms, lower) => TimeoutDialer(Compile(lower), ms)
    case Delay(ms, lower) => DelayDialer(Compile(lower), ms)
    case Other => FailingDialer
  }

  function CompileAll(rs: seq<Route>): (ds: seq<Dialer>)
    ensures |ds| == |rs|
  {
    if rs == [] then [] else [Compile(rs[0])] + CompileAll(rs[1..])
  }

  // ----- what a route means

  /** The earliest success among the outcomes, if there is one. */
  function Earliest(os: seq<Outcome>): Option<nat> {
    if os == [] then None
    else
      var t := Earliest(os[1..]);
      if os[0].Success? then (if t.Some? then Some(Min(os[0].at, t.value)) else Some(os[0].at)) else t
  }

  /** The latest failure, not before `t`. */
  function Latest(os: seq<Outcome>, t: nat): nat {
    if os == [] then t else Latest(os[1..], if os[0].Failure? then Max(t, os[0].at) else t)
  }

  /** A race of any number of attempts that started at `t`. */
  function Best(os: seq<Outcome>, t: nat): Outcome {
    if Earliest(os).Some? then Success(Earliest(os).value)
    else if Hang in os then Hang
    else Failure(Latest(os, t))
  }

  function Meaning(w: World, r: Route, start: nat): Outcome
    decreases r
  {
    match r
    case Tcp(a) => w.connect(a, start)
    case Layered(l, lower) =>
      var o := Meaning(w, lower, start);
      if o.Success? then w.negotiate(l, o.at) else o
    case Race(inside) => Best(Meanings(w, inside, start), start)
    case Fallback(inside) => InTurn(w, inside, start)
    case Timeout(ms, lower) => Cut(Meaning(w, lower, start), start + ms)
    case Delay(ms, lower) => Meaning(w, lower, start + ms)
    case Other => Failure(start)
  }

  function Meanings(w: World, rs: seq<Route>, start: nat): (os: seq<Outcome>)
    ensures |os| == |rs|
    decreases rs
  {
    if rs == [] then [] else [Meaning(w, rs[0], start)] + Meanings(w, rs[1..], start)
  }

  /** One attempt after another, each started when the one before it failed. */
  function InTurn(w: World, rs: seq<Route>, start: nat): Outcome
    decreases rs
  {
    if rs == [] then Failure(start)
    else
      var o := Meaning(w, rs[0], start);
      if o.Failure? then InTurn(w, rs[1..], o.at) else o
  }

  // ----- races

  /** The declarative reading of a race, without any order of evaluation. */
  ghost predicate RaceResult(os: seq<Outcome>, t: nat, r: Outcome) {
    match r
    case Success(at) => r in os && forall o :: o in os && o.Success? ==> at <= o.at
    case Hang => Hang in os && forall o :: o in os ==> !o.Success?
    case Failure(at) =>
      && (forall o :: o in os ==> o.Failure? && o.at <= at)
      && (if os == [] then at == t else r in os)
  }

  lemma {:induction false} EarliestIsLeast(os: seq<Outcome>)
    ensures Earliest(os).None? <==> forall o :: o in os ==> !o.Success?
    ensures Earliest(os).Some? ==>
              Success(Earliest(os).value) in os
              && forall o :: o in os && o.Success? ==> Earliest(os).value <= o.at
  {
    if os != [] {
      EarliestIsLeast(os[1..]);
      assert forall o :: o in os <==> o == os[0] || o in os[1..];
    }
  }

  lemma {:induction false} LatestIsGreatest(os: seq<Outcome>, t: nat)
    ensures Latest(os, t) >= t
    ensures forall o :: o in os && o.Failure? ==> o.at <= Latest(os, t)
    ensures Latest(os, t) == t || Failure(Latest(os, t)) in os
  {
    if os != [] {
      LatestIsGreatest(os[1..], if os[0].Failure? then Max(t, os[0].at) else t);
      assert forall o :: o in os <==> o == os[0] || o in os[1..];
    }
  }

  /** A race succeeds iff some branch does, at the least such time, and else fails when the last has failed. */
  lemma BestIsRaceResult(os: seq<Outcome>, t: nat)
    requires forall o :: o in os ==> NotBefore(o, t)
    ensures RaceResult(os, t, Best(os, t))
  {
    EarliestIsLeast(os);
    LatestIsGreatest(os, t);
    if Best(os, t).Failure? && os != [] {
      assert os[0] in os;
    }
  }

  lemma RaceResultIsUnique(os: seq<Outcome>, t: nat, r: Outcome, r': Outcome)
    requires RaceResult(os, t, r) && RaceResult(os, t, r')
    ensures r == r'
  {
    if os != [] {
      assert os[0] in os;
    }
  }

  /** Adding one more branch to a race by pairing it with the result so far. */
  lemma RaceOkExtends(os: seq<Outcome>, t: nat, r: Outcome, o: Outcome)
    requires RaceResult(os, t, r) && os != [] && NotBefore(o, t)
    ensures RaceResult(os + [o], t, RaceOk(r, o))
  {
    assert forall x :: x in os + [o] <==> x in os || x == o;
  }

  function Outcomes(w: World, ds: seq<Dialer>, start: nat): (os: seq<Outcome>)
    ensures |os| == |ds|
  {
    if ds == [] then [] else [Dial(w, ds[0], start)] + Outcomes(w, ds[1..], start)
  }

  /** Pairwise nesting of a race gives the race of all branches. */
  lemma {:induction false} RaceAllIsRace(w: World, acc: Dialer, rest: seq<Dialer>, start: nat, os: seq<Outcome>)
    requires Causal(w) && os != [] && RaceResult(os, start, Dial(w, acc, start))
    ensures RaceResult(os + Outcomes(w, rest, start), start, Dial(w, RaceAll(acc, rest), start))
    decreases |rest|
  {
    hide RaceResult;
    if rest == [] {
      assert os + Outcomes(w, rest, start) == os;
    } else {
      var o := Dial(w, rest[0], start);
      DialTakesTime(w, rest[0], start);
      RaceOkExtends(os, start, Dial(w, acc, start), o);
      RaceAllIsRace(w, RaceDialer(acc, rest[0]), rest[1..], start, os + [o]);
      assert os + [o] + Outcomes(w, rest[1..], start) == os + Outcomes(w, rest, start);
    }
  }

  /** The whole reduced race, as one statement about its branches. */
  lemma RaceOfDialers(w: World, ds: seq<Dialer>, start: nat)
    requires Causal(w) && ds != []
    ensures Dial(w, RaceAll(ds[0], ds[1..]), start) == Best(Outcomes(w, ds, start), start)
  {
    var o, all := Dial(w, ds[0], start), Outcomes(w, ds, start);
    DialTakesTime(w, ds[0], start);
    assert RaceResult([o], start, o);
    RaceAllIsRace(w, ds[0], ds[1..], start, [o]);
    assert [o] + Outcomes(w, ds[1..], start) == all;
    OutcomesTakeTime(w, ds, start);
    BestIsRaceResult(all, start);
    RaceResultIsUnique(all, start, Best(all, start), Dial(w, RaceAll(ds[0], ds[1..]), start));
  }

  lemma {:induction false} OutcomesTakeTime(w: World, ds: seq<Dialer>, start: nat)
    requires Causal(w)
    ensures forall o :: o in Outcomes(w, ds, start) ==> NotBefore(o, start)
  {
    if ds != [] {
      DialTakesTime(w, ds[0], start);
      OutcomesTakeTime(w, ds[1..], start);
    }
  }

  // ----- fallbacks

  function DialInTurn(w: World, o: Outcome, rest: seq<Dialer>): Outcome
    decreases |rest|
  {
    if rest == [] then o
    else DialInTurn(w, if o.Failure? then Dial(w, rest[0], o.at) else o, rest[1..])
  }

  /** Pairwise nesting of fallbacks is trying them in order. */
  lemma {:induction false} FallbackAllIsInTurn(w: World, acc: Dialer, rest: seq<Dialer>, start: nat)
    ensures Dial(w, FallbackAll(acc, rest), start) == DialInTurn(w, Dial(w, acc, start), rest)
    decreases |rest|
  {
    if rest != [] {
      FallbackAllIsInTurn(w, FallbackDialer(acc, rest[0]), rest[1..], start);
    }
  }

  lemma {:induction false} DecidedStaysDecided(w: World, o: Outcome, rest: seq<Dialer>)
    requires !o.Failure?
    ensures DialInTurn(w, o, rest) == o
    decreases |rest|
  {
    if rest != [] {
      DecidedStaysDecided(w, o, rest[1..]);
    }
  }

  // ----- correctness of the compiler

  /** The compiled dialer does, at every start time and in every world, what the route means. */
  lemma {:induction false} CompiledRouteIsCorrect(w: World, r: Route, start: nat)
    requires Causal(w)
    ensures Dial(w, Compile(r), start) == Meaning(w, r, start)
    decreases r, 1
  {
    match r
    case Tcp(a) =>
    case Layered(l, lower) => CompiledRouteIsCorrect(w, lower, start);
    case Race(inside) =>
      var ds := CompileAll(inside);
      CompiledBranchesAreCorrect(w, inside, start);
      if ds != [] {
        RaceOfDialers(w, ds, start);
      }
    case Fallback(inside) =>
      var ds := CompileAll(inside);
      if ds != [] {
        FallbackAllIsInTurn(w, ds[0], ds[1..], start);
        CompiledTurnsAreCorrect(w, inside, start);
      }
    case Timeout(ms, lower) => CompiledRouteIsCorrect(w, lower, start);
    case Delay(ms, lower) => CompiledRouteIsCorrect(w, lower, start + ms);
    case Other =>
  }

  lemma {:induction false} CompiledBranchesAreCorrect(w: World, rs: seq<Route>, start: nat)
    requires Causal(w)
    ensures Outcomes(w, CompileAll(rs), start) == Meanings(w, rs, start)
    decreases rs, 0
  {
    if rs != [] {
      CompiledRouteIsCorrect(w, rs[0], start);
      CompiledBranchesAreCorrect(w, rs[1..], start);
    }
  }

  lemma {:induction false} CompiledTurnsAreCorrect(w: World, rs: seq<Route>, start: nat)
    requires Causal(w) && rs != []
    ensures var ds := CompileAll(rs);
            DialInTurn(w, Dial(w, ds[0], start), ds[1..]) == InTurn(w, rs, start)
    decreases rs, 0
  {
    var ds := CompileAll(rs);
    var o := Dial(w, ds[0], start);
    CompiledRouteIsCorrect(w, rs[0], start);
    if !o.Failure? {
      DecidedStaysDecided(w, o, ds[1..]);
    } else if |rs| > 1 {
      CompiledTurnsAreCorrect(w, rs[1..], o.at);
      assert ds[1..] == CompileAll(rs[1..]);
    }
  }

  /** What the simple routes mean, in terms of what the network does and when. */
  lemma RouteLaws(w: World, r: Route, a: Addr, l: Layer, ms: nat, start: nat)
    ensures Meaning(w, Tcp(a), start) == w.connect(a, start)
    ensures Meaning(w, Other, start) == Failure(start)
    ensures Meaning(w, Delay(ms, r), start) == Meaning(w, r, start + ms)
    ensures var o := Meaning(w, r, start);
            Meaning(w, Layered(l, r), start) == if o.Success? then w.negotiate(l, o.at) else o
    ensures Meaning(w, Race([]), start) == Failure(start) == Meaning(w, Fallback([]), start)
  {
  }

  /** A route that waits makes no connection before the wait is over. */
  lemma DelayedRouteWaits(w: World, w': World, r: Route, ms: nat, start: nat)
    requires forall a: Addr, t: nat :: t >= start + ms ==> w.connect(a, t) == w'.connect(a, t)
    requires forall l: Layer, t: nat :: t >= start + ms ==> w.negotiate(l, t) == w'.negotiate(l, t)
    requires Causal(w)
    ensures Meaning(w, Delay(ms, r), start) == Meaning(w', Delay(ms, r), start)
  {
    OnlyTheFutureMatters(w, w', r, start + ms);
  }

  lemma {:induction false} OnlyTheFutureMatters(w: World, w': World, r: Route, start: nat)
    requires forall a: Addr, t: nat :: t >= start ==> w.connect(a, t) == w'.connect(a, t)
    requires forall l: Layer, t: nat :: t >= start ==> w.negotiate(l, t) == w'.negotiate(l, t)
    requires Causal(w)
    ensures Meaning(w, r, start) == Meaning(w', r, start)
    decreases r, 1
  {
    match r
    case Tcp(_) =>
    case Layered(_, lower) =>
      OnlyTheFutureMatters(w, w', lower, start);
      CompiledRouteIsCorrect(w, lower, start);
      DialTakesTime(w, Compile(lower), start);
    case Race(inside) => OnlyTheFutureMattersToAll(w, w', inside, start);
    case Fallback(inside) => OnlyTheFutureMattersInTurn(w, w', inside, start);
    case Timeout(_, lower) => OnlyTheFutureMatters(w, w', lower, start);
    case Delay(ms, lower) => OnlyTheFutureMatters(w, w', lower, start + ms);
    case Other =>
  }

  lemma {:induction false} OnlyTheFutureMattersToAll(w: World, w': World, rs: seq<Route>, start: nat)
    requires forall a: Addr, t: nat :: t >= start ==> w.connect(a, t) == w'.connect(a, t)
    requires forall l: Layer, t: nat :: t >= start ==> w.negotiate(l, t) == w'.negotiate(l, t)
    requires Causal(w)
    ensures Meanings(w, rs, start) == Meanings(w', rs, start)
    decreases rs, 0
  {
    if rs != [] {
      OnlyTheFutureMatters(w, w', rs[0], start);
      OnlyTheFutureMattersToAll(w, w', rs[1..], start);
    }
  }

  lemma {:induction false} OnlyTheFutureMattersInTurn(w: World, w': World, rs: seq<Route>, start: nat)
    requires forall a: Addr, t: nat :: t >= start ==> w.connect(a, t) == w'.connect(a, t)
    requires forall l: Layer, t: nat :: t >= start ==> w.negotiate(l, t) == w'.negotiate(l, t)
    requires Causal(w)
    ensures InTurn(w, rs, start) == InTurn(w', rs, start)
    decreases rs, 0
  {
    if rs != [] {
      OnlyTheFutureMatters(w, w', rs[0], start);
      var o := Meaning(w, rs[0], start);
      if o.Failure? {
        CompiledRouteIsCorrect(w, rs[0], start);
        DialTakesTime(w, Compile(rs[0]), start);
        OnlyTheFutureMattersInTurn(w, w', rs[1..], o.at);
      }
    }
  }

  /** A timeout always ends in time, and changes nothing that would have ended in time anyway. */
  lemma TimeoutIsPrompt(w: World, r: Route, ms: nat, start: nat)
    requires Causal(w)
    ensures var inner, o := Meaning(w, r, start), Meaning(w, Timeout(ms, r), start);
            && !o.Hang? && start <= o.at <= start + ms
            && (o.Success? ==> o == inner)
            && (o == inner || (o == Failure(start + ms) && NotBefore(inner, start + ms + 1)))
  {
    CompiledRouteIsCorrect(w, r, start);
    DialTakesTime(w, Compile(r), start);
  }

  /** Attempts `0 .. k` of a fallback, with the time each was started. */
  ghost predicate FailedUntil(w: World, rs: seq<Route>, times: seq<nat>, start: nat) {
    && 1 <= |times| <= |rs| + 1 && times[0] == start
    && forall j :: 0 <= j < |times| - 1 ==> Meaning(w, rs[j], times[j]) == Failure(times[j + 1])
  }

  /**
   A fallback runs its branches in order, each from the moment the one before it failed, and
   ends with the first that does not fail, or with the last failure.
   */
  lemma {:induction false} FallbackTakesFirstSuccess(w: World, rs: seq<Route>, start: nat) returns (times: seq<nat>)
    ensures FailedUntil(w, rs, times, start)
    ensures var k := |times| - 1;
            if k < |rs|
            then !Meaning(w, rs[k], times[k]).Failure? && InTurn(w, rs, start) == Meaning(w, rs[k], times[k])
            else InTurn(w, rs, start) == Failure(times[k])
    decreases |rs|
  {
    times := [start];
    if rs != [] && Meaning(w, rs[0], start).Failure? {
      var rest := FallbackTakesFirstSuccess(w, rs[1..], Meaning(w, rs[0], start).at);
      times := [start] + rest;
      assert forall j :: 0 <= j < |rest| ==> times[j + 1] == rest[j];
      assert forall j :: 1 <= j < |rs| ==> rs[j] == rs[1..][j - 1];
    }
  }

  // ----- the address list of a TCP dialer

  const HEAD_START := 250

  function DelayedDialers(addrs: seq<Addr>, index: nat): (ds: seq<Dialer>)
    ensures |ds| == |addrs|
    decreases |addrs|
  {
    if addrs == [] then []
    else [DelayDialer(TcpDialer(addrs[0]), HEAD_START * index)] + DelayedDialers(addrs[1..], index + 1)
  }

  /** `HappyEyeballsTcpDialer::dial`. */
  function HappyEyeballs(w: World, addrs: seq<Addr>, start: nat): Outcome {
    var ds := DelayedDialers(addrs, 0);
    if ds == [] then Failure(start) else Dial(w, RaceAll(ds[0], ds[1..]), start)
  }

  lemma {:induction false} DelayedOutcomes(w: World, addrs: seq<Addr>, index: nat, start: nat, i: nat)
    requires i < |addrs|
    ensures Outcomes(w, DelayedDialers(addrs, index), start)[i] ==
            w.connect(addrs[i], start + HEAD_START * (index + i))
    decreases |addrs|
  {
    var ds := DelayedDialers(addrs, index);
    assert ds[1..] == DelayedDialers(addrs[1..], index + 1);
    if i == 0 {
      var tcp := TcpDialer(addrs[0]);
      assert Dial(w, ds[0], start) == Dial(w, tcp, start + HEAD_START * index);
      assert Dial(w, tcp, start + HEAD_START * index) == w.connect(addrs[0], start + HEAD_START * index);
    } else {
      DelayedOutcomes(w, addrs[1..], index + 1, start, i - 1);
      assert index + 1 + (i - 1) == index + i;
    }
  }

  /** Each address, dialed a quarter of a second after the one before it. */
  function Staggered(w: World, addrs: seq<Addr>, start: nat): (os: seq<Outcome>)
    ensures |os| == |addrs|
    ensures forall i :: 0 <= i < |os| ==> os[i] == w.connect(addrs[i], start + 250 * i)
  {
    seq(|addrs|, i requires 0 <= i < |addrs| => w.connect(addrs[i], start + HEAD_START * i))
  }

  /** The address list races its staggered attempts, and the best result wins. */
  lemma HappyEyeballsIsStaggeredRace(w: World, addrs: seq<Addr>, start: nat)
    requires Causal(w)
    ensures HappyEyeballs(w, addrs, start) == Best(Staggered(w, addrs, start), start)
  {
    var ds := DelayedDialers(addrs, 0);
    forall i | 0 <= i < |addrs|
      ensures Outcomes(w, ds, start)[i] == Staggered(w, addrs, start)[i]
    {
      DelayedOutcomes(w, addrs, 0, start, i);
    }
    assert Outcomes(w, ds, start) == Staggered(w, addrs, start);
    if ds != [] {
      RaceOfDialers(w, ds, start);
    }
  }

  // ----- the whitelist

  /** The addresses added to the VPN whitelist while compiling, one for each Tcp leaf. */
  function Whitelist(r: Route): set<nat> {
    match r
    case Tcp(a) => {a.ip}
    case Layered(_, lower) => Whitelist(lower)
    case Race(inside) => WhitelistAll(inside)
    case Fallback(inside) => WhitelistAll(inside)
    case Timeout(_, lower) => Whitelist(lower)
    case Delay(_, lower) => Whitelist(lower)
    case Other => {}
  }

  function WhitelistAll(rs: seq<Route>): set<nat> {
    if rs == [] then {} else Whitelist(rs[0]) + WhitelistAll(rs[1..])
  }

  /** Two worlds that treat the listed hosts alike. */
  ghost predicate AgreeOn(w: World, w': World, ips: set<nat>) {
    && w.negotiate == w'.negotiate
    && forall a: Addr, t: nat :: a.ip in ips ==> w.connect(a, t) == w'.connect(a, t)
  }

  /** A compiled route only ever connects to hosts that were whitelisted for it. */
  lemma {:induction false} OnlyWhitelistedHostsMatter(w: World, w': World, r: Route, start: nat)
    requires AgreeOn(w, w', Whitelist(r))
    ensures Meaning(w, r, start) == Meaning(w', r, start)
    decreases r, 1
  {
    match r
    case Tcp(a) =>
    case Layered(_, lower) => OnlyWhitelistedHostsMatter(w, w', lower, start);
    case Race(inside) => OnlyWhitelistedBranchesMatter(w, w', inside, start);
    case Fallback(inside) => OnlyWhitelistedTurnsMatter(w, w', inside, start);
    case Timeout(_, lower) => OnlyWhitelistedHostsMatter(w, w', lower, start);
    case Delay(ms, lower) => OnlyWhitelistedHostsMatter(w, w', lower, start + ms);
    case Other =>
  }

  lemma {:induction false} OnlyWhitelistedBranchesMatter(w: World, w': World, rs: seq<Route>, start: nat)
    requires AgreeOn(w, w', WhitelistAll(rs))
    ensures Meanings(w, rs, start) == Meanings(w', rs, start)
    decreases rs, 0
  {
    if rs != [] {
      OnlyWhitelistedHostsMatter(w, w', rs[0], start);
      OnlyWhitelistedBranchesMatter(w, w', rs[1..], start);
    }
  }

  lemma {:induction false} OnlyWhitelistedTurnsMatter(w: World, w': World, rs: seq<Route>, start: nat)
    requires AgreeOn(w, w', WhitelistAll(rs))
    ensures InTurn(w, rs, start) == InTurn(w', rs, start)
    decreases rs, 0
  {
    if rs != [] {
      OnlyWhitelistedHostsMatter(w, w', rs[0], start);
      var o := Meaning(w, rs[0], start);
      if o.Failure? {
        OnlyWhitelistedTurnsMatter(w, w', rs[1..], o.at);
      }
    }
  }

  /** The same of the compiled dialer: it behaves alike in worlds that treat those hosts alike. */
  lemma CompiledDialerIsConfined(w: World, w': World, r: Route, start: nat)
    requires Causal(w) && Causal(w') && AgreeOn(w, w', Whitelist(r))
    ensures Dial(w, Compile(r), start) == Dial(w', Compile(r), start)
  {
    CompiledRouteIsCorrect(w, r, start);
    CompiledRouteIsCorrect(w', r, start);
    OnlyWhitelistedHostsMatter(w, w', r, start);
  }

  /** The Tcp leaf at the end of a path of branch numbers. */
  function LeafAt(r: Route, path: seq<nat>): Option<Addr>
    decreases r
  {
    match r
    case Tcp(a) => if path == [] then Some(a) else None
    case Layered(_, lower) => LeafAt(lower, path)
    case Timeout(_, lower) => LeafAt(lower, path)
    case Delay(_, lower) => LeafAt(lower, path)
    case Other => None
    case _ =>
      if path != [] && path[0] < |r.inside| then LeafAt(r.inside[path[0]], path[1..]) else None
  }

  /** Every Tcp leaf is whitelisted ... */
  lemma {:induction false} LeavesAreWhitelisted(r: Route, path: seq<nat>)
    requires LeafAt(r, path).Some?
    ensures LeafAt(r, path).value.ip in Whitelist(r)
    decreases r
  {
    match r
    case Tcp(_) =>
    case Layered(_, lower) => LeavesAreWhitelisted(lower, path);
    case Timeout(_, lower) => LeavesAreWhitelisted(lower, path);
    case Delay(_, lower) => LeavesAreWhitelisted(lower, path);
    case Race(inside) =>
      LeavesAreWhitelisted(inside[path[0]], path[1..]);
      WhitelistMember(inside, path[0]);
    case Fallback(inside) =>
      LeavesAreWhitelisted(inside[path[0]], path[1..]);
      WhitelistMember(inside, path[0]);
    case Other =>
  }

  lemma {:induction false} WhitelistMember(rs: seq<Route>, i: nat)
    requires i < |rs|
    ensures Whitelist(rs[i]) <= WhitelistAll(rs)
  {
    if i > 0 {
      WhitelistMember(rs[1..], i - 1);
    }
  }

  /** ... and nothing else is: each whitelisted host comes from some leaf. */
  lemma {:induction false} WhitelistedIsLeaf(r: Route, ip: nat) returns (path: seq<nat>)
    requires ip in Whitelist(r)
    ensures LeafAt(r, path).Some? && LeafAt(r, path).value.ip == ip
    decreases r, 1
  {
    match r
    case Tcp(_) => path := [];
    case Layered(_, lower) => path := WhitelistedIsLeaf(lower, ip);
    case Timeout(_, lower) => path := WhitelistedIsLeaf(lower, ip);
    case Delay(_, lower) => path := WhitelistedIsLeaf(lower, ip);
    case Race(inside) => path := WhitelistedInside(inside, ip);
    case Fallback(inside) => path := WhitelistedInside(inside, ip);
    case Other =>
  }

  lemma {:induction false} WhitelistedInside(rs: seq<Route>, ip: nat) returns (path: seq<nat>)
    requires ip in WhitelistAll(rs)
    ensures path != [] && path[0] < |rs|
    ensures LeafAt(rs[path[0]], path[1..]).Some? && LeafAt(rs[path[0]], path[1..]).value.ip == ip
    decreases rs, 0
  {
    if ip in Whitelist(rs[0]) {
      var rest := WhitelistedIsLeaf(rs[0], ip);
      path := [0] + rest;
    } else {
      var p := WhitelistedInside(rs[1..], ip);
      path := [p[0] + 1] + p[1..];
      assert rs[path[0]] == rs[1..][p[0]];
    }
  }

  // ----- compiling in place

  /** `reduce` with `race`, or a dialer that fails if there is nothing to reduce. */
  method ReduceRace(ds: seq<Dialer>) returns (d: Dialer)
    ensures d == if ds == [] then FailingDialer else RaceAll(ds[0], ds[1..])
  {
    if ds == [] {
      return FailingDialer;
    }
    d := ds[0];
    for i := 1 to |ds|
      invariant RaceAll(ds[0], ds[1..]) == RaceAll(d, ds[i..])
    {
      assert ds[i..][1..] == ds[i + 1..];
      d := RaceDialer(d, ds[i]);
    }
  }

  /** `reduce` with `fallback`, likewise. */
  method ReduceFallback(ds: seq<Dialer>) returns (d: Dialer)
    ensures d == if ds == [] then FailingDialer else FallbackAll(ds[0], ds[1..])
  {
    if ds == [] {
      return FailingDialer;
    }
    d := ds[0];
    for i := 1 to |ds|
      invariant FallbackAll(ds[0], ds[1..]) == FallbackAll(d, ds[i..])
    {
      assert ds[i..][1..] == ds[i + 1..];
      d := FallbackDialer(d, ds[i]);
    }
  }

  class Context {
    var whitelist: set<nat>

    constructor ()
      ensures whitelist == {}
    {
      whitelist := {};
    }

    /** `route_to_dialer`, whose only effect is on the whitelist. */
    method RouteToDialer(r: Route) returns (d: Dialer)
      modifies this
      ensures d == Compile(r)
      ensures whitelist == old(whitelist) + Whitelist(r)
      decreases r, 1
    {
      match r
      case Tcp(a) =>
        whitelist := whitelist + {a.ip};
        d := TcpDialer(a);
      case Layered(l, lower) =>
        d := RouteToDialer(lower);
        d := LayerDialer(l, d);
      case Race(inside) =>
        var ds := RoutesToDialers(inside);
        d := ReduceRace(ds);
      case Fallback(inside) =>
        var ds := RoutesToDialers(inside);
        d := ReduceFallback(ds);
      case Timeout(ms, lower) =>
        d := RouteToDialer(lower);
        d := TimeoutDialer(d, ms);
      case Delay(ms, lower) =>
        d := RouteToDialer(lower);
        d := DelayDialer(d, ms);
      case Other =>
        d := FailingDialer;
    }

    method RoutesToDialers(rs: seq<Route>) returns (ds: seq<Dialer>)
      modifies this
      ensures ds == CompileAll(rs)
      ensures whitelist == old(whitelist) + WhitelistAll(rs)
      decreases rs, 0
    {
      if rs == [] {
        return [];
      }
      var first := RouteToDialer(rs[0]);
      var rest := RoutesToDialers(rs[1..]);
      ds := [first] + rest;
    }
  }
}

/**
 The obfuscation stacks agreed between broker, client and exit: what the client dials from the
 broker's descriptor must be what the exit listens for.
 */
module ObfuscationStack {
  import opened Common
  import opened Routes

  datatype ObfsProtocol =
    | Sosistab3(cookie: string)
    | NoObfs
    | ConnTest(inner: ObfsProtocol)
    | PlainTls(inner: ObfsProtocol)
    | Sosistab3New(cookie: string, inner: ObfsProtocol)

  const SNI_DOMAIN := "labooyah-squish.be"

  /** `protocol_to_descriptor`, in the broker. */
  function Descriptor(p: ObfsProtocol, addr: Addr): Route {
    match p
    case Sosistab3(cookie) => Layered(Sosistab(cookie), Tcp(addr))
    case NoObfs => Tcp(addr)
    case ConnTest(inner) => Layered(Pings(1), Descriptor(inner, addr))
    case PlainTls(inner) => Layered(Tls(Some(SNI_DOMAIN)), Descriptor(inner, addr))
    case Sosistab3New(cookie, inner) => Layered(Sosistab(cookie), Descriptor(inner, addr))
  }

  datatype Listener =
    | Bottom
    | SosistabListener(inner: Listener, cookie: string)
    | ConnTestListener(inner: Listener)
    | TlsListener(inner: Listener)

  /** `create_listener`, in the exit. */
  function CreateListener(p: ObfsProtocol): Listener {
    match p
    case Sosistab3(cookie) => SosistabListener(Bottom, cookie)
    case ConnTest(inner) => ConnTestListener(CreateListener(inner))
    case NoObfs => Bottom
    case PlainTls(inner) => TlsListener(CreateListener(inner))
    case Sosistab3New(cookie, inner) => SosistabListener(CreateListener(inner), cookie)
  }

  /** What both ends must have in common: the kind of layer, and the cookie where there is one. */
  datatype Kind = CookieLayer(cookie: string) | EchoLayer | TlsLayer

  function KindOf(l: Layer): Kind {
    match l
    case Sosistab(cookie) => CookieLayer(cookie)
    case Pings(_) => EchoLayer
    case Tls(_) => TlsLayer
  }

  /** A dialer that is a stack of layers on one TCP connection, outermost layer first. */
  function LayerStack(d: Dialer): Option<(seq<Layer>, Addr)> {
    match d
    case TcpDialer(a) => Some(([], a))
    case LayerDialer(l, inner) =>
      (match LayerStack(inner)
       case None => None
       case Some((ls, a)) => Some(([l] + ls, a)))
    case _ => None
  }

  function Kinds(ls: seq<Layer>): seq<Kind> {
    if ls == [] then [] else [KindOf(ls[0])] + Kinds(ls[1..])
  }

  function ListenStack(l: Listener): seq<Kind> {
    match l
    case Bottom => []
    case SosistabListener(inner, cookie) => [CookieLayer(cookie)] + ListenStack(inner)
    case ConnTestListener(inner) => [EchoLayer] + ListenStack(inner)
    case TlsListener(inner) => [TlsLayer] + ListenStack(inner)
  }

  /** The layers as the descriptor spells them out: one ping in a test, and the fixed domain for TLS. */
  predicate Spelled(l: Layer) {
    match l
    case Sosistab(_) => true
    case Pings(count) => count == 1
    case Tls(sni) => sni == Some("labooyah-squish.be")
  }

  /**
   For every protocol the client dials one TCP connection to the given address and on it, layer
   by layer, what the exit listens for, with one ping in each test and the fixed TLS domain.
   */
  lemma {:induction false} StacksAgree(p: ObfsProtocol, addr: Addr)
    ensures var stack := LayerStack(Compile(Descriptor(p, addr)));
            && stack.Some? && stack.value.1 == addr
            && Kinds(stack.value.0) == ListenStack(CreateListener(p))
            && forall i :: 0 <= i < |stack.value.0| ==> Spelled(stack.value.0[i])
  {
    match p
    case Sosistab3(cookie) =>
      var none: seq<Layer> := [];
      assert LayerStack(TcpDialer(addr)) == Some((none, addr));
      assert Compile(Descriptor(p, addr)) == LayerDialer(Sosistab(cookie), TcpDialer(addr));
      assert ([Sosistab(cookie)] + none)[1..] == none;
    case NoObfs =>
    case ConnTest(inner) => StacksAgree(inner, addr);
    case PlainTls(inner) => StacksAgree(inner, addr);
    case Sosistab3New(_, inner) => StacksAgree(inner, addr);
  }

  /** The outermost constructor of a protocol is the outermost layer, and nothing is left out. */
  lemma OuterLayerFirst(p: ObfsProtocol, cookie: string)
    ensures ListenStack(CreateListener(NoObfs)) == []
    ensures ListenStack(CreateListener(Sosistab3(cookie))) == [CookieLayer(cookie)]
    ensures var inner := ListenStack(CreateListener(p));
            && ListenStack(CreateListener(ConnTest(p))) == [EchoLayer] + inner
            && ListenStack(CreateListener(PlainTls(p))) == [TlsLayer] + inner
            && ListenStack(CreateListener(Sosistab3New(cookie, p))) == [CookieLayer(cookie)] + inner
  {
  }

  /** Different protocols do not get by with the same stack, except for the two spellings of sosistab3. */
  function Normal(p: ObfsProtocol): ObfsProtocol {
    match p
    case Sosistab3(cookie) => Sosistab3New(cookie, NoObfs)
    case NoObfs => NoObfs
    case ConnTest(inner) => ConnTest(Normal(inner))
    case PlainTls(inner) => PlainTls(Normal(inner))
    case Sosistab3New(cookie, inner) => Sosistab3New(cookie, Normal(inner))
  }

  lemma {:induction false} StackIdentifiesProtocol(p: ObfsProtocol, q: ObfsProtocol)
    ensures ListenStack(CreateListener(p)) == ListenStack(CreateListener(q)) <==> Normal(p) == Normal(q)
    decreases |ListenStack(CreateListener(p))|
  {
    var s, t := ListenStack(CreateListener(p)), ListenStack(CreateListener(q));
    if s != [] && t != [] && s[0] == t[0] {
      assert s == t <==> s[1..] == t[1..] by {
        assert s == [s[0]] + s[1..] && t == [t[0]] + t[1..];
      }
      StackIdentifiesProtocol(Inner(p), Inner(q));
    }
  }

  function Inner(p: ObfsProtocol): ObfsProtocol
    requires !p.NoObfs?
  {
    if p.Sosistab3? then NoObfs else p.inner
  }
}
