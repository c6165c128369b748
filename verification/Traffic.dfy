/**
 The client's traffic history: a bounded queue of per-second bins that is brought up to date
 lazily, at the next increment. The reference is the full list of per-second sums; floating
 point is modelled by real numbers.
 */
module Traffic {
  import opened Common

  /** Time is in nanoseconds. */
  const SECOND := 1_000_000_000

  datatype Increment = Increment(bytes: real, at: nat)

  // ----- the reference

  /** Increments in order, none before the counter was created. */
  ghost predicate Ordered(log: seq<Increment>, created: nat) {
    && (forall i :: 0 <= i < |log| ==> created <= log[i].at)
    && (forall i, j :: 0 <= i <= j < |log| ==> log[i].at <= log[j].at)
  }

  /** The whole second an increment is charged to: the first one always to second zero. */
  function SecondOf(log: seq<Increment>, i: nat, created: nat): nat
    requires i < |log|
  {
    if i == 0 || log[i].at < created then 0 else (log[i].at - created) / SECOND
  }

  /** Seconds are counted from creation, in whole seconds of 10^9 nanoseconds. */
  lemma SecondsAreWhole(log: seq<Increment>, i: nat, created: nat)
    requires i < |log| && created <= log[i].at
    ensures i == 0 ==> SecondOf(log, i, created) == 0
    ensures i > 0 ==>
              var k := SecondOf(log, i, created);
              k * 1_000_000_000 <= log[i].at - created < (k + 1) * 1_000_000_000
  {
  }

  function LastSecond(log: seq<Increment>, created: nat): nat {
    if log == [] then 0 else SecondOf(log, |log| - 1, created)
  }

  /** All bytes charged to second `k`. */
  function SumAt(log: seq<Increment>, created: nat, k: nat): real {
    if log == [] then 0.0
    else
      var last := |log| - 1;
      SumAt(log[..last], created, k) + (if SecondOf(log, last, created) == k then log[last].bytes else 0.0)
  }

  /** The sums of all seconds so far; empty before the first increment. */
  function Sums(log: seq<Increment>, created: nat): (s: seq<real>)
    ensures |s| == if log == [] then 0 else LastSecond(log, created) + 1
  {
    if log == [] then []
    else seq(LastSecond(log, created) + 1, k requires 0 <= k => SumAt(log, created, k))
  }

  /** The last `n` entries, or all of them. */
  function Tail<T>(s: seq<T>, n: nat): seq<T> {
    if |s| <= n then s else s[|s| - n..]
  }

  function Zeros(n: nat): (s: seq<real>)
    ensures |s| == n
    ensures forall i :: 0 <= i < n ==> s[i] == 0.0
  {
    seq(n, _ => 0.0)
  }

  lemma {:induction false} NothingLater(log: seq<Increment>, created: nat, k: nat)
    requires Ordered(log, created) && k > LastSecond(log, created)
    ensures SumAt(log, created, k) == 0.0
  {
    if log != [] {
      var last := |log| - 1;
      if last > 0 {
        SecondsGrow(log, created);
      }
      assert forall i :: 0 <= i < last ==> log[..last][i] == log[i];
      NothingLater(log[..last], created, k);
    }
  }

  lemma SecondsGrow(log: seq<Increment>, created: nat)
    requires Ordered(log, created) && |log| > 1
    ensures LastSecond(log[..|log| - 1], created) <= LastSecond(log, created)
  {
    var i, j := |log| - 2, |log| - 1;
    assert log[i].at <= log[j].at;
  }

  /** One more increment: the missing seconds are zero, and the last one grows. */
  lemma SumsGrow(log: seq<Increment>, created: nat, e: Increment)
    requires Ordered(log + [e], created) && log != []
    ensures LastSecond(log, created) <= LastSecond(log + [e], created)
    ensures var k := LastSecond(log + [e], created);
            var padded := Sums(log, created) + Zeros(k - LastSecond(log, created));
            Sums(log + [e], created) == padded[k := padded[k] + e.bytes]
  {
    var log' := log + [e];
    assert log'[..|log|] == log;
    SecondsGrow(log', created);
    var l, k := LastSecond(log, created), LastSecond(log', created);
    var padded := Sums(log, created) + Zeros(k - l);
    assert Ordered(log, created) by {
      assert forall i :: 0 <= i < |log| ==> log[i] == log'[i];
    }
    forall i | 0 <= i <= k
      ensures Sums(log', created)[i] == padded[k := padded[k] + e.bytes][i]
    {
      assert SumAt(log', created, i) == SumAt(log, created, i) + (if k == i then e.bytes else 0.0);
      if i > l {
        NothingLater(log, created, i);
      }
    }
  }

  /** The window moves on by as many whole seconds as the log does. */
  lemma NextWindow(log: seq<Increment>, created: nat, e: Increment) returns (elapsed: nat)
    requires Ordered(log, created) && created <= e.at && (log != [] ==> log[|log| - 1].at <= e.at)
    ensures Ordered(log + [e], created)
    ensures var start := created + SECOND * LastSecond(log, created);
            start <= e.at && elapsed == (e.at - start) / SECOND
    ensures log != [] ==> LastSecond(log + [e], created) == LastSecond(log, created) + elapsed
    ensures log == [] ==> LastSecond(log + [e], created) == 0
  {
    var l := LastSecond(log, created);
    elapsed := (e.at - (created + SECOND * l)) / SECOND;
  }

  lemma FirstSum(created: nat, e: Increment)
    ensures Sums([e], created) == [e.bytes]
  {
    assert [e][..0] == [];
    assert SumAt([e], created, 0) == SumAt([], created, 0) + e.bytes;
  }

  function Total(s: seq<real>): real {
    if s == [] then 0.0 else Total(s[..|s| - 1]) + s[|s| - 1]
  }

  function Bytes(log: seq<Increment>): real {
    if log == [] then 0.0 else Bytes(log[..|log| - 1]) + log[|log| - 1].bytes
  }

  lemma {:induction false} TotalWithZeros(s: seq<real>, n: nat)
    ensures Total(s + Zeros(n)) == Total(s)
    decreases n
  {
    if n == 0 {
      assert s + Zeros(0) == s;
    } else {
      assert (s + Zeros(n))[..|s| + n - 1] == s + Zeros(n - 1);
      TotalWithZeros(s, n - 1);
    }
  }

  /** One more increment adds its bytes to the total. */
  lemma TotalGrows(log: seq<Increment>, created: nat, e: Increment)
    requires Ordered(log + [e], created)
    ensures Total(Sums(log + [e], created)) == Total(Sums(log, created)) + e.bytes
  {
    hide Sums, SumAt, Ordered;
    if log == [] {
      assert log + [e] == [e];
      FirstSum(created, e);
      assert [e.bytes][..0] == [];
      assert Total(Sums(log, created)) == 0.0 by { NoSums(created); }
    } else {
      SumsGrow(log, created, e);
      var k, l := LastSecond(log + [e], created), LastSecond(log, created);
      var padded := Sums(log, created) + Zeros(k - l);
      TotalWithZeros(Sums(log, created), k - l);
      assert |padded| == k + 1 by { SumsLength(log, created); }
      assert padded[k := padded[k] + e.bytes][..k] == padded[..k];
    }
  }

  lemma NoSums(created: nat)
    ensures Sums([], created) == []
  {
  }

  lemma SumsLength(log: seq<Increment>, created: nat)
    requires log != []
    ensures |Sums(log, created)| == LastSecond(log, created) + 1
  {
  }

  /** No byte is lost or counted twice: the seconds add up to all that was ever counted. */
  lemma {:induction false} SecondsAddUp(log: seq<Increment>, created: nat)
    requires Ordered(log, created)
    ensures Total(Sums(log, created)) == Bytes(log)
    decreases |log|
  {
    hide Sums, Total;
    if log == [] {
      assert Total(Sums(log, created)) == 0.0 by { NoSums(created); NoTotal(); }
    } else {
      var front := log[..|log| - 1];
      assert log == front + [log[|log| - 1]];
      assert forall i :: 0 <= i < |front| ==> front[i] == log[i];
      SecondsAddUp(front, created);
      TotalGrows(front, created, log[|log| - 1]);
    }
  }

  lemma NoTotal()
    ensures Total([]) == 0.0
  {
  }

  // ----- the counter

  class TraffCount {
    var bins: seq<real>
    var windowStart: nat
    const maxHistorySeconds: nat
    ghost const created: nat
    ghost var log: seq<Increment>

    /** The bins are the end of the list of per-second sums. */
    ghost predicate Valid()
      reads this
    {
      && Ordered(log, created)
      && bins == Tail(Sums(log, created), Kept())
      && windowStart == created + SECOND * LastSecond(log, created)
    }

    /** How many seconds are kept: at least one. */
    function Kept(): (n: nat)
      ensures n == Max(1, maxHistorySeconds)
    {
      if maxHistorySeconds == 0 then 1 else maxHistorySeconds
    }

    constructor (maxSeconds: nat, now: nat)
      ensures Valid() && log == [] && created == now && maxHistorySeconds == maxSeconds
    {
      bins, windowStart, maxHistorySeconds := [], now, maxSeconds;
      created, log := now, [];
    }

    /** `incr`: after any run of these, `Valid` says what the bins are. */
    method Incr(bytes: real, now: nat)
      requires Valid()
      requires created <= now && (log != [] ==> log[|log| - 1].at <= now)
      modifies this
      ensures log == old(log) + [Increment(bytes, now)]
      ensures Valid()
      ensures bins == Tail(Sums(log, created), Max(1, maxHistorySeconds))
    {
      hide Tail, SumAt;
      ghost var e := Increment(bytes, now);
      ghost var elapsed := NextWindow(log, created, e);
      EnsureBinsUpdated(now);
      bins := bins[|bins| - 1 := bins[|bins| - 1] + bytes];
      log := log + [e];
      hide Sums;
      if old(log) == [] {
        assert log == [e];
        FirstSum(created, e);
        TailOfOne(bytes, Kept());
      } else {
        SumsGrow(old(log), created, e);
        TailUpdate(Sums(old(log), created) + Zeros(elapsed), Kept(),
                   (Sums(old(log), created) + Zeros(elapsed))[LastSecond(log, created)] + bytes);
      }
    }

    /** `ensure_bins_updated`: empty bins are added for the seconds that have passed. */
    method EnsureBinsUpdated(now: nat)
      requires Valid() && windowStart <= now
      modifies this`bins, this`windowStart
      ensures bins != []
      ensures log == [] ==> bins == [0.0] && windowStart == old(windowStart)
      ensures log != [] ==>
                var elapsed := (now - old(windowStart)) / SECOND;
                && bins == Tail(Sums(log, created) + Zeros(elapsed), Kept())
                && windowStart == old(windowStart) + SECOND * elapsed
    {
      var secondsElapsed := (now - windowStart) / SECOND;
      ghost var sums := Sums(log, created);
      assert sums + Zeros(0) == sums;
      if secondsElapsed == 0 && bins != [] {
        return;
      }
      if bins == [] {
        bins := bins + [0.0];
        return;
      }
      AddBins(secondsElapsed, sums);
      windowStart := windowStart + SECOND * secondsElapsed;
    }

    /** One empty bin per second, the oldest going when the queue is full. */
    method AddBins(n: nat, ghost sums: seq<real>)
      requires sums != [] && bins == Tail(sums, Kept())
      modifies this`bins
      ensures bins == Tail(sums + Zeros(n), Kept()) && bins != []
    {
      assert sums + Zeros(0) == sums;
      for i := 0 to n
        invariant bins == Tail(sums + Zeros(i), Kept()) && bins != []
      {
        TailPush(sums + Zeros(i), Kept(), 0.0);
        assert sums + Zeros(i) + [0.0] == sums + Zeros(i + 1);
        if |bins| >= maxHistorySeconds {
          bins := bins[1..];
        }
        bins := bins + [0.0];
      }
    }

    /** `speed_history`: the sums of the last seconds, oldest first. */
    method SpeedHistory() returns (speeds: seq<real>)
      requires Valid()
      ensures |speeds| == Min(|Sums(log, created)|, Max(1, maxHistorySeconds))
      ensures forall i :: 0 <= i < |speeds| ==>
                speeds[i] == SumAt(log, created, |Sums(log, created)| - |speeds| + i)
    {
      speeds := bins;
    }
  }

  lemma TailOfOne<T>(x: T, n: nat)
    requires n >= 1
    ensures Tail([x], n) == [x]
  {
  }

  lemma TailPush<T>(s: seq<T>, n: nat, x: T)
    requires s != [] && n >= 1
    ensures var t := Tail(s, n);
            t != [] && Tail(s + [x], n) == (if |t| >= n then t[1..] else t) + [x]
  {
  }

  lemma TailUpdate<T>(s: seq<T>, n: nat, x: T)
    requires s != [] && n >= 1
    ensures var t := Tail(s, n);
            && t != [] && t[|t| - 1] == s[|s| - 1]
            && Tail(s[|s| - 1 := x], n) == t[|t| - 1 := x]
  {
  }
}
