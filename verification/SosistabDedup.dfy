/**
 The replay table of the sosistab3 listener: a map from handshake hash to the time it was
 accepted, swept only when it has doubled since the last sweep.
 */
module SosistabDedup {
  import opened Common

  datatype Table<T(==)> = Table(bucket: map<T, nat>, lastSize: nat)

  function Empty<T>(): Table<T> {
    Table(map[], 1)
  }

  /** `cleanup`: entries whose age has reached the expiry go. The clock is read for every entry. */
  function Cleanup<T>(t: Table<T>, expiry: nat, at: T -> nat): Table<T> {
    var kept := map k | k in t.bucket && at(k) - t.bucket[k] < expiry :: t.bucket[k];
    Table(kept, |kept|)
  }

  /** `insert` at time `now`, with a sweep that reads the clock as `at` if one is due. */
  function Insert<T>(t: Table<T>, expiry: nat, key: T, now: nat, at: T -> nat): Table<T> {
    var t' := t.(bucket := t.bucket[key := now]);
    if |t'.bucket| > t'.lastSize * 2 then Cleanup(t', expiry, at) else t'
  }

  /** An insertion forgets nothing unless the table has more than doubled since the last sweep. */
  lemma InsertForgetsLittle<T>(t: Table<T>, expiry: nat, key: T, now: nat, at: T -> nat)
    ensures |t.bucket[key := now]| <= 2 * t.lastSize ==>
              Insert(t, expiry, key, now, at) == Table(t.bucket[key := now], t.lastSize)
    ensures |t.bucket[key := now]| > 2 * t.lastSize ==>
              var t' := Insert(t, expiry, key, now, at);
              && t'.lastSize == |t'.bucket|
              && (forall k :: k in t'.bucket <==> k in t.bucket[key := now] && at(k) < t.bucket[key := now][k] + expiry)
              && (forall k :: k in t'.bucket ==> t'.bucket[k] == t.bucket[key := now][k])
  {
  }

  /** The first two keys stay whatever the expiry is. */
  lemma FirstKeysStay<T>(expiry: nat, a: T, b: T, s: nat, t: nat, at: T -> nat)
    ensures Insert(Insert(Empty(), expiry, a, s, at), expiry, b, t, at).bucket == map[a := s, b := t]
  {
    assert |map[a := s]| == 1;
    assert |map[a := s, b := t]| <= 2;
  }

  class Dedup<T(==)> {
    var bucket: map<T, nat>
    var lastSize: nat
    const expiry: nat

    ghost function Value(): Table<T>
      reads this
    {
      Table(bucket, lastSize)
    }

    constructor (expiry: nat)
      ensures Value() == Empty() && this.expiry == expiry
    {
      this.bucket, this.lastSize, this.expiry := map[], 1, expiry;
    }

    method Sweep(at: T -> nat)
      modifies this
      ensures Value() == Cleanup(old(Value()), expiry, at)
    {
      bucket := map k | k in bucket && at(k) - bucket[k] < expiry :: bucket[k];
      lastSize := |bucket|;
    }

    method Add(key: T, now: nat, at: T -> nat)
      modifies this
      ensures Value() == Insert(old(Value()), expiry, key, now, at)
    {
      bucket := bucket[key := now];
      if |bucket| > lastSize * 2 {
        Sweep(at);
      }
    }

    method Contains(key: T) returns (b: bool)
      ensures b <==> key in bucket
    {
      b := key in bucket;
    }
  }

  // ----- runs of the listener's gate

  /** A handshake presented at `now`; a sweep may follow, which reads the clock as `at` until `end`. */
  datatype Visit<!T> = Visit(key: T, now: nat, at: T -> nat, end: nat)

  /** The clock does not run backwards. */
  predicate OnTime<T(==)>(clock: nat, bucket: map<T, nat>, v: Visit<T>) {
    && clock <= v.now <= v.end
    && v.now <= v.at(v.key) <= v.end
    && forall k :: k in bucket ==> v.now <= v.at(k) <= v.end
  }

  /** An accepted handshake. */
  datatype Accepted<T> = Accepted(key: T, time: nat)

  datatype Gate<T(==)> = Gate(table: Table<T>, log: seq<Accepted<T>>, clock: nat)

  /** `contains`, then `insert`, under one lock; `None` if the clock would run backwards. */
  function Pass<T>(g: Gate<T>, expiry: nat, v: Visit<T>): Option<Gate<T>> {
    if !OnTime(g.clock, g.table.bucket, v) then
      None
    else if v.key in g.table.bucket then
      Some(g.(clock := v.end))
    else
      Some(Gate(Insert(g.table, expiry, v.key, v.now, v.at), g.log + [Accepted(v.key, v.now)], v.end))
  }

  function Run<T>(g: Gate<T>, expiry: nat, vs: seq<Visit<T>>): Option<Gate<T>>
    decreases |vs|
  {
    if vs == [] then Some(g)
    else match Pass(g, expiry, vs[0])
      case None => None
      case Some(g') => Run(g', expiry, vs[1..])
  }

  /** The distinct keys accepted in the window of one expiry that ends at `end`. */
  ghost function Window<T>(log: seq<Accepted<T>>, expiry: nat, end: int): set<T> {
    set i | 0 <= i < |log| && end - expiry < log[i].time <= end :: log[i].key
  }

  /** Every key in the table was accepted at its recorded time, and forgotten keys have expired. */
  ghost predicate Remembers<T>(g: Gate<T>, expiry: nat) {
    && (forall k :: k in g.table.bucket ==>
          g.table.bucket[k] <= g.clock && Accepted(k, g.table.bucket[k]) in g.log)
    && (forall i :: 0 <= i < |g.log| ==>
          && g.log[i].time <= g.clock
          && (if g.log[i].key in g.table.bucket
              then g.log[i].time <= g.table.bucket[g.log[i].key]
              else g.log[i].time + expiry <= g.clock))
  }

  ghost predicate NoReplay<T>(g: Gate<T>, expiry: nat) {
    forall i, j :: 0 <= i < j < |g.log| && g.log[i].key == g.log[j].key ==>
      g.log[i].time + expiry <= g.log[j].time
  }

  ghost predicate Compact<T>(g: Gate<T>, expiry: nat) {
    && |g.table.bucket| <= 2 * g.table.lastSize
    && (g.table.lastSize == 1 || exists end :: g.table.lastSize <= |Window(g.log, expiry, end)|)
  }

  ghost predicate Inv<T>(g: Gate<T>, expiry: nat) {
    Remembers(g, expiry) && NoReplay(g, expiry) && Compact(g, expiry)
  }

  lemma SmallerSet<T>(a: set<T>, b: set<T>)
    requires a <= b
    ensures |a| <= |b|
  {
    assert b == a + (b - a);
  }

  lemma GrowthRemembers<T>(g: Gate<T>, expiry: nat, key: T, now: nat)
    requires Remembers(g, expiry) && g.clock <= now
    ensures Remembers(Gate(g.table.(bucket := g.table.bucket[key := now]),
                           g.log + [Accepted(key, now)], now), expiry)
  {
    var log := g.log + [Accepted(key, now)];
    assert log[|g.log|] == Accepted(key, now);
    assert forall e :: e in g.log ==> e in log;
  }

  lemma SweepRemembers<T>(g: Gate<T>, expiry: nat, at: T -> nat, end: nat)
    requires Remembers(g, expiry) && g.clock <= end
    requires forall k :: k in g.table.bucket ==> at(k) <= end
    ensures Remembers(g.(clock := end), expiry)
    ensures Remembers(Gate(Cleanup(g.table, expiry, at), g.log, end), expiry)
  {
  }

  lemma InsertRemembers<T>(g: Gate<T>, expiry: nat, v: Visit<T>)
    requires Remembers(g, expiry) && Pass(g, expiry, v).Some? && v.key !in g.table.bucket
    ensures Remembers(Pass(g, expiry, v).value, expiry)
  {
    hide Remembers, Cleanup;
    var t := g.table.(bucket := g.table.bucket[v.key := v.now]);
    GrowthRemembers(g, expiry, v.key, v.now);
    SweepRemembers(Gate(t, g.log + [Accepted(v.key, v.now)], v.now), expiry, v.at, v.end);
  }

  lemma InsertRefusesReplay<T>(g: Gate<T>, expiry: nat, v: Visit<T>)
    requires Inv(g, expiry) && Pass(g, expiry, v).Some? && v.key !in g.table.bucket
    ensures NoReplay(Pass(g, expiry, v).value, expiry)
  {
  }

  /** The keys left by a sweep were all accepted within one expiry before it. */
  lemma InsertStaysCompact<T>(g: Gate<T>, expiry: nat, v: Visit<T>)
    requires Inv(g, expiry) && Pass(g, expiry, v).Some? && v.key !in g.table.bucket
    ensures Compact(Pass(g, expiry, v).value, expiry)
  {
    InsertRemembers(g, expiry, v);
    var g' := Pass(g, expiry, v).value;
    var grown := g.table.bucket[v.key := v.now];
    if |grown| > g.table.lastSize * 2 {
      var w := Window(g'.log, expiry, v.now);
      forall k | k in g'.table.bucket ensures k in w {
        var i :| 0 <= i < |g'.log| && g'.log[i] == Accepted(k, g'.table.bucket[k]);
        assert g'.log[i].key in w;
      }
      assert g'.table.bucket.Keys <= w;
      SmallerSet(g'.table.bucket.Keys, w);
    } else if g.table.lastSize != 1 {
      var end :| g.table.lastSize <= |Window(g.log, expiry, end)|;
      WindowGrows(g.log, Accepted(v.key, v.now), expiry, end);
    }
  }

  lemma WindowGrows<T>(log: seq<Accepted<T>>, a: Accepted<T>, expiry: nat, end: int)
    ensures |Window(log, expiry, end)| <= |Window(log + [a], expiry, end)|
  {
    var w, w' := Window(log, expiry, end), Window(log + [a], expiry, end);
    forall k | k in w ensures k in w' {
      var i :| 0 <= i < |log| && end - expiry < log[i].time <= end && log[i].key == k;
      assert (log + [a])[i].key in w';
    }
    SmallerSet(w, w');
  }

  lemma PassKeepsInv<T>(g: Gate<T>, expiry: nat, v: Visit<T>)
    requires Inv(g, expiry) && Pass(g, expiry, v).Some?
    ensures Inv(Pass(g, expiry, v).value, expiry)
  {
    if v.key !in g.table.bucket {
      InsertRemembers(g, expiry, v);
      InsertRefusesReplay(g, expiry, v);
      InsertStaysCompact(g, expiry, v);
    }
  }

  lemma {:induction false} RunKeepsInv<T>(g: Gate<T>, expiry: nat, vs: seq<Visit<T>>)
    requires Inv(g, expiry) && Run(g, expiry, vs).Some?
    ensures Inv(Run(g, expiry, vs).value, expiry)
    decreases |vs|
  {
    hide Inv, Pass;
    if vs != [] {
      PassKeepsInv(g, expiry, vs[0]);
      RunKeepsInv(Pass(g, expiry, vs[0]).value, expiry, vs[1..]);
    }
  }

  lemma EmptyGateOk<T>(expiry: nat)
    ensures Inv(Gate(Empty<T>(), [], 0), expiry)
  {
  }

  /** Two acceptances of the same handshake are at least one expiry apart, in every run. */
  lemma ReplaysAreSpaced<T>(expiry: nat, vs: seq<Visit<T>>, i: nat, j: nat)
    requires Run(Gate(Empty(), [], 0), expiry, vs).Some?
    requires var log := Run(Gate(Empty(), [], 0), expiry, vs).value.log;
             i < j < |log| && log[i].key == log[j].key
    ensures var log := Run(Gate(Empty(), [], 0), expiry, vs).value.log;
            log[j].time - log[i].time >= expiry
  {
    RunKeepsInv(Gate(Empty(), [], 0), expiry, vs);
  }

  /**
   If no window of one expiry ever saw more than `peak` distinct handshakes accepted, the table
   never holds more than twice that many, or two.
   */
  lemma TableStaysSmall<T>(expiry: nat, vs: seq<Visit<T>>, peak: nat)
    requires Run(Gate(Empty(), [], 0), expiry, vs).Some?
    requires forall end :: |Window(Run(Gate(Empty(), [], 0), expiry, vs).value.log, expiry, end)| <= peak
    ensures |Run(Gate(Empty(), [], 0), expiry, vs).value.table.bucket| <= 2 * Max(1, peak)
  {
    RunKeepsInv(Gate(Empty(), [], 0), expiry, vs);
  }
}
