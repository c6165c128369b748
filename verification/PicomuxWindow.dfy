/**
 The receive-side credit window of one picomux stream: what `outgoing_task` does with
 `remote_window` and `target_remote_window` once it has written a frame to the application.
 The refill threshold is computed before the frame is received, from the target of the
 previous round, so it is one round stale when it is compared with the new target.
 */
module PicomuxWindow {
  import opened Common

  const INIT_WINDOW := 10
  const MAX_WINDOW := 1500

  /** `remote` is the credit the peer has been granted and not yet been seen to use. */
  datatype Window = Window(remote: nat, target: nat)

  const START := Window(INIT_WINDOW, MAX_WINDOW)

  function MinQuantum(target: nat): nat {
    Clamp(target / 10, 1, 500)
  }

  /** Outcome of one round: the new window and the quantum of the MORE frame, if one is sent. */
  datatype Round = Round(window: Window, more: Option<nat>)

  /**
   One round for a bandwidth-derived target `raw`. A float cast to an integer saturates, so
   any natural number can appear here; the clamp is what keeps it in range.
   */
  function Settle(w: Window, raw: nat): Round
    requires w.remote >= 1
  {
    var remote := w.remote - 1;
    var target := Clamp(raw, INIT_WINDOW, MAX_WINDOW);
    if remote + MinQuantum(w.target) <= target then
      Round(Window(target, target), Some(target - remote))
    else
      Round(Window(remote, target), None)
  }

  /** The inductive invariant at the head of the loop. */
  predicate Sane(w: Window) {
    && 8 <= w.remote <= MAX_WINDOW
    && INIT_WINDOW <= w.target <= MAX_WINDOW
    && (w.remote == 8 ==> w.target <= 22)
    && (w.remote == 9 ==> w.target <= 158)
  }

  /** Every round keeps the invariant, grants exactly what it adds, and the quantum fits a u16. */
  lemma SettleKeepsSane(w: Window, raw: nat)
    requires Sane(w)
    ensures var r := Settle(w, raw);
      && Sane(r.window)
      && (r.more.None? ==> r.window.remote == w.remote - 1)
      && (r.more.Some? ==>
            && 1 <= r.more.value < 0x1_0000
            && r.window.remote == w.remote - 1 + r.more.value)
  {
  }

  /**
   When a round grants: exactly when the window can be raised to the new target by at least a
   tenth of the old target, and by at least one; it is then raised to the new target.
   */
  lemma SettleGrants(w: Window, raw: nat)
    requires Sane(w)
    ensures var r := Settle(w, raw);
            var target := if raw < 10 then 10 else if raw > 1500 then 1500 else raw;
            && r.window.target == target
            && (r.more.Some? <==> target - (w.remote - 1) >= 1 && target - (w.remote - 1) >= w.target / 10)
            && (r.more.Some? ==> r.window.remote == target)
  {
  }

  /** The window after a whole run, or `None` if some round would underflow `remote_window`. */
  function Run(raws: seq<nat>): Option<Window> {
    if raws == [] then
      Some(START)
    else
      match Run(raws[..|raws| - 1])
      case None => None
      case Some(w) => if w.remote == 0 then None else Some(Settle(w, raws[|raws| - 1]).window)
  }

  /** No run underflows, and at every loop head at least eight credits are outstanding. */
  lemma {:induction false} WindowNeverStarves(raws: seq<nat>)
    ensures Run(raws).Some? && Sane(Run(raws).value)
    ensures 8 <= Run(raws).value.remote <= MAX_WINDOW
  {
    if raws != [] {
      WindowNeverStarves(raws[..|raws| - 1]);
      SettleKeepsSane(Run(raws[..|raws| - 1]).value, raws[|raws| - 1]);
    }
  }

  /** The bound is exact: two rounds with shrinking targets bring the window down to eight. */
  lemma EightIsReached()
    ensures Run([158, 22]) == Some(Window(8, 22))
  {
    assert [158, 22][..1] == [158];
    assert [158][..0] == [];
    assert Run([158]) == Some(Window(9, 158));
  }

  /** At eight the next round always refills, whatever the new target is. */
  lemma EightAlwaysRefills(w: Window, raw: nat)
    requires Sane(w) && w.remote == 8
    ensures Settle(w, raw).more.Some?
    ensures Settle(w, raw).window.remote == Clamp(raw, INIT_WINDOW, MAX_WINDOW)
  {
  }
}
