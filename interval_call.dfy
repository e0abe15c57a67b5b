/**
 * The rate limiter of main/utils/IntervalCall.hpp.
 *
 * poll() reads the steady clock; here the reading is the argument `now`, and the
 * readings are required never to go backwards.  Times and the interval are counts
 * of clock ticks.  The last firing time starts at the clock's epoch, 0.  Whether a
 * callback is installed is the flag `hasCallback`; the callback's own effect is
 * carried out by the caller when poll() reports that it fired.
 */
module Interval {

  /** Consecutive times are more than d apart. */
  ghost predicate Spaced(ts: seq<int>, d: int) {
    forall i :: 0 <= i < |ts| - 1 ==> ts[i + 1] - ts[i] > d
  }

  /** With a non-negative interval, any two firings are more than the interval apart. */
  lemma {:induction false} SpacedApart(ts: seq<int>, d: int, i: nat, j: nat)
    requires Spaced(ts, d) && d >= 0 && i < j < |ts|
    ensures ts[j] - ts[i] > d
    decreases j - i
  {
    if i + 1 < j {
      SpacedApart(ts, d, i + 1, j);
      assert ts[i + 1] - ts[i] > d;
    }
  }

  /** A window of length d holds at most one firing. */
  lemma OneFiringPerWindow(ts: seq<int>, d: int, t: int)
    requires Spaced(ts, d) && d >= 0
    ensures forall i, j :: 0 <= i < j < |ts| ==> !(t <= ts[i] && ts[j] <= t + d)
  {
    forall i, j | 0 <= i < j < |ts|
      ensures !(t <= ts[i] && ts[j] <= t + d)
    {
      SpacedApart(ts, d, i, j);
    }
  }

  /** Appending a time more than d after the last one keeps the times spaced. */
  lemma SpacedSnoc(ts: seq<int>, d: int, t: int)
    requires Spaced(ts, d) && |ts| > 0 && t - ts[|ts| - 1] > d
    ensures Spaced(ts + [t], d)
  {
    var ts' := ts + [t];
    forall i | 0 <= i < |ts'| - 1
      ensures ts'[i + 1] - ts'[i] > d
    {
      if i + 1 < |ts| {
        assert ts'[i + 1] == ts[i + 1] && ts'[i] == ts[i];
      }
    }
  }

  class IntervalCall {
    const interval: int
    const hasCallback: bool
    /** When poll() last fired. */
    var lastTime: int
    /** The latest clock reading poll() was given. */
    ghost var clock: int
    /** The readings at which poll() fired, in order. */
    ghost var fired: seq<int>
    /** How often the callback has run. */
    ghost var callbackRuns: nat

    ghost predicate Valid()
      reads this
    {
      && lastTime == ([0] + fired)[|fired|]
      && Spaced([0] + fired, interval)
      && lastTime <= clock
      && callbackRuns == if hasCallback then |fired| else 0
    }

    constructor (interval: int, hasCallback: bool := false)
      ensures Valid() && this.interval == interval && this.hasCallback == hasCallback
      ensures lastTime == 0 && clock == 0 && fired == [] && callbackRuns == 0
    {
      this.interval := interval;
      this.hasCallback := hasCallback;
      lastTime := 0;
      clock := 0;
      fired := [];
      callbackRuns := 0;
    }

    /**
     * Fires, and runs the callback once if there is one, exactly when more than
     * `interval` has passed since the last firing; reports whether it fired.
     */
    method Poll(now: int) returns (didFire: bool)
      requires Valid() && clock <= now
      modifies this
      ensures Valid() && clock == now
      ensures didFire <==> now - old(lastTime) > interval
      ensures lastTime == if didFire then now else old(lastTime)
      ensures fired == old(fired) + if didFire then [now] else []
      ensures callbackRuns == old(callbackRuns) + if didFire && hasCallback then 1 else 0
    {
      clock := now;
      if now - lastTime > interval {
        SpacedSnoc([0] + fired, interval, now);
        assert [0] + (fired + [now]) == [0] + fired + [now];
        lastTime := now;
        fired := fired + [now];
        if hasCallback {
          callbackRuns := callbackRuns + 1;
        }
        return true;
      }
      return false;
    }
  }
}
