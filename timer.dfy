/**
  `Timer`: a tick counter that hands its count to a callback once `duration`
  has elapsed, then starts over. The clock is a parameter `now` in
  milliseconds; the callback is replaced by the value it would receive.
*/
module Timer {
  import opened Common

  /** The timer's fields other than the callback: `tick`, `elapsed` (a time in ms) and `duration` (ms). */
  datatype Clock = Clock(tick: nat, elapsed: nat, duration: nat)

  /** `now.duration_since(earlier)`: saturates at zero when `earlier` is later. */
  function Since(now: nat, earlier: nat): (t: nat)
    ensures now >= earlier ==> t + earlier == now
    ensures now < earlier ==> t == 0
  {
    if now >= earlier then now - earlier else 0
  }

  /** What the callback received: zero when it did not fire. */
  function Reported(o: Option<nat>): nat
  {
    if o.Some? then o.value else 0
  }

  /**
    One `tick()`: the new fields and the callback's argument. It fires exactly
    when `duration` has elapsed since `elapsed`, with the incremented count,
    which is then reset with `elapsed := now`; otherwise the count goes up by
    one and `elapsed` stays. No tick is lost: the count after plus what was
    reported is the count before plus one. `duration` never changes.
  */
  function Step(c: Clock, now: nat): (r: (Clock, Option<nat>))
    ensures r.0.duration == c.duration
    ensures r.1.Some? <==> Since(now, c.elapsed) >= c.duration
    ensures r.0.tick + Reported(r.1) == c.tick + 1
    ensures r.1.Some? ==> r.1.value >= 1 && r.0.tick == 0 && r.0.elapsed == now
    ensures r.1.None? ==> r.0.elapsed == c.elapsed
  {
    var tick := c.tick + 1;
    if Since(now, c.elapsed) >= c.duration then (Clock(0, now, c.duration), Some(tick))
    else (Clock(tick, c.elapsed, c.duration), None)
  }

  /** Successive `tick()` calls at the times `nows`: the final fields and one callback argument (or none) per call. */
  function Run(c: Clock, nows: seq<nat>): (r: (Clock, seq<Option<nat>>))
    ensures |r.1| == |nows|
  {
    if nows == [] then (c, [])
    else
      var (before, outs) := Run(c, nows[..|nows| - 1]);
      var (after, out) := Step(before, nows[|nows| - 1]);
      (after, outs + [out])
  }

  /** The calls since the last firing, or, when none fired, since the start (whose count was `start`). */
  function SinceFire(start: nat, outs: seq<Option<nat>>): nat
  {
    if outs == [] then start
    else if outs[|outs| - 1].Some? then 0
    else SinceFire(start, outs[..|outs| - 1]) + 1
  }

  /** The sum of everything the callback received. */
  function Total(outs: seq<Option<nat>>): nat
  {
    if outs == [] then 0 else Total(outs[..|outs| - 1]) + Reported(outs[|outs| - 1])
  }

  /**
    Over any run the count equals the calls since the last firing, and each
    firing reports the calls since the previous one (plus the start count when
    it is the first), so at least 1; `duration` never changes.
  */
  lemma {:induction false} RunCountsCalls(c: Clock, nows: seq<nat>)
    ensures Run(c, nows).0.duration == c.duration
    ensures Run(c, nows).0.tick == SinceFire(c.tick, Run(c, nows).1)
    ensures forall i :: 0 <= i < |nows| && Run(c, nows).1[i].Some? ==>
      Run(c, nows).1[i].value == SinceFire(c.tick, Run(c, nows).1[..i]) + 1
  {
    if nows != [] {
      var prefix := nows[..|nows| - 1];
      RunCountsCalls(c, prefix);
      var (before, outs) := Run(c, prefix);
      var all := Run(c, nows).1;
      assert all == outs + [Step(before, nows[|nows| - 1]).1];
      assert all[..|outs|] == outs;
      forall i | 0 <= i < |outs|
        ensures all[..i] == outs[..i]
      {
      }
    }
  }

  /** No call is lost: what was reported plus the final count is the start count plus the number of calls. */
  lemma {:induction false} RunConservesTicks(c: Clock, nows: seq<nat>)
    ensures Total(Run(c, nows).1) + Run(c, nows).0.tick == c.tick + |nows|
  {
    if nows != [] {
      var prefix := nows[..|nows| - 1];
      RunConservesTicks(c, prefix);
      var (before, outs) := Run(c, prefix);
      var all := Run(c, nows).1;
      assert all[..|all| - 1] == outs;
    }
  }

  /** The `Timer` object; `callback` is left out, `tick()` returns its argument instead. */
  class Timer {
    var tick: nat
    var elapsed: nat
    var duration: nat

    function State(): Clock
      reads this
    {
      Clock(tick, elapsed, duration)
    }

    /** `Timer::new`: count zero, the clock started now. */
    constructor (durationMilliSeconds: nat, now: nat)
      ensures State() == Clock(0, now, durationMilliSeconds)
    {
      tick := 0;
      elapsed := now;
      duration := durationMilliSeconds;
    }

    /** `tick()`, with `Instant::now()` read as `now`. */
    method Tick(now: nat) returns (fired: Option<nat>)
      modifies this
      ensures (State(), fired) == Step(old(State()), now)
    {
      tick := tick + 1;
      if Since(now, elapsed) >= duration {
        fired := Some(tick);
        tick := 0;
        elapsed := now;
      } else {
        fired := None;
      }
    }
  }
}
