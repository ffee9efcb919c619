/** Rate limiting and numeric helpers of the viewer (src/utils/performance.ts).
    Time is an explicit argument in milliseconds, where the source reads
    `performance.now()` or relies on `setTimeout`. */
module Performance {
  import opened Wrappers

  // ---------------------------------------------------------------------
  // clamp and lerp
  // ---------------------------------------------------------------------

  /** `Math.min(Math.max(value, min), max)`. */
  function Clamp(value: real, lo: real, hi: real): (r: real)
    ensures lo <= hi ==> lo <= r <= hi
    ensures lo <= value <= hi ==> r == value
    ensures lo > hi ==> r == hi
    ensures r == value || r == lo || r == hi
  {
    var atLeastLo := if value < lo then lo else value;
    if hi < atLeastLo then hi else atLeastLo
  }

  /** Clamping twice is clamping once, even for an empty range. */
  lemma ClampIdempotent(value: real, lo: real, hi: real)
    ensures Clamp(Clamp(value, lo, hi), lo, hi) == Clamp(value, lo, hi)
  {
  }

  /** Clamping never reverses the order of two values. */
  lemma ClampMonotone(v: real, w: real, lo: real, hi: real)
    requires v <= w
    ensures Clamp(v, lo, hi) <= Clamp(w, lo, hi)
  {
  }

  /** `start + (end - start) * t`. */
  function Lerp(start: real, end: real, t: real): (r: real)
    ensures t == 0.0 ==> r == start
    ensures t == 1.0 ==> r == end
  {
    start + (end - start) * t
  }

  /** For `t` in [0, 1] the interpolated value lies between the end points. */
  lemma LerpBetween(start: real, end: real, t: real)
    requires 0.0 <= t <= 1.0
    ensures start <= end ==> start <= Lerp(start, end, t) <= end
    ensures end <= start ==> end <= Lerp(start, end, t) <= start
  {
    var d := end - start;
    assert Lerp(start, end, t) == start + d * t;
    if start <= end {
      assert 0.0 <= d * t <= d;
    } else {
      assert d <= d * t <= 0.0;
    }
  }

  /** JavaScript's `Math.round`: the nearest integer, halves rounded up. */
  function Round(x: real): (n: int)
    ensures n as real - 0.5 <= x < n as real + 0.5
  {
    (x + 0.5).Floor
  }

  // ---------------------------------------------------------------------
  // throttle
  // ---------------------------------------------------------------------

  /** The state a throttled wrapper closes over: the `inThrottle` flag and
      the time at which the pending `setTimeout(..., limit)` clears it. */
  datatype Gate = Gate(inThrottle: bool, releaseAt: real)

  /** A wrapper that has never been called: `inThrottle` is `undefined`. */
  const FreshGate := Gate(false, 0.0)

  /** One call of the throttled wrapper at time `now`. The release timer of
      the last accepted call fires first when its time has come; then the
      wrapped function runs if and only if the gate is open, closing it for
      `limit` milliseconds. The boolean says whether it ran. */
  function GateStep(g: Gate, limit: real, now: real): (r: (Gate, bool))
    ensures r.1 <==> !g.inThrottle || g.releaseAt <= now
    ensures r.1 ==> r.0 == Gate(true, now + limit)
    ensures !r.1 ==> r.0 == g
  {
    if !g.inThrottle || g.releaseAt <= now then (Gate(true, now + limit), true)
    else (g, false)
  }

  /** The times, among `times`, at which the wrapped function runs when the
      wrapper starts in state `g` and is called at each of `times` in turn. */
  function Accepted(g: Gate, limit: real, times: seq<real>): (acc: seq<real>)
    ensures |acc| <= |times|
    ensures forall t :: t in acc ==> t in times
    decreases |times|
  {
    if times == [] then []
    else
      var (g', ran) := GateStep(g, limit, times[0]);
      (if ran then [times[0]] else []) + Accepted(g', limit, times[1..])
  }

  /** Consecutive elements of `acc` are `limit` or more apart. */
  ghost predicate AtLeastApart(acc: seq<real>, limit: real) {
    forall i :: 0 <= i < |acc| - 1 ==> acc[i] + limit <= acc[i + 1]
  }

  /** While the gate is closed, every accepted call comes at or after the
      release time; and any two consecutive accepted calls are `limit` or
      more apart. */
  lemma {:induction false} AcceptedSpaced(g: Gate, limit: real, times: seq<real>)
    requires limit > 0.0
    ensures g.inThrottle ==> forall t :: t in Accepted(g, limit, times) ==> g.releaseAt <= t
    ensures AtLeastApart(Accepted(g, limit, times), limit)
    decreases |times|
  {
    if times != [] {
      var (g', ran) := GateStep(g, limit, times[0]);
      AcceptedSpaced(g', limit, times[1..]);
      var rest := Accepted(g', limit, times[1..]);
      var acc := Accepted(g, limit, times);
      if ran {
        assert acc == [times[0]] + rest;
        forall i | 0 <= i < |acc| - 1
          ensures acc[i] + limit <= acc[i + 1]
        {
          if i == 0 {
            assert acc[1] == rest[0] && rest[0] in rest;
          } else {
            assert acc[i] == rest[i - 1] && acc[i + 1] == rest[i];
          }
        }
      } else {
        assert acc == rest;
      }
    }
  }

  /** While the gate stays closed for every one of `times`, nothing runs. */
  lemma {:induction false} NoneAcceptedWhileClosed(g: Gate, limit: real, times: seq<real>)
    requires g.inThrottle
    requires forall i :: 0 <= i < |times| ==> times[i] < g.releaseAt
    ensures Accepted(g, limit, times) == []
    decreases |times|
  {
    if times != [] {
      NoneAcceptedWhileClosed(g, limit, times[1..]);
    }
  }

  /** Calls that all lie within less than `limit` of one another run the
      wrapped function at most once, whatever the state of the gate. */
  lemma {:induction false} AtMostOncePerWindow(g: Gate, limit: real, times: seq<real>)
    requires forall i, j :: 0 <= i < |times| && 0 <= j < |times| ==> times[j] - times[i] < limit
    ensures |Accepted(g, limit, times)| <= 1
    decreases |times|
  {
    if times != [] {
      var (g', ran) := GateStep(g, limit, times[0]);
      if ran {
        NoneAcceptedWhileClosed(g', limit, times[1..]);
      } else {
        AtMostOncePerWindow(g', limit, times[1..]);
      }
    }
  }

  /** The first call always runs the wrapped function. */
  lemma FirstCallRuns(limit: real, times: seq<real>)
    requires times != []
    ensures Accepted(FreshGate, limit, times) != []
    ensures Accepted(FreshGate, limit, times)[0] == times[0]
  {
  }

  /** A throttled wrapper: `throttle(func, limit)` with time made explicit.
      `lastRun` is the public view: when the wrapped function last ran. */
  class Throttle {
    const limit: real
    var inThrottle: bool
    var releaseAt: real
    ghost var lastRun: Option<real>

    ghost predicate Valid()
      reads this
    {
      && limit > 0.0
      && (inThrottle <==> lastRun.Some?)
      && (lastRun.Some? ==> releaseAt == lastRun.value + limit)
    }

    function State(): Gate
      reads this
    {
      Gate(inThrottle, releaseAt)
    }

    constructor (limit: real)
      requires limit > 0.0
      ensures Valid() && this.limit == limit
      ensures State() == FreshGate && lastRun == None
    {
      this.limit := limit;
      inThrottle := false;
      releaseAt := 0.0;
      lastRun := None;
    }

    /** Calls the throttled wrapper at time `now`; `ran` says whether the
        wrapped function was invoked. */
    method Call(now: real) returns (ran: bool)
      requires Valid()
      modifies this
      ensures Valid()
      ensures (State(), ran) == GateStep(old(State()), limit, now)
      ensures ran <==> old(lastRun).None? || old(lastRun).value + limit <= now
      ensures ran ==> lastRun == Some(now)
      ensures !ran ==> State() == old(State()) && lastRun == old(lastRun)
    {
      if inThrottle && releaseAt <= now {
        inThrottle := false;      // the pending setTimeout callback has fired
      }
      ran := false;
      if !inThrottle {
        ran := true;              // func.apply(this, args)
        inThrottle := true;
        releaseAt := now + limit;
        lastRun := Some(now);
      }
    }
  }

  // ---------------------------------------------------------------------
  // FPSMonitor
  // ---------------------------------------------------------------------

  /** The frame rate reported for `frames` frames over `delta` milliseconds
      never exceeds the number of frames when the window is a second or
      longer, and is never negative. */
  lemma RateBound(frames: nat, delta: real)
    requires delta >= 1000.0
    ensures 0 <= Round(frames as real * 1000.0 / delta) <= frames
  {
    var rate := frames as real * 1000.0 / delta;
    assert rate * delta == frames as real * 1000.0;
    assert 0.0 <= rate;
    assert rate * 1000.0 <= rate * delta;
    assert rate <= frames as real;
  }

  /** `FPSMonitor`: counts frames and recomputes the rate once at least a
      second has passed since the last recomputation. */
  class FpsMonitor {
    var frames: nat
    var lastTime: real
    var fps: int

    ghost predicate Valid()
      reads this
    {
      0 <= fps
    }

    /** `now` is the value `performance.now()` has at construction. */
    constructor (now: real)
      ensures Valid() && frames == 0 && lastTime == now && fps == 0
    {
      frames := 0;
      lastTime := now;
      fps := 0;
    }

    method Update(now: real) returns (r: int)
      requires Valid()
      modifies this
      ensures Valid() && r == fps
      ensures now - old(lastTime) >= 1000.0 ==>
        && fps == Round((old(frames) + 1) as real * 1000.0 / (now - old(lastTime)))
        && fps <= old(frames) + 1
        && frames == 0 && lastTime == now
      ensures now - old(lastTime) < 1000.0 ==>
        fps == old(fps) && frames == old(frames) + 1 && lastTime == old(lastTime)
    {
      frames := frames + 1;
      var delta := now - lastTime;
      if delta >= 1000.0 {
        RateBound(frames, delta);
        fps := Round(frames as real * 1000.0 / delta);
        frames := 0;
        lastTime := now;
      }
      r := fps;
    }

    method GetFps() returns (r: int)
      requires Valid()
      ensures r == fps && 0 <= r
    {
      r := fps;
    }
  }
}
