/** The camera of `apps/client/src/frontend_scene.rs`, over reals. */
module Scene {
  import opened Basics

  datatype Stop = Intro | Login | Channel | Character

  function StopY(stop: Stop): real {
    match stop
    case Intro => 0.0
    case Login => 1227.0
    case Channel => 2453.0
    case Character => 3680.0
  }

  datatype Transition = Transition(sourceY: real, destinationY: real, elapsed: real, duration: real)

  datatype Camera = Camera(cameraY: real, target: Stop, transition: Option<Transition>)

  const START := Camera(0.0, Intro, None)

  function RequestStop(c: Camera, stop: Stop): Camera {
    if stop == c.target then c
    else Camera(c.cameraY, stop, Some(Transition(c.cameraY, StopY(stop), 0.0, 1.0)))
  }

  predicate IsAt(c: Camera, stop: Stop) { c.target == stop && c.transition.None? }

  /** The smooth step 3t^2 - 2t^3. */
  function Ease(t: real): real { t * t * (3.0 - 2.0 * t) }

  function MinReal(a: real, b: real): real { if a < b then a else b }

  function AdvanceCamera(c: Camera, dt: real): Camera {
    if dt <= 0.0 || c.transition.None? then c
    else
      var tr := c.transition.value;
      var elapsed := MinReal(tr.elapsed + dt, tr.duration);
      if elapsed == tr.duration then c.(cameraY := tr.destinationY, transition := None)
      else
        var t := if tr.duration == 0.0 then 0.0 else elapsed / tr.duration;
        c.(cameraY := tr.sourceY + (tr.destinationY - tr.sourceY) * Ease(t),
          transition := Some(tr.(elapsed := elapsed)))
  }

  class FrontendScene {
    var cameraY: real
    var target: Stop
    var transition: Option<Transition>

    function Value(): Camera
      reads this
    {
      Camera(cameraY, target, transition)
    }

    constructor ()
      ensures Value() == START
    {
      cameraY, target, transition := 0.0, Intro, None;
    }

    method Request(stop: Stop)
      modifies this
      ensures Value() == RequestStop(old(Value()), stop)
    {
      if stop == target { return; }
      target := stop;
      transition := Some(Transition(cameraY, StopY(stop), 0.0, 1.0));
    }

    method Advance(dt: real)
      requires transition.Some? ==> transition.value.duration > 0.0
      modifies this
      ensures Value() == AdvanceCamera(old(Value()), dt)
    {
      if dt <= 0.0 || transition.None? { return; }
      var tr := transition.value;
      var elapsed := MinReal(tr.elapsed + dt, tr.duration);
      var t := elapsed / tr.duration;
      transition := Some(tr.(elapsed := elapsed));
      cameraY := tr.sourceY + (tr.destinationY - tr.sourceY) * Ease(t);
      if elapsed == tr.duration {
        cameraY := tr.destinationY;
        transition := None;
      }
    }
  }

  // What every reachable camera satisfies.

  /** A moving camera is part of the way to its target's stop; a resting one is exactly there. */
  ghost predicate Coherent(c: Camera) {
    if c.transition.None? then c.cameraY == StopY(c.target) else OnTheWay(c.transition.value, c)
  }

  ghost predicate OnTheWay(tr: Transition, c: Camera) {
    && tr.duration == 1.0 && 0.0 <= tr.elapsed < 1.0
    && tr.destinationY == StopY(c.target)
    && c.cameraY == tr.sourceY + (tr.destinationY - tr.sourceY) * Ease(tr.elapsed)
    && 0.0 <= tr.sourceY <= 3680.0
  }

  predicate Between(a: real, x: real, b: real) { a <= x <= b || b <= x <= a }

  lemma RealProduct(a: real, b: real)
    requires a >= 0.0 && b >= 0.0
    ensures a * b >= 0.0
  {
  }

  /** The easing is monotone on the unit interval and stays inside it. */
  lemma EaseMonotone(t: real, u: real)
    requires 0.0 <= t <= u <= 1.0
    ensures 0.0 <= Ease(t) <= Ease(u) <= 1.0
  {
    EaseStep(t, u);
    EaseStep(0.0, t);
    EaseStep(u, 1.0);
  }

  lemma EaseStep(t: real, u: real)
    requires 0.0 <= t <= u <= 1.0
    ensures Ease(t) <= Ease(u)
  {
    var d := u - t;
    var q := 3.0 * (u + t) - 2.0 * (u * u + u * t + t * t);
    assert Ease(u) - Ease(t) == d * q by {
      assert Ease(u) == 3.0 * (u * u) - 2.0 * (u * u * u);
      assert Ease(t) == 3.0 * (t * t) - 2.0 * (t * t * t);
      assert d * q == 3.0 * (d * (u + t)) - 2.0 * (d * (u * u + u * t + t * t));
      assert d * (u + t) == u * u - t * t;
      assert d * (u * u + u * t + t * t) == u * u * u - t * t * t;
    }
    RealProduct(u, 1.0 - u);
    RealProduct(t, 1.0 - t);
    RealProduct(u, 1.0 - t);
    RealProduct(t, 1.0 - u);
    assert q == 2.0 * (u * (1.0 - u)) + 2.0 * (t * (1.0 - t)) + u * (1.0 - t) + t * (1.0 - u);
    RealProduct(d, q);
  }

  /** Scaling by a fraction: a camera at fraction `e` of the way lies between the two ends. */
  lemma FractionBetween(a: real, b: real, e: real)
    requires 0.0 <= e <= 1.0
    ensures Between(a, a + (b - a) * e, b)
  {
    if a <= b {
      RealProduct(b - a, e);
      RealProduct(b - a, 1.0 - e);
      assert (b - a) * (1.0 - e) == (b - a) - (b - a) * e;
    } else {
      RealProduct(a - b, e);
      RealProduct(a - b, 1.0 - e);
      assert (a - b) * (1.0 - e) == (a - b) - (a - b) * e;
      assert (b - a) * e == -((a - b) * e);
    }
  }

  lemma AtStart(a: real, b: real)
    ensures a == a + (b - a) * Ease(0.0)
  {
    assert Ease(0.0) == 0.0;
  }

  lemma RequestKeepsCoherent(c: Camera, stop: Stop)
    requires Coherent(c)
    ensures Coherent(RequestStop(c, stop)) && RequestStop(c, stop).target == stop
  {
    CameraInRange(c);
    AtStart(c.cameraY, StopY(stop));
  }

  lemma CameraInRange(c: Camera)
    requires Coherent(c)
    ensures 0.0 <= c.cameraY <= 3680.0
  {
    if c.transition.Some? {
      var tr := c.transition.value;
      EaseMonotone(tr.elapsed, tr.elapsed);
      FractionBetween(tr.sourceY, tr.destinationY, Ease(tr.elapsed));
    }
  }

  lemma AdvanceKeepsCoherent(c: Camera, dt: real)
    requires Coherent(c)
    ensures Coherent(AdvanceCamera(c, dt)) && AdvanceCamera(c, dt).target == c.target
  {
    if c.transition.Some? && dt > 0.0 && c.transition.value.elapsed + dt < 1.0 { StillMoving(c, dt); }
  }

  lemma MovingBetween(c: Camera, dt: real, tr: Transition, e: real, f: real)
    requires 0.0 <= e <= f <= 1.0 && tr.destinationY == StopY(c.target)
    requires c.cameraY == tr.sourceY + (tr.destinationY - tr.sourceY) * e
    requires AdvanceCamera(c, dt).cameraY == tr.sourceY + (tr.destinationY - tr.sourceY) * f
    ensures Between(c.cameraY, AdvanceCamera(c, dt).cameraY, StopY(c.target))
    ensures Between(tr.sourceY, AdvanceCamera(c, dt).cameraY, StopY(c.target))
  {
    MovesTowards(tr.sourceY, tr.destinationY, e, f);
  }

  /**
   One tick moves the camera, if at all, towards the destination and never past it; it stays on the way
   between where the travel began and the destination.
   */
  lemma AdvanceTowards(c: Camera, dt: real)
    requires Coherent(c)
    ensures Between(c.cameraY, AdvanceCamera(c, dt).cameraY, StopY(c.target))
    ensures c.transition.Some? ==>
      Between(c.transition.value.sourceY, AdvanceCamera(c, dt).cameraY, StopY(c.target))
  {
    if c.transition.Some? {
      var tr := c.transition.value;
      Rests(c);
      if dt > 0.0 && tr.elapsed + dt < 1.0 {
        StillMoving(c, dt);
        EaseMonotone(tr.elapsed, tr.elapsed + dt);
        MovingBetween(c, dt, tr, Ease(tr.elapsed), Ease(tr.elapsed + dt));
      }
    }
  }

  lemma StillMoving(c: Camera, dt: real)
    requires Coherent(c) && c.transition.Some? && dt > 0.0 && c.transition.value.elapsed + dt < 1.0
    ensures var tr := c.transition.value;
      AdvanceCamera(c, dt) == Camera(tr.sourceY + (tr.destinationY - tr.sourceY) * Ease(tr.elapsed + dt), c.target,
                                     Some(tr.(elapsed := tr.elapsed + dt)))
  {
    var tr := c.transition.value;
    assert (tr.elapsed + dt) / tr.duration == tr.elapsed + dt;
  }

  lemma Rests(c: Camera)
    requires Coherent(c) && c.transition.Some?
    ensures Between(c.transition.value.sourceY, c.cameraY, StopY(c.target))
  {
    var tr := c.transition.value;
    EaseMonotone(tr.elapsed, tr.elapsed);
    FractionBetween(tr.sourceY, tr.destinationY, Ease(tr.elapsed));
  }

  lemma MovesTowards(a: real, b: real, e: real, f: real)
    requires 0.0 <= e <= f <= 1.0
    ensures Between(a, a + (b - a) * f, b)
    ensures Between(a + (b - a) * e, a + (b - a) * f, b)
  {
    FractionBetween(a, b, f);
    if a <= b {
      RealProduct(b - a, f - e);
      assert (b - a) * (f - e) == (b - a) * f - (b - a) * e;
    } else {
      RealProduct(a - b, f - e);
      assert (a - b) * (f - e) == (b - a) * e - (b - a) * f;
    }
  }

  function AdvanceAll(c: Camera, ticks: seq<real>): Camera
    decreases |ticks|
  {
    if ticks == [] then c else AdvanceAll(AdvanceCamera(c, ticks[0]), ticks[1..])
  }

  function Total(ticks: seq<real>): real {
    if ticks == [] then 0.0 else ticks[0] + Total(ticks[1..])
  }

  /** Whatever the tick lengths, the camera arrives exactly when one second has passed since the request. */
  lemma {:induction false} ArrivesAfterOneSecond(c: Camera, ticks: seq<real>)
    requires Coherent(c) && c.transition.Some? && forall i :: 0 <= i < |ticks| ==> ticks[i] > 0.0
    ensures var e := AdvanceAll(c, ticks);
      && Coherent(e) && e.target == c.target
      && (IsAt(e, c.target) <==> c.transition.value.elapsed + Total(ticks) >= 1.0)
      && (IsAt(e, c.target) ==> e.cameraY == StopY(c.target))
      && (e.transition.Some? ==> e.transition.value.elapsed == c.transition.value.elapsed + Total(ticks))
    decreases |ticks|
  {
    if ticks != [] {
      AdvanceKeepsCoherent(c, ticks[0]);
      var next := AdvanceCamera(c, ticks[0]);
      if next.transition.Some? {
        ArrivesAfterOneSecond(next, ticks[1..]);
      } else {
        RestingStays(next, ticks[1..]);
        TotalNonnegative(ticks[1..]);
      }
    }
  }

  lemma {:induction false} RestingStays(c: Camera, ticks: seq<real>)
    requires c.transition.None?
    ensures AdvanceAll(c, ticks) == c
  {
    if ticks != [] { RestingStays(c, ticks[1..]); }
  }

  lemma {:induction false} TotalNonnegative(ticks: seq<real>)
    requires forall i :: 0 <= i < |ticks| ==> ticks[i] > 0.0
    ensures Total(ticks) >= 0.0
  {
    if ticks != [] { TotalNonnegative(ticks[1..]); }
  }
}
