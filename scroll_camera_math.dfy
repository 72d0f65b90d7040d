/**
 * The pure part of the scroll-driven camera hook (src/hooks/useScrollCamera.js):
 * the size-derived framing distance, the framing-distance choice, the
 * scroll-to-section rule, the cubic ease-in-out, the look-at parameter, the two
 * path builders and the one-call step of the two `animate` closures.
 *
 * Positions and the curve are exact reals. The host's vector normalisation,
 * distance and Bezier sampling (three.js) are not interpreted here: the
 * controller receives them as functions.
 */
module ScrollCameraMath {
  import opened Wrappers

  datatype Vec3 = Vec3(x: real, y: real, z: real)

  function Sub(a: Vec3, b: Vec3): (r: Vec3) {
    Vec3(a.x - b.x, a.y - b.y, a.z - b.z)
  }

  /** A cubic Bezier curve given by its start, two control points and end. */
  datatype Bezier = Bezier(p0: Vec3, p1: Vec3, p2: Vec3, p3: Vec3)

  /** Where the camera stands and the point it is turned towards. */
  datatype Pose = Pose(position: Vec3, lookAt: Vec3)

  /**
   * What the hook reads from one entry of the section table. An absent or zero
   * `viewOffset` is falsy in JavaScript; `mobileViewOffset` is never read.
   */
  datatype Section = Section(position: Vec3, size: real, viewOffset: Option<real>, mobileViewOffset: Option<real>)

  // ---------------------------------------------------------------------------
  // Framing distance

  /** `getIdealCameraDistance`: `Math.max(20, 30 - size * 2)`. */
  function IdealCameraDistance(size: real): (d: real)
    ensures d >= 20.0
    ensures d == 20.0 <==> size >= 5.0
    ensures size < 5.0 ==> d == 30.0 - 2.0 * size
  {
    if 20.0 >= 30.0 - size * 2.0 then 20.0 else 30.0 - size * 2.0
  }

  /** JavaScript truthiness of an optional number (NaN is not modelled). */
  predicate Truthy(v: Option<real>) {
    v.Some? && v.value != 0.0
  }

  /** `sections[i].viewOffset || getIdealCameraDistance(sections[i].size)`. */
  function FramingDistance(s: Section): (r: real) {
    if Truthy(s.viewOffset) then s.viewOffset.value else IdealCameraDistance(s.size)
  }

  /** The framing distance is the explicit offset when truthy, the size-derived one otherwise, and never depends on the mobile offset. */
  lemma FramingDistanceChoice(s: Section, mobile: Option<real>)
    ensures Truthy(s.viewOffset) ==> FramingDistance(s) == s.viewOffset.value
    ensures !Truthy(s.viewOffset) ==> FramingDistance(s) == IdealCameraDistance(s.size) >= 20.0
    ensures FramingDistance(s.(mobileViewOffset := mobile)) == FramingDistance(s)
  {
  }

  /** The camera pose the mount effect sets for section 0: offset by (-d, +5, +d) and looking at the body. */
  function InitialPose(s: Section): (p: Pose)
    ensures p.lookAt == s.position
    ensures p.position.x == s.position.x - FramingDistance(s)
    ensures p.position.y == s.position.y + 5.0
    ensures p.position.z == s.position.z + FramingDistance(s)
  {
    var d := FramingDistance(s);
    Pose(Vec3(s.position.x - d, s.position.y + 5.0, s.position.z + d), s.position)
  }

  // ---------------------------------------------------------------------------
  // Scroll channel

  /** `Math.min(Math.floor(scrollY / vh), count - 1)`: clamped from above only. */
  function ScrollIndex(scrollY: real, vh: real, count: int): (i: int)
    requires vh > 0.0
    ensures i <= count - 1
    ensures i == (scrollY / vh).Floor || (i == count - 1 && count - 1 <= (scrollY / vh).Floor)
  {
    var section := (scrollY / vh).Floor;
    if section <= count - 1 then section else count - 1
  }

  /** The scroll index is non-negative exactly when the scroll offset is (for a non-empty table). */
  lemma ScrollIndexSign(scrollY: real, vh: real, count: int)
    requires vh > 0.0 && count >= 1
    ensures ScrollIndex(scrollY, vh, count) >= 0 <==> scrollY >= 0.0
  {
    var q := scrollY / vh;
    assert q * vh == scrollY;
    if scrollY >= 0.0 {
      assert q >= 0.0;
    } else {
      assert q < 0.0;
      assert q.Floor < 0;
    }
  }

  /** Whole viewport heights select their section; anything past the last one selects the last one. */
  lemma ScrollIndexSections(k: int, frac: real, vh: real, count: int)
    requires vh > 0.0 && 0.0 <= frac < 1.0
    ensures 0 <= k < count ==> ScrollIndex((k as real + frac) * vh, vh, count) == k
    ensures k >= count - 1 ==> ScrollIndex((k as real + frac) * vh, vh, count) == count - 1
  {
    var y := (k as real + frac) * vh;
    assert y / vh == k as real + frac;
    assert (y / vh).Floor == k;
  }

  // ---------------------------------------------------------------------------
  // Easing and interpolation

  function Cube(x: real): (r: real) {
    x * x * x
  }

  /** `easeInOut`: `4t^3` below one half, `1 - (-2t + 2)^3 / 2` from one half on. */
  function EaseInOut(t: real): (r: real) {
    if t < 0.5 then 4.0 * Cube(t) else 1.0 - Cube(-2.0 * t + 2.0) / 2.0
  }

  lemma CubeMonotone(a: real, b: real)
    requires 0.0 <= a <= b
    ensures 0.0 <= Cube(a) <= Cube(b)
  {
    assert a * a <= a * b <= b * b;
    assert a * a * a <= b * b * a <= b * b * b;
  }

  /** The easing curve passes through 0, 1/2 and 1 and maps [0, 1] into [0, 1]. */
  lemma EaseInOutBounds(t: real)
    ensures EaseInOut(0.0) == 0.0 && EaseInOut(0.5) == 0.5 && EaseInOut(1.0) == 1.0
    ensures 0.0 <= t <= 1.0 ==> 0.0 <= EaseInOut(t) <= 1.0
  {
    if 0.0 <= t < 0.5 {
      CubeMonotone(t, 0.5);
    } else if 0.5 <= t <= 1.0 {
      CubeMonotone(-2.0 * t + 2.0, 1.0);
    }
  }

  /** The easing curve never moves backwards on [0, 1]. */
  lemma EaseInOutMonotone(s: real, t: real)
    requires 0.0 <= s <= t <= 1.0
    ensures EaseInOut(s) <= EaseInOut(t)
  {
    if t < 0.5 {
      CubeMonotone(s, t);
    } else if s >= 0.5 {
      CubeMonotone(-2.0 * t + 2.0, -2.0 * s + 2.0);
    } else {
      CubeMonotone(s, 0.5);
      CubeMonotone(-2.0 * t + 2.0, 1.0);
    }
  }

  /** The easing curve is point-symmetric about (1/2, 1/2). */
  lemma EaseInOutSymmetric(t: real)
    ensures EaseInOut(1.0 - t) == 1.0 - EaseInOut(t)
  {
    if t < 0.5 {
      assert -2.0 * (1.0 - t) + 2.0 == 2.0 * t;
      assert Cube(2.0 * t) == 8.0 * Cube(t);
    } else if t > 0.5 {
      assert -2.0 * t + 2.0 == 2.0 * (1.0 - t);
      assert Cube(2.0 * (1.0 - t)) == 8.0 * Cube(1.0 - t);
    }
  }

  /** `THREE.MathUtils.lerp` on each coordinate: `(1 - t) * a + t * b`. */
  function Lerp(a: Vec3, b: Vec3, t: real): (r: Vec3)
    ensures t == 0.0 ==> r == a
    ensures t == 1.0 ==> r == b
  {
    Vec3((1.0 - t) * a.x + t * b.x, (1.0 - t) * a.y + t * b.y, (1.0 - t) * a.z + t * b.z)
  }

  /** The fixed per-call increment of `progress`. */
  const ProgressStep: real := 0.008

  /** `progress` after `frame` calls of an `animate` closure, in exact arithmetic. */
  function Progress(frame: int): (r: real) {
    frame as real * ProgressStep
  }

  /** A call writes a curve point exactly while the frame count is at most 125. */
  lemma ProgressWithinCurve(frame: int)
    ensures Progress(frame) <= 1.0 <==> frame <= 125
  {
  }

  /** `Math.min(progress * 1.2, 1)`: the look-at parameter of the section animation. */
  function LookAtParameter(progress: real): (p: real)
    ensures p <= 1.0
  {
    if progress * 1.2 <= 1.0 then progress * 1.2 else 1.0
  }

  /** For non-negative progress the look-at parameter lies in [0, 1] and reaches 1 exactly from progress 5/6 on. */
  lemma LookAtParameterRange(progress: real)
    requires progress >= 0.0
    ensures 0.0 <= LookAtParameter(progress) <= 1.0
    ensures LookAtParameter(progress) == 1.0 <==> progress >= 5.0 / 6.0
  {
  }

  // ---------------------------------------------------------------------------
  // Path builders

  /** The settle position written by the section animation's last call. */
  function SettlePoint(target: Vec3, direction: Vec3, cameraDistance: real): (r: Vec3) {
    Vec3(target.x - direction.x * cameraDistance, target.y, target.z - direction.z * cameraDistance)
  }

  /**
   * The curve `animateToSection` builds from the live camera position: control
   * points a quarter of the distance along the direction from each end, raised 15
   * units, and an end point standing off the target by the framing distance.
   */
  function SectionPath(start: Vec3, target: Vec3, direction: Vec3, distance: real, cameraDistance: real): (c: Bezier)
    ensures c.p0 == start
    ensures c.p1.y == start.y + 15.0 && c.p2.y == target.y + 15.0
    ensures c.p1.x - start.x == -(c.p2.x - target.x) && c.p1.z - start.z == -(c.p2.z - target.z)
    ensures c.p3 == SettlePoint(target, direction, cameraDistance)
    ensures c.p3.y == target.y
    ensures Sub(target, c.p3) == Vec3(direction.x * cameraDistance, 0.0, direction.z * cameraDistance)
  {
    var end := Vec3(target.x - direction.x * cameraDistance, target.y, target.z - direction.z * cameraDistance);
    assert end == SettlePoint(target, direction, cameraDistance);
    Bezier(
      start,
      Vec3(start.x + direction.x * distance * 0.25, start.y + 15.0, start.z + direction.z * distance * 0.25),
      Vec3(target.x + -direction.x * distance * 0.25, target.y + 15.0, target.z + -direction.z * distance * 0.25),
      end)
  }

  /**
   * The curve the direct-navigation handler builds: both control points at 300
   * units above the higher of the two bodies, the second one straight above the
   * target, and an end point offset by the framing distance in x and in z.
   */
  function DirectPath(start: Vec3, from: Vec3, target: Vec3, targetDistance: real): (c: Bezier)
    ensures c.p0 == start
    ensures c.p1.y == c.p2.y
    ensures c.p1.y >= from.y + 300.0 && c.p1.y >= target.y + 300.0
    ensures c.p1.y == from.y + 300.0 || c.p1.y == target.y + 300.0
    ensures c.p2.x == target.x && c.p2.z == target.z
    ensures c.p3 == Vec3(target.x - targetDistance, target.y, target.z - targetDistance)
  {
    var midY := (if from.y >= target.y then from.y else target.y) + 300.0;
    Bezier(
      start,
      Vec3(start.x * 0.7 + target.x * 0.3, midY, start.z * 0.7 + target.z * 0.3),
      Vec3(target.x, midY, target.z),
      Vec3(target.x - targetDistance, target.y, target.z - targetDistance))
  }

  // ---------------------------------------------------------------------------
  // The animate closures

  /**
   * The state one `animate` closure captures: its curve, how many times it has
   * run (`progress` is `frame * 0.008`), and its look-at endpoints. A section
   * step also keeps what it needs to settle the camera.
   */
  datatype Task =
    | SectionStep(curve: Bezier, frame: nat, startLookAt: Vec3, target: Vec3, direction: Vec3, cameraDistance: real)
    | DirectStep(curve: Bezier, frame: nat, fromLookAt: Vec3, toLookAt: Vec3)

  /** The same closure after one more call. */
  function Advance(t: Task): (r: Task)
    ensures r.frame == t.frame + 1
    ensures r.SectionStep? == t.SectionStep? && r.curve == t.curve
  {
    match t
    case SectionStep(curve, frame, startLookAt, target, direction, cameraDistance) =>
      SectionStep(curve, frame + 1, startLookAt, target, direction, cameraDistance)
    case DirectStep(curve, frame, fromLookAt, toLookAt) =>
      DirectStep(curve, frame + 1, fromLookAt, toLookAt)
  }

  /** What one call of a closure does: write a pose and reschedule itself, settle, or nothing. */
  datatype StepResult =
    | Continue(pose: Pose, next: Task)
    | Settle(pose: Pose)
    | Stop

  /** One call of an `animate` closure; `sample` is the curve sampler. */
  function Step(t: Task, sample: (Bezier, real) -> Vec3): (r: StepResult)
    ensures r.Continue? <==> t.frame + 1 <= 125
    ensures r.Continue? ==> r.next == Advance(t)
    ensures r.Continue? ==> r.pose.position == sample(t.curve, EaseInOut(Progress(t.frame + 1)))
    ensures r.Continue? && t.SectionStep? ==>
      r.pose.lookAt == Lerp(t.startLookAt, t.target, EaseInOut(LookAtParameter(Progress(t.frame + 1))))
    ensures r.Continue? && t.DirectStep? ==>
      r.pose.lookAt == Lerp(t.fromLookAt, t.toLookAt, EaseInOut(Progress(t.frame + 1)))
    ensures r.Settle? <==> t.SectionStep? && t.frame + 1 > 125
    ensures r.Settle? ==> r.pose == Pose(SettlePoint(t.target, t.direction, t.cameraDistance), t.target)
  {
    var progress := Progress(t.frame + 1);
    ProgressWithinCurve(t.frame + 1);
    match t
    case SectionStep(curve, _, startLookAt, target, direction, cameraDistance) =>
      if progress <= 1.0 then
        var lookAt := Lerp(startLookAt, target, EaseInOut(LookAtParameter(progress)));
        Continue(Pose(sample(curve, EaseInOut(progress)), lookAt), Advance(t))
      else
        Settle(Pose(SettlePoint(target, direction, cameraDistance), target))
    case DirectStep(curve, _, fromLookAt, toLookAt) =>
      if progress <= 1.0 then
        var lookAt := Lerp(fromLookAt, toLookAt, EaseInOut(progress));
        Continue(Pose(sample(curve, EaseInOut(progress)), lookAt), Advance(t))
      else
        Stop
  }

  /**
   * The section animation's gaze turns faster than the camera moves: from the
   * 105th call on (progress 0.84, past 5/6) every written pose already looks
   * at the target, while the camera is still on its way.
   */
  lemma GazeSettlesOnTarget(t: Task, sample: (Bezier, real) -> Vec3)
    requires t.SectionStep? && 104 <= t.frame < 125
    ensures Step(t, sample).Continue? && Step(t, sample).pose.lookAt == t.target
  {
    var progress := Progress(t.frame + 1);
    LookAtParameterRange(progress);
    assert LookAtParameter(progress) == 1.0;
    EaseInOutBounds(1.0);
  }

  /** The results of calling a closure again and again until it stops rescheduling itself. */
  function Trace(t: Task, sample: (Bezier, real) -> Vec3): (r: seq<StepResult>)
    decreases 125 - t.frame
  {
    var r := Step(t, sample);
    if r.Continue? then [r] + Trace(r.next, sample) else [r]
  }

  /**
   * A closure that has run `frame <= 125` times runs `126 - frame` more times:
   * every call but the last writes the curve point at the eased progress, and
   * the last one settles the camera at the end pose (section animation) or does
   * nothing (direct navigation). A fresh closure writes 125 points and settles
   * on call 126.
   */
  lemma {:induction false} TraceShape(t: Task, sample: (Bezier, real) -> Vec3)
    requires t.frame <= 125
    ensures |Trace(t, sample)| == 126 - t.frame
    ensures forall i :: 0 <= i < |Trace(t, sample)| - 1 ==>
      Trace(t, sample)[i].Continue? &&
      Trace(t, sample)[i].pose.position == sample(t.curve, EaseInOut(Progress(t.frame + i + 1)))
    ensures t.SectionStep? ==> Trace(t, sample)[125 - t.frame] == Settle(Pose(SettlePoint(t.target, t.direction, t.cameraDistance), t.target))
    ensures t.DirectStep? ==> Trace(t, sample)[125 - t.frame] == Stop
    decreases 125 - t.frame
  {
    var r := Step(t, sample);
    if r.Continue? {
      TraceShape(r.next, sample);
      var rest := Trace(r.next, sample);
      assert Trace(t, sample) == [r] + rest;
      forall i | 0 <= i < |Trace(t, sample)| - 1
        ensures Trace(t, sample)[i].Continue?
        ensures Trace(t, sample)[i].pose.position == sample(t.curve, EaseInOut(Progress(t.frame + i + 1)))
      {
        if i > 0 {
          assert Trace(t, sample)[i] == rest[i - 1];
        }
      }
    }
  }
}
