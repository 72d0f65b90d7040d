/**
 * The navigation state machine of the scroll-driven camera hook
 * (src/hooks/useScrollCamera.js).
 *
 * React state and refs become fields of `CameraController`; the browser's
 * animation-frame queue becomes the map `pending` from frame handle to the
 * closure waiting behind it, with `nextHandle` the next handle
 * `requestAnimationFrame` hands out (handles start at 1, so a stored handle is
 * always truthy). A JavaScript `TypeError` raised by reading a missing table
 * entry is the outcome `Threw`, after exactly the effects that precede it in
 * the source.
 */
module ScrollCamera {
  import opened Wrappers
  import opened ScrollCameraMath

  /** The rendering engine's camera: the one shared object the controller writes. */
  class Camera {
    var pose: Pose

    constructor (initial: Pose)
      ensures pose == initial
    {
      pose := initial;
    }
  }

  datatype Outcome = Completed | Threw

  /** The queue left after `cancelAnimationFrame` on a stored handle, if there is one. */
  function Cancelled(pending: map<nat, Task>, stored: Option<nat>): (r: map<nat, Task>)
    ensures stored.Some? ==> r.Keys == pending.Keys - {stored.value}
    ensures stored.None? ==> r == pending
    ensures forall h :: h in r ==> h in pending && r[h] == pending[h]
  {
    if stored.Some? then pending - {stored.value} else pending
  }

  /** The direct-navigation closures waiting in a queue: no controller field refers to them. */
  function DirectTasks(pending: map<nat, Task>): (r: map<nat, Task>)
    ensures forall h :: h in r <==> h in pending && pending[h].DirectStep?
    ensures forall h :: h in r ==> r[h] == pending[h]
  {
    map h | h in pending && pending[h].DirectStep? :: pending[h]
  }

  class CameraController {
    /** The section table the hook was given. */
    const sections: seq<Section>
    const camera: Camera
    /** Host geometry: `Vector3.normalize`, `Vector3.distanceTo` and `CubicBezierCurve3.getPoint`. */
    const normalize: Vec3 -> Vec3
    const distanceTo: (Vec3, Vec3) -> real
    const sample: (Bezier, real) -> Vec3

    /** `currentSection` (React state, read live). */
    var currentSection: int
    /** `isAnimating.current`. */
    var isAnimating: bool
    /** `animationRef.current`: the last handle a section animation stored. */
    var animationRef: Option<nat>
    /** The animation-frame queue: handle to waiting closure. */
    var pending: map<nat, Task>
    var nextHandle: nat

    /**
     * Handles are positive and already issued, and every waiting section
     * animation is the one behind the stored handle, with `isAnimating` set: at
     * most one section animation is ever scheduled.
     */
    ghost predicate Valid()
      reads this
    {
      && nextHandle >= 1
      && (forall h :: h in pending ==> 1 <= h < nextHandle)
      && (animationRef.Some? ==> 1 <= animationRef.value < nextHandle)
      && (forall h :: h in pending && pending[h].SectionStep? ==> animationRef == Some(h) && isAnimating)
      && (animationRef.Some? && animationRef.value in pending ==> pending[animationRef.value].SectionStep?)
    }

    /** Cancelling the stored handle removes the section animation, if any, and leaves exactly the direct-navigation closures. */
    lemma CancelLeavesDirectTasks()
      requires Valid()
      ensures Cancelled(pending, animationRef) == DirectTasks(pending)
    {
      var c, d := Cancelled(pending, animationRef), DirectTasks(pending);
      forall h | h in c ensures h in d {
      }
      assert c.Keys == d.Keys;
    }

    ghost predicate NoSectionTask()
      reads this
    {
      forall h :: h in pending ==> !pending[h].SectionStep?
    }

    /** Mounting the hook: section 0, no animation, nothing stored. */
    constructor (sections: seq<Section>, camera: Camera, normalize: Vec3 -> Vec3,
                 distanceTo: (Vec3, Vec3) -> real, sample: (Bezier, real) -> Vec3)
      ensures Valid()
      ensures this.sections == sections && this.camera == camera
      ensures this.normalize == normalize && this.distanceTo == distanceTo && this.sample == sample
      ensures currentSection == 0 && !isAnimating && animationRef == None && pending == map[] && nextHandle == 1
    {
      this.sections := sections;
      this.camera := camera;
      this.normalize := normalize;
      this.distanceTo := distanceTo;
      this.sample := sample;
      currentSection := 0;
      isAnimating := false;
      animationRef := None;
      pending := map[];
      nextHandle := 1;
    }

    /** The closure `animateToSection(target)` builds when the camera stands at `start` and `from` is the current section. */
    function SectionTask(start: Vec3, from: int, target: int): (t: Task)
      requires 0 <= from < |sections| && 0 <= target < |sections|
      ensures t.SectionStep? && t.frame == 0
      ensures t.curve.p0 == start && t.startLookAt == sections[from].position && t.target == sections[target].position
      ensures t.cameraDistance == FramingDistance(sections[target])
      ensures t.direction == normalize(Sub(sections[target].position, start))
      ensures t.curve == SectionPath(start, t.target, t.direction, distanceTo(start, t.target), t.cameraDistance)
      ensures t.curve.p3 == SettlePoint(t.target, t.direction, t.cameraDistance)
    {
      var targetPosition := sections[target].position;
      var direction := normalize(Sub(targetPosition, start));
      var distance := distanceTo(start, targetPosition);
      var cameraDistance := FramingDistance(sections[target]);
      SectionStep(SectionPath(start, targetPosition, direction, distance, cameraDistance),
                  0, sections[from].position, targetPosition, direction, cameraDistance)
    }

    /** The closure the direct-navigation handler builds. */
    function DirectTask(start: Vec3, from: int, target: int): (t: Task)
      requires 0 <= from < |sections| && 0 <= target < |sections|
      ensures t.DirectStep? && t.frame == 0
      ensures t.curve.p0 == start && t.fromLookAt == sections[from].position && t.toLookAt == sections[target].position
      ensures t.curve == DirectPath(start, sections[from].position, sections[target].position, FramingDistance(sections[target]))
      ensures t.curve.p3 == Vec3(t.toLookAt.x - FramingDistance(sections[target]), t.toLookAt.y,
                                 t.toLookAt.z - FramingDistance(sections[target]))
    {
      var currentPosition := sections[from].position;
      var targetPosition := sections[target].position;
      var targetDistance := FramingDistance(sections[target]);
      DirectStep(DirectPath(start, currentPosition, targetPosition, targetDistance), 0, currentPosition, targetPosition)
    }

    /** `requestAnimationFrame(task)`. */
    method Schedule(t: Task) returns (h: nat)
      requires nextHandle >= 1
      modifies this`pending, this`nextHandle
      ensures h == old(nextHandle) && nextHandle == h + 1
      ensures pending == old(pending)[h := t]
    {
      h := nextHandle;
      pending := pending[h := t];
      nextHandle := nextHandle + 1;
    }

    /** `if (animationRef.current) cancelAnimationFrame(animationRef.current)`. */
    method CancelStored()
      modifies this`pending
      ensures pending == Cancelled(old(pending), animationRef)
    {
      if animationRef.Some? {
        pending := pending - {animationRef.value};
      }
    }

    /**
     * One call of an `animate` closure: add 0.008 to progress; while progress is
     * at most 1 write the curve point and look-at and schedule the closure again
     * (a section animation stores the new handle); past 1 a section animation
     * clears `isAnimating` and snaps the camera to the end pose, and a
     * direct-navigation closure does nothing.
     */
    method Animate(t: Task)
      requires Valid()
      requires t.SectionStep? ==> NoSectionTask() && isAnimating
      modifies this, camera
      ensures Valid()
      ensures currentSection == old(currentSection)
      ensures Step(t, sample).Continue? ==>
        && camera.pose == Step(t, sample).pose
        && pending == old(pending)[old(nextHandle) := Advance(t)]
        && nextHandle == old(nextHandle) + 1
        && animationRef == (if t.SectionStep? then Some(old(nextHandle)) else old(animationRef))
        && isAnimating == old(isAnimating)
      ensures Step(t, sample).Settle? ==>
        && camera.pose == Step(t, sample).pose
        && !isAnimating
        && pending == old(pending) && nextHandle == old(nextHandle) && animationRef == old(animationRef)
      ensures Step(t, sample).Stop? ==>
        && camera.pose == old(camera.pose)
        && pending == old(pending) && nextHandle == old(nextHandle) && animationRef == old(animationRef)
        && isAnimating == old(isAnimating)
    {
      var frame := t.frame + 1;
      var progress := Progress(frame);
      if progress <= 1.0 {
        var lookAt: Vec3;
        if t.SectionStep? {
          lookAt := Lerp(t.startLookAt, t.target, EaseInOut(LookAtParameter(progress)));
        } else {
          lookAt := Lerp(t.fromLookAt, t.toLookAt, EaseInOut(progress));
        }
        camera.pose := Pose(sample(t.curve, EaseInOut(progress)), lookAt);
        var h := Schedule(Advance(t));
        if t.SectionStep? {
          animationRef := Some(h);
        }
      } else if t.SectionStep? {
        isAnimating := false;
        camera.pose := Pose(SettlePoint(t.target, t.direction, t.cameraDistance), t.target);
      }
    }

    /**
     * `animateToSection(target)`: cancel the stored frame, build the curve from
     * the live camera position, set `isAnimating`, and run the closure's first
     * call. The look-at starts at the body of `currentSection` as it was before
     * the caller's `setCurrentSection` took effect. A missing target entry throws
     * right after the cancel; a missing current entry throws after
     * `isAnimating` is set.
     */
    method AnimateToSection(target: int) returns (outcome: Outcome)
      requires Valid()
      modifies this, camera
      ensures Valid()
      ensures currentSection == old(currentSection)
      ensures DirectTasks(pending) == DirectTasks(old(pending))
      ensures old(animationRef).Some? ==> old(animationRef).value !in pending
      ensures !(0 <= target < |sections|) ==>
        && outcome == Threw
        && camera.pose == old(camera.pose) && isAnimating == old(isAnimating)
        && pending == Cancelled(old(pending), old(animationRef)) && NoSectionTask()
        && nextHandle == old(nextHandle) && animationRef == old(animationRef)
      ensures 0 <= target < |sections| && !(0 <= old(currentSection) < |sections|) ==>
        && outcome == Threw
        && camera.pose == old(camera.pose) && isAnimating
        && pending == Cancelled(old(pending), old(animationRef)) && NoSectionTask()
        && nextHandle == old(nextHandle) && animationRef == old(animationRef)
      ensures 0 <= target < |sections| && 0 <= old(currentSection) < |sections| ==>
        var t := SectionTask(old(camera.pose.position), old(currentSection), target);
        && outcome == Completed
        && isAnimating
        && camera.pose == Step(t, sample).pose
        && pending == Cancelled(old(pending), old(animationRef))[old(nextHandle) := Advance(t)]
        && animationRef == Some(old(nextHandle)) && nextHandle == old(nextHandle) + 1
        && (forall h :: h in pending && pending[h].SectionStep? ==> h == old(nextHandle))
    {
      CancelLeavesDirectTasks();
      CancelStored();
      if !(0 <= target < |sections|) {
        return Threw;
      }
      var start := camera.pose.position;
      isAnimating := true;
      if !(0 <= currentSection < |sections|) {
        return Threw;
      }
      var t := SectionTask(start, currentSection, target);
      Animate(t);
      outcome := Completed;
    }

    /**
     * The scroll listener: the section under the scroll offset, clamped from
     * above only; when it differs from `currentSection` the state takes it and
     * the camera animates there.
     */
    method HandleScroll(scrollY: real, vh: real) returns (outcome: Outcome)
      requires Valid() && vh > 0.0
      modifies this, camera
      ensures Valid()
      ensures ScrollIndex(scrollY, vh, |sections|) == old(currentSection) ==>
        && outcome == Completed
        && currentSection == old(currentSection) && camera.pose == old(camera.pose)
        && pending == old(pending) && animationRef == old(animationRef) && isAnimating == old(isAnimating)
        && nextHandle == old(nextHandle)
      ensures ScrollIndex(scrollY, vh, |sections|) != old(currentSection) ==>
        && currentSection == ScrollIndex(scrollY, vh, |sections|)
        && DirectTasks(pending) == DirectTasks(old(pending))
        && (outcome == Completed <==> 0 <= currentSection < |sections| && 0 <= old(currentSection) < |sections|)
        && (outcome == Threw ==>
              && camera.pose == old(camera.pose)
              && pending == Cancelled(old(pending), old(animationRef)) && NoSectionTask()
              && nextHandle == old(nextHandle) && animationRef == old(animationRef)
              && isAnimating == (old(isAnimating) || 0 <= currentSection < |sections|))
        && (outcome == Completed ==>
              var t := SectionTask(old(camera.pose.position), old(currentSection), currentSection);
              && isAnimating && camera.pose == Step(t, sample).pose
              && pending == Cancelled(old(pending), old(animationRef))[old(nextHandle) := Advance(t)]
              && animationRef == Some(old(nextHandle)) && nextHandle == old(nextHandle) + 1)
    {
      var section := (scrollY / vh).Floor;
      var newSection := if section <= |sections| - 1 then section else |sections| - 1;
      outcome := Completed;
      if newSection != currentSection {
        // setCurrentSection only takes effect at the next render, so the
        // animation still sees the previous section.
        outcome := AnimateToSection(newSection);
        currentSection := newSection;
      }
    }

    /**
     * The direct-navigation listener: `currentSection` takes the requested index
     * at once, unchecked. A missing current or target entry then throws. The
     * closure it starts is never stored, so nothing can cancel it; it does not
     * touch `isAnimating` and does not cancel a running section animation.
     */
    method HandleDirectNavigation(target: int) returns (outcome: Outcome)
      requires Valid()
      modifies this, camera
      ensures Valid()
      ensures currentSection == target
      ensures animationRef == old(animationRef) && isAnimating == old(isAnimating)
      ensures outcome == Completed <==> 0 <= old(currentSection) < |sections| && 0 <= target < |sections|
      ensures outcome == Threw ==> camera.pose == old(camera.pose) && pending == old(pending) && nextHandle == old(nextHandle)
      ensures outcome == Completed ==>
        var t := DirectTask(old(camera.pose.position), old(currentSection), target);
        && camera.pose == Step(t, sample).pose
        && pending == old(pending)[old(nextHandle) := Advance(t)]
        && nextHandle == old(nextHandle) + 1
    {
      var from := currentSection;
      currentSection := target;
      if !(0 <= from < |sections|) || !(0 <= target < |sections|) {
        return Threw;
      }
      var t := DirectTask(camera.pose.position, from, target);
      Animate(t);
      outcome := Completed;
    }

    /** The mount effect: with section 0 current, place the camera at section 0's framing pose without animating. */
    method InitialPlacement() returns (outcome: Outcome)
      requires Valid()
      modifies camera
      ensures outcome == Threw <==> currentSection == 0 && |sections| == 0
      ensures currentSection == 0 && |sections| > 0 ==> camera.pose == InitialPose(sections[0])
      ensures currentSection != 0 || |sections| == 0 ==> camera.pose == old(camera.pose)
    {
      outcome := Completed;
      if currentSection == 0 {
        if |sections| == 0 {
          return Threw;
        }
        camera.pose := InitialPose(sections[0]);
      }
    }

    /**
     * The unmount cleanup: cancel the stored frame and clear `isAnimating`.
     * No section animation is left, but every direct-navigation closure is.
     */
    method Cleanup()
      requires Valid()
      modifies this
      ensures Valid()
      ensures !isAnimating && NoSectionTask()
      ensures pending == Cancelled(old(pending), old(animationRef))
      ensures pending == DirectTasks(old(pending))
      ensures currentSection == old(currentSection) && animationRef == old(animationRef) && nextHandle == old(nextHandle)
    {
      CancelLeavesDirectTasks();
      CancelStored();
      isAnimating := false;
    }

    /** The host runs the closure behind handle `h` at the next frame. */
    method RunFrame(h: nat)
      requires Valid() && h in pending
      modifies this, camera
      ensures Valid()
      ensures currentSection == old(currentSection)
      ensures var r := Step(old(pending)[h], sample);
        && (r.Stop? ==> camera.pose == old(camera.pose) && pending == old(pending) - {h})
        && (!r.Stop? ==> camera.pose == r.pose)
        && (r.Settle? ==> !isAnimating && pending == old(pending) - {h})
        && (r.Continue? ==> pending == (old(pending) - {h})[old(nextHandle) := r.next] && nextHandle == old(nextHandle) + 1)
        && (!r.Continue? ==> nextHandle == old(nextHandle))
        && animationRef == (if r.Continue? && old(pending)[h].SectionStep? then Some(old(nextHandle)) else old(animationRef))
        && (!r.Settle? ==> isAnimating == old(isAnimating))
    {
      var t := pending[h];
      pending := pending - {h};
      Animate(t);
    }
  }
}
