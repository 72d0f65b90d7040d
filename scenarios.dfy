/**
 * A client of the camera controller, showing what callers can conclude from
 * the controller's contracts alone.
 */
module Scenarios {
  import opened Wrappers
  import opened ScrollCameraMath
  import opened ScrollCamera

  /**
   * Mount on a three-section table, jump to section 2 with the control panel,
   * then scroll to section 1 and unmount: the jump's closure is still queued
   * after both and keeps writing the camera.
   */
  method DirectNavigationOutlivesCleanup(sections: seq<Section>, camera: Camera)
    requires |sections| == 3
    modifies camera
  {
    var c := new CameraController(sections, camera, (v: Vec3) => v, (a: Vec3, b: Vec3) => 1.0, (curve: Bezier, t: real) => curve.p0);
    var outcome := c.InitialPlacement();
    assert camera.pose == InitialPose(sections[0]);

    outcome := c.HandleDirectNavigation(2);
    assert outcome == Completed && c.currentSection == 2;
    assert 1 in DirectTasks(c.pending);

    assert ScrollIndex(1.5, 1.0, 3) == 1;
    outcome := c.HandleScroll(1.5, 1.0);
    assert outcome == Completed && c.currentSection == 1;
    assert 1 in DirectTasks(c.pending);
    assert c.pending[2].SectionStep? && c.animationRef == Some(2);

    c.Cleanup();
    assert 1 in c.pending && 2 !in c.pending && !c.isAnimating;
    c.RunFrame(1);
    assert 3 in c.pending && c.pending[3].DirectStep?;
  }
}
