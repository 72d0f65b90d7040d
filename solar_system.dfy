/**
 * The section table of the scene (src/components/SolarSystem.js): nine bodies,
 * the sun at the origin and eight planets on circular orbits in the plane
 * y = 0, each with its size and framing distances; and which body is active.
 * Only what the navigation reads is kept (names, kinds, placement, size,
 * offsets); colours, texts and textures are presentation.
 */
module SolarSystem {
  import opened Wrappers
  import opened ScrollCameraMath

  datatype Kind = Sun | Planet

  /** `position: [0, 0, 0]`, or `getOrbitPosition(distance, Math.PI * anglePi)`. */
  datatype Placement = Origin | Orbit(distance: real, anglePi: real)

  datatype BodyConfig = BodyConfig(
    name: string, kind: Kind, placement: Placement, size: real,
    viewOffset: Option<real>, mobileViewOffset: Option<real>)

  /**
   * `getOrbitPosition`: a point on the circle of radius `distance` in the plane
   * y = 0. `circle(f)` is the host's `(Math.cos(Math.PI * f), Math.sin(Math.PI * f))`.
   */
  function OrbitPosition(distance: real, anglePi: real, circle: real -> (real, real)): (p: Vec3)
    ensures p.y == 0.0
  {
    var (cos, sin) := circle(anglePi);
    Vec3(cos * distance, 0.0, sin * distance)
  }

  function Position(b: BodyConfig, circle: real -> (real, real)): (r: Vec3) {
    match b.placement
    case Origin => Vec3(0.0, 0.0, 0.0)
    case Orbit(distance, anglePi) => OrbitPosition(distance, anglePi, circle)
  }

  /** `sectionsConfig`. */
  const SectionsConfig: seq<BodyConfig> := [
    BodyConfig("Dylan Spilberg", Sun, Origin, 20.0, Some(50.0), Some(65.0)),
    BodyConfig("Introduction", Planet, Orbit(800.0, 0.5), 3.0, Some(8.0), Some(12.0)),
    BodyConfig("Education", Planet, Orbit(1200.0, 0.8), 4.0, Some(10.0), Some(13.0)),
    BodyConfig("Projects", Planet, Orbit(1600.0, 1.1), 4.5, Some(12.0), Some(14.0)),
    BodyConfig("Skills", Planet, Orbit(2200.0, 1.4), 4.0, Some(10.0), Some(13.0)),
    BodyConfig("Job Experience", Planet, Orbit(2800.0, 1.7), 8.0, Some(20.0), Some(26.0)),
    BodyConfig("Mentorship", Planet, Orbit(3400.0, 2.0), 7.0, Some(18.0), Some(26.0)),
    BodyConfig("Interests", Planet, Orbit(4000.0, 2.3), 5.0, Some(12.0), Some(17.0)),
    BodyConfig("Contact", Planet, Orbit(4600.0, 2.6), 5.0, Some(12.0), Some(17.0))
  ]

  /** The table as the camera hook receives it. */
  function Sections(circle: real -> (real, real)): (s: seq<Section>)
    ensures |s| == |SectionsConfig|
    ensures forall i :: 0 <= i < |s| ==>
      s[i] == Section(Position(SectionsConfig[i], circle), SectionsConfig[i].size,
                      SectionsConfig[i].viewOffset, SectionsConfig[i].mobileViewOffset)
  {
    seq(|SectionsConfig|, i requires 0 <= i < |SectionsConfig| =>
      Section(Position(SectionsConfig[i], circle), SectionsConfig[i].size,
              SectionsConfig[i].viewOffset, SectionsConfig[i].mobileViewOffset))
  }

  /** Nine sections; section 0 is the sun at the origin and the others are planets. */
  lemma TableShape(circle: real -> (real, real))
    ensures |Sections(circle)| == 9
    ensures SectionsConfig[0].kind == Sun && Sections(circle)[0].position == Vec3(0.0, 0.0, 0.0)
    ensures forall i :: 1 <= i < 9 ==> SectionsConfig[i].kind == Planet && SectionsConfig[i].placement.Orbit?
  {
  }

  /** Every body lies in the plane y = 0, whatever the host's trigonometry. */
  lemma AllOnOrbitalPlane(circle: real -> (real, real))
    ensures forall i :: 0 <= i < |Sections(circle)| ==> Sections(circle)[i].position.y == 0.0
  {
    forall i | 0 <= i < |Sections(circle)| ensures Sections(circle)[i].position.y == 0.0 {
      assert Sections(circle)[i].position == Position(SectionsConfig[i], circle);
    }
  }

  /** Every body has a truthy `viewOffset`, so the camera frames it at that offset and never at the size-derived distance. */
  lemma FramingUsesViewOffset(circle: real -> (real, real))
    ensures forall i :: 0 <= i < |Sections(circle)| ==>
      Truthy(Sections(circle)[i].viewOffset) &&
      FramingDistance(Sections(circle)[i]) == SectionsConfig[i].viewOffset.value
  {
  }

  /** Every mobile offset is at least the desktop one (the hook reads neither as mobile). */
  lemma MobileOffsetsAtLeastViewOffsets()
    ensures forall i :: 0 <= i < |SectionsConfig| ==>
      SectionsConfig[i].viewOffset.Some? && SectionsConfig[i].mobileViewOffset.Some? &&
      SectionsConfig[i].mobileViewOffset.value >= SectionsConfig[i].viewOffset.value
  {
  }

  /** Orbit radii strictly increase with the index, from 800 to 4600. */
  lemma OrbitsIncrease()
    ensures forall i, j :: 1 <= i < j < |SectionsConfig| ==>
      SectionsConfig[i].placement.Orbit? && SectionsConfig[j].placement.Orbit? &&
      SectionsConfig[i].placement.distance < SectionsConfig[j].placement.distance
    ensures SectionsConfig[1].placement.distance == 800.0 && SectionsConfig[8].placement.distance == 4600.0
  {
  }

  /** The mount effect puts the camera at (-50, 5, 50), looking at the sun. */
  lemma InitialCameraPose(circle: real -> (real, real))
    ensures InitialPose(Sections(circle)[0]) == Pose(Vec3(-50.0, 5.0, 50.0), Vec3(0.0, 0.0, 0.0))
  {
  }

  /** `isActive={currentSection === index}`. */
  predicate BodyIsActive(currentSection: int, index: int) {
    currentSection == index
  }

  /** Some body is active exactly when the current section is in range, and then only the body at that index. */
  lemma ActiveBody(currentSection: int)
    ensures (exists i :: 0 <= i < |SectionsConfig| && BodyIsActive(currentSection, i)) <==> 0 <= currentSection < |SectionsConfig|
    ensures forall i :: 0 <= i < |SectionsConfig| && BodyIsActive(currentSection, i) ==> i == currentSection
  {
    if 0 <= currentSection < |SectionsConfig| {
      assert BodyIsActive(currentSection, currentSection);
    }
  }
}
