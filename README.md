# Camera navigation of the solar-system portfolio

A Dafny model of the navigation core of a scroll-driven 3D portfolio site. Each
resume section is a celestial body; the viewer moves between bodies by
scrolling or by clicking a flight-control panel, and the camera flies along a
cubic Bezier curve to a pose that frames the chosen body.

The model covers:

- the camera hook (`src/hooks/useScrollCamera.js`), as two modules:
  - `ScrollCameraMath` holds the pure parts: the size-derived framing distance and the framing choice, the scroll-to-section rule, the cubic ease-in-out, the look-at parameter, both curve builders, and one call of an `animate` closure (`Step`) with the run of calls it makes (`Trace`);
  - `ScrollCamera` holds the state machine: class `CameraController` with the hook's state and refs as fields (`currentSection`, `isAnimating`, `animationRef`), and the browser's animation-frame queue as a map `pending` from frame handle to the waiting closure. Each listener and effect is a method. The renderer's camera is the separate class `Camera`, which the controller writes;
- the content helpers of `src/components/CelestialBody.js` (module `CelestialBody`): `formatContent` as a loop proved against a reference definition of paragraphs, `String.split`, the panel-config lookup, the texture filter, the first-newline replacement and the letter angles of the curved title;
- the panel rules of `src/components/FlightControls.js` (module `FlightControls`);
- the section table and the `isActive` mapping of `src/components/SolarSystem.js` (module `SolarSystem`).

`Scenarios.DirectNavigationOutlivesCleanup` is a client of the controller. It
mounts, jumps to section 2, scrolls to section 1 and unmounts. The jump's loop
is still queued after all three and goes on writing the camera.

Behaviour of the code that a reader might not expect, each stated by the members named:

- The hook never reads `mobileViewOffset`; every viewport frames a body at its `viewOffset`, or at the size-derived distance when that is absent or zero (`FramingDistanceChoice`).
- Both control points of the section curve are raised 15 units above the start and the target (`SectionPath`).
- The scroll index is clamped only from above, so a negative scroll offset gives a negative index (`ScrollIndex`, `ScrollIndexSign`).
- Errors come after state changes. Direct navigation stores the requested index before it can throw on a missing entry. The scroll path cancels the stored frame, and may set `isAnimating`, before it throws (`HandleDirectNavigation`, `AnimateToSection`, `HandleScroll`).
- Direct navigation runs its own loop, apart from `animateToSection` (`HandleDirectNavigation`, `DirectTask`, `Step`):
  - the loop's handle is never stored, so neither a later scroll nor unmounting can cancel it (`Cleanup`, `Scenarios.DirectNavigationOutlivesCleanup`);
  - it never settles the camera at an end pose;
  - it ends at an offset of `(-d, 0, -d)` from the target (`DirectPath`);
  - its look-at is eased from the progress itself, without the 1.2 factor of the section animation (`Step`, `GazeSettlesOnTarget`).
- Only the scroll channel compares the new index with `currentSection`. Direct navigation to the current section starts a new loop (`HandleDirectNavigation`).
- Nothing guards a zero-length direction; the host's `normalize` decides what it returns (`SectionTask`).
- `isAnimating` is written but never read.

## Model

| member | source | states |
|---|---|---|
| `ScrollCameraMath.IdealCameraDistance` | src/hooks/useScrollCamera.js:11-15 | The ideal distance is at least 20. It equals 20 exactly when size >= 5, and 30 - 2*size below that. |
| `ScrollCameraMath.FramingDistanceChoice` | src/hooks/useScrollCamera.js:34 | The framing distance is `viewOffset` when truthy and the ideal distance otherwise. Changing `mobileViewOffset` never changes it. |
| `ScrollCameraMath.InitialPose` | src/hooks/useScrollCamera.js:192-199 | The mount pose stands at (x - d, y + 5, z + d) from section 0, with d its framing distance, and looks at section 0. |
| `ScrollCameraMath.ScrollIndex` | src/hooks/useScrollCamera.js:105-110 | The scroll index never exceeds N - 1. It is floor(scrollY / vh) or, when that is at least N - 1, exactly N - 1. |
| `ScrollCameraMath.ScrollIndexSign` | src/hooks/useScrollCamera.js:109-110 | For a non-empty table, the index is non-negative exactly when scrollY >= 0. |
| `ScrollCameraMath.ScrollIndexSections` | src/hooks/useScrollCamera.js:109-110 | An offset of (k + f) viewport heights, 0 <= f < 1, selects section k when k is in range. Any offset at or past the last section selects N - 1. |
| `ScrollCameraMath.EaseInOutBounds` | src/hooks/useScrollCamera.js:213-215 | easeInOut(0) = 0, easeInOut(1/2) = 1/2 and easeInOut(1) = 1. It maps [0, 1] into [0, 1]. |
| `ScrollCameraMath.EaseInOutMonotone` | src/hooks/useScrollCamera.js:213-215 | easeInOut is non-decreasing on [0, 1]. |
| `ScrollCameraMath.EaseInOutSymmetric` | src/hooks/useScrollCamera.js:213-215 | easeInOut(1 - t) = 1 - easeInOut(t) for every t. |
| `ScrollCameraMath.Lerp` | src/hooks/useScrollCamera.js:81-85 | The coordinate-wise interpolation gives the start point at parameter 0 and the end point at 1. |
| `ScrollCameraMath.ProgressWithinCurve` | src/hooks/useScrollCamera.js:73-75 | After k calls, progress k * 0.008 is at most 1 exactly when k <= 125. |
| `ScrollCameraMath.LookAtParameterRange` | src/hooks/useScrollCamera.js:80 | For progress >= 0, min(progress * 1.2, 1) lies in [0, 1]. It equals 1 exactly when progress >= 5/6. |
| `ScrollCameraMath.GazeSettlesOnTarget` | src/hooks/useScrollCamera.js:80-87 | From the 105th call on, each pose a section closure writes already looks at the target, while the camera is still moving along the curve. |
| `ScrollCameraMath.SectionPath` | src/hooks/useScrollCamera.js:36-63 | The curve starts at the live camera position. Its control points sit 15 above start and target, mirrored in x/z. It ends at the settle point, at the target's height and `direction * cameraDistance` short of the target in x/z. |
| `ScrollCameraMath.DirectPath` | src/hooks/useScrollCamera.js:127-154 | Both control points sit at the higher body's height plus 300, the second straight above the target. The curve ends at (tx - d, ty, tz - d). |
| `ScrollCameraMath.Step` | src/hooks/useScrollCamera.js:72-98 | One `animate` call (of the section closure here, and of the direct closure at lines 156-173) writes the curve point at easeInOut(progress) and reschedules itself while the new frame count is <= 125. The section closure looks at lerp(current body, target, easeInOut(min(1.2 * progress, 1))); the direct closure looks at lerp(current body, target, easeInOut(progress)). Past frame 125 a section animation settles at (settle point, target) and a direct-navigation closure does nothing. |
| `ScrollCameraMath.TraceShape` | src/hooks/useScrollCamera.js:65-100 | A closure at frame f <= 125 runs 126 - f more calls. Each call but the last writes the sampled point for its frame. The last call settles (section animation) or stops (direct navigation). A fresh closure makes 125 writes, then settles on call 126. |
| `ScrollCamera.Cancelled` | src/hooks/useScrollCamera.js:18-20 | Cancelling a stored handle removes exactly that handle from the frame queue and keeps every other closure. |
| `ScrollCamera.CameraController.CancelStored` | src/hooks/useScrollCamera.js:18-20 | Cancelling the stored frame, here and again on unmount at lines 203-205, leaves the queue as `Cancelled` gives it: the stored handle is gone, and everything else stays. |
| `ScrollCamera.CameraController.CancelLeavesDirectTasks` | src/hooks/useScrollCamera.js:18-20 | In every reachable state, cancelling the stored handle leaves exactly the direct-navigation closures. |
| `ScrollCamera.CameraController.constructor` | src/hooks/useScrollCamera.js:5-9 | The hook mounts at section 0 with no animation, no stored handle and an empty queue. |
| `ScrollCamera.CameraController.SectionTask` | src/hooks/useScrollCamera.js:22-70 | The section closure starts at the live camera position. Its direction is `normalize(target - start)`, and its curve is `SectionPath` from the start to the target body with that direction, the `distanceTo` the target and `FramingDistance` of the target. Its look-at runs from the current body to the target body, and its curve ends at its settle point. |
| `ScrollCamera.CameraController.DirectTask` | src/hooks/useScrollCamera.js:124-154 | The direct closure's curve is `DirectPath` from the live camera position, over the higher of the current and target bodies, to the target framed at `FramingDistance`. Its look-at runs from the current body to the target body, and its curve ends at (tx - d, ty, tz - d). |
| `ScrollCamera.CameraController.Schedule` | src/hooks/useScrollCamera.js:88 | `requestAnimationFrame` queues the closure under a fresh handle. |
| `ScrollCamera.CameraController.Animate` | src/hooks/useScrollCamera.js:72-98 | Applies `Step`. On continue it writes the pose, queues the next closure under a fresh handle and, for a section animation, stores that handle. On settle it writes the end pose and clears `isAnimating`. On stop nothing changes. At most one section animation stays queued. |
| `ScrollCamera.CameraController.AnimateToSection` | src/hooks/useScrollCamera.js:17-101 | It first cancels the stored handle and keeps every direct closure. A missing target throws with nothing else changed. A missing current section throws after setting `isAnimating`. Otherwise it sets `isAnimating`, writes the first pose, and leaves one queued section animation, stored in `animationRef`. |
| `ScrollCamera.CameraController.HandleScroll` | src/hooks/useScrollCamera.js:104-117 | When the scroll index equals `currentSection`, nothing changes. Otherwise `currentSection` takes the index, and an animation starts exactly when both the old and new index are in range. On success the camera takes the first pose of the section closure, which is queued and stored under a fresh handle. On a throw the camera and handle counter are unchanged, the stored frame is cancelled, and `isAnimating` is set exactly when the new index is in range. |
| `ScrollCamera.CameraController.HandleDirectNavigation` | src/hooks/useScrollCamera.js:120-178 | `currentSection` takes the requested index unchecked. `animationRef` and `isAnimating` never change. With both indices in range it writes the first pose and queues an unstored closure. Otherwise it throws with camera and queue unchanged. |
| `ScrollCamera.CameraController.InitialPlacement` | src/hooks/useScrollCamera.js:190-200 | At section 0 the camera is placed at `InitialPose(sections[0])`, with no animation. An empty table throws. |
| `ScrollCamera.CameraController.Cleanup` | src/hooks/useScrollCamera.js:202-207 | Unmount cancels the stored handle and clears `isAnimating`. No section animation remains, and every direct-navigation closure stays queued. |
| `ScrollCamera.CameraController.RunFrame` | src/hooks/useScrollCamera.js:88 | Running a queued closure removes its handle and applies `Step` to it: the camera, queue and handle counter follow the step. The stored handle changes only when a section closure reschedules itself, and `isAnimating` changes only when a section closure settles. |
| `CelestialBody.Split` | src/components/CelestialBody.js:33 | `split('\n')` gives at least one piece, and no piece contains the separator. |
| `CelestialBody.JoinSplit` | src/components/CelestialBody.js:33 | Joining the pieces of `split` with the separator gives the text back. |
| `CelestialBody.ParagraphsWellFormed` | src/components/CelestialBody.js:37-50 | In the reference definition `Paragraphs` (the maximal runs of non-empty lines), no group is empty and no group contains a blank line. |
| `CelestialBody.FormatContent` | src/components/CelestialBody.js:32-51 | The loop's result is exactly `Paragraphs` of the split text. |
| `CelestialBody.ParagraphsConcat` | src/components/CelestialBody.js:37-46 | Concatenating the groups gives exactly the non-empty lines, in order. |
| `CelestialBody.ParagraphsCount` | src/components/CelestialBody.js:37-50 | The number of groups equals the number of places where a non-empty line follows a blank line or opens the text. |
| `CelestialBody.ParagraphsTrailingBlank` | src/components/CelestialBody.js:38-42 | A trailing blank line, as after a final "\n\n", adds no group. |
| `CelestialBody.ParagraphsOfBlankText` | src/components/CelestialBody.js:37-50 | Empty content gives zero groups, and two blank lines between runs separate them like one. |
| `CelestialBody.SectionConfigs` | src/components/CelestialBody.js:53-56 | Without a panel config or its `sections`, the list is the one-entry default. Otherwise it is the given list. |
| `CelestialBody.ConfigFor` | src/components/CelestialBody.js:69 | Every group gets a config exactly when the list is non-empty. Group i < len gets entry i, and groups past the list reuse the last entry. |
| `CelestialBody.TextureKeys` | src/components/CelestialBody.js:178-184 | The result holds exactly those of the six texture names with a truthy value, each mapped to the same value. |
| `CelestialBody.CopyIfPresent` | src/components/CelestialBody.js:179-184 | One conditional copy adds the name exactly when its value is truthy, and every copied key keeps the value it was given. |
| `CelestialBody.ReplaceFirstSplice` | src/components/CelestialBody.js:112 | `replace` with a one-character pattern and a replacement without `$` patterns, such as line 112's `'\n\n'`, splices the replacement in at the first occurrence only and keeps the text before and after it. |
| `CelestialBody.ReplaceFirstAbsent` | src/components/CelestialBody.js:112 | `replace` leaves a text without an occurrence unchanged. |
| `CelestialBody.DoubleFirstNewline` | src/components/CelestialBody.js:112 | Doubling the description's first newline adds exactly one newline when the text has one, and leaves a text without one unchanged. Where the extra newline goes is stated by `ReplaceFirstSplice`. |
| `CelestialBody.LetterAnglesSymmetric` | src/components/CelestialBody.js:235-237 | angle(i) = -angle(n - 1 - i): the title letters are spread symmetrically about 0. |
| `CelestialBody.AngleStepOfBody` | src/components/CelestialBody.js:236 | With the body's size as radius and 0.15 * size as text size, the angle step is 0.18 for every body. |
| `FlightControls.EmittedIndexInRange` | src/components/FlightControls.js:261-288 | From a section in [0, N), PREV, NEXT and every rendered planet button emit only indices in [0, N). |
| `FlightControls.DisabledExactlyWhenInert` | src/components/FlightControls.js:261-304 | From a section in [0, N), PREV is disabled exactly when `handlePrevious` does nothing, and NEXT exactly when `handleNext` does. |
| `FlightControls.NextEnabledButInertPastEnd` | src/components/FlightControls.js:267-271 | Past the end of the table, NEXT is enabled but emits nothing. |
| `FlightControls.StepsAreInverse` | src/components/FlightControls.js:261-271 | For a section in (0, N-1], PREV then NEXT returns to it. For one in [0, N-1), NEXT then PREV returns to it. |
| `FlightControls.ExactlyOneActive` | src/components/FlightControls.js:283-286 | Exactly one planet button is active when the section is in [0, N), and none otherwise. |
| `SolarSystem.OrbitPosition` | src/components/SolarSystem.js:17-23 | An orbit position always has y = 0. |
| `SolarSystem.Sections` | src/components/SolarSystem.js:26-422 | The hook receives one section per table entry, with that entry's position, size and offsets. |
| `SolarSystem.TableShape` | src/components/SolarSystem.js:26-41 | The table has 9 entries. Entry 0 is the sun at the origin, and all others are planets on orbits. |
| `SolarSystem.AllOnOrbitalPlane` | src/components/SolarSystem.js:17-23 | Every section lies in the plane y = 0, whatever the trigonometry. |
| `SolarSystem.FramingUsesViewOffset` | src/components/SolarSystem.js:33 | Every entry has a truthy `viewOffset`, so the camera always frames a body at its `viewOffset`. |
| `SolarSystem.MobileOffsetsAtLeastViewOffsets` | src/components/SolarSystem.js:33-34 | Every entry has a `mobileViewOffset` of at least its `viewOffset`. |
| `SolarSystem.OrbitsIncrease` | src/components/SolarSystem.js:45 | Orbit radii strictly increase with the index, from 800 to 4600. |
| `SolarSystem.InitialCameraPose` | src/components/SolarSystem.js:30-33 | On this table the mount pose is (-50, 5, 50), looking at the sun. |
| `SolarSystem.ActiveBody` | src/components/SolarSystem.js:451-456 | Some body is active exactly when `currentSection` is in range, and then only the body at that index. |

## Left out

- Vector normalisation, `distanceTo`, `CubicBezierCurve3.getPoint` and the camera orientation set by `lookAt` use square roots and floating point inside three.js. The controller receives the first three as functions and is proved for any of them. The camera pose records the look-at point instead of an orientation.
- Floating-point accumulation of `progress` is not modelled. Progress is k * 0.008 in exact arithmetic, so the model makes exactly 125 writes and settles on call 126. In IEEE doubles 0.008 is not exact and 125 additions give 1.0000000000000007, just over 1. So the program writes 124 points and settles on call 125. The direct loop's last write is at easeInOut(0.992), just short of its curve's end, whereas the model's last write is at 1.
- `requestAnimationFrame` and `cancelAnimationFrame` become the `pending` map. `RunFrame` lets the host run queued closures in any order; frame timing is not modelled.
- React re-renders and effect re-subscriptions become plain fields. The model is an idealisation here: listeners always read the live `currentSection`, except that a `setCurrentSection` call takes effect only after the handler returns. In the program, the listeners see the value of the last committed render, because the effect re-subscribes them after each render (src/hooks/useScrollCamera.js:187). A second scroll event that arrives before that re-render sees the stale index, so it calls `animateToSection` again and restarts the animation; in the model that second event changes nothing. Listener registration and removal are not modelled, so after `Cleanup` the model does not stop callers from invoking the handlers.
- `ScrollCamera.CameraController.HandleScroll`, `ScrollCameraMath.ScrollIndex`, `ScrollCameraMath.ScrollIndexSign`, `ScrollCameraMath.ScrollIndexSections`: require a positive viewport height. With a zero `innerHeight` the source divides by zero (Infinity or NaN), which reals cannot express.
- `CelestialBody.AngleStepOfBody`: requires a non-zero size. With size 0 the source divides by zero.
- `CelestialBody.ReplaceFirst`: inserts the replacement literally. JavaScript's `replace` expands `$$`, `$&`, `` $` `` and `$'` in a replacement string; the one call (src/components/CelestialBody.js:112) passes `'\n\n'`, which has none.
- JavaScript truthiness is modelled for absent and zero numbers and for absent and empty strings. NaN is not modelled.
- The sine and cosine of orbit positions come from the host as a function; only y = 0 is proved about positions.
- Orbital motion and facing rotation in `useFrame` (src/components/CelestialBody.js:188-231) are per-frame trigonometry on floats.
- The panel's visibility timer and tweens (src/components/CelestialBody.js:11-29) are timing and animation-library effects.
- Panel config entries keep only their placement. Fonts, colours and titles are presentation, and so is the default font size.
- JSX rendering and styled-components CSS are presentation only (src/components/FlightControls.js:4-258, src/components/SpaceshipHUD.js). So are the star field and the Canvas setup (src/components/StarField.js, src/App.js).
- The table's colours, texts, textures and initial rotations are presentation, so `FormatContent` is not applied to the table's own texts.
- Whatever dispatches the `directNavigation` event from the panel's `onNavigate` is not part of this model.
