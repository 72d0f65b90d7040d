/**
 * Navigation rules of the flight-control panel (src/components/FlightControls.js):
 * PREV and NEXT step one section, each planet button jumps to its own section,
 * PREV/NEXT are disabled at the ends, and the button of the current section is
 * highlighted. `onNavigate` is modelled by the index a control emits.
 */
module FlightControls {
  import opened Wrappers

  datatype Control = Previous | Next | Planet(index: int)

  /** `handlePrevious`: emit `currentSection - 1` when above 0, else nothing. */
  function HandlePrevious(currentSection: int): (r: Option<int>) {
    if currentSection > 0 then Some(currentSection - 1) else None
  }

  /** `handleNext`: emit `currentSection + 1` when below the last index, else nothing. */
  function HandleNext(currentSection: int, count: int): (r: Option<int>) {
    if currentSection < count - 1 then Some(currentSection + 1) else None
  }

  /** The index `onNavigate` receives when a control is clicked, if any. */
  function Click(control: Control, currentSection: int, count: int): (r: Option<int>) {
    match control
    case Previous => HandlePrevious(currentSection)
    case Next => HandleNext(currentSection, count)
    case Planet(index) => Some(index)
  }

  /** The panel renders one planet button per section (`sections.map`). */
  predicate Rendered(control: Control, count: int) {
    control.Planet? ==> 0 <= control.index < count
  }

  predicate PreviousDisabled(currentSection: int) {
    currentSection == 0
  }

  predicate NextDisabled(currentSection: int, count: int) {
    currentSection == count - 1
  }

  predicate ButtonIsActive(currentSection: int, index: int) {
    currentSection == index
  }

  /** From a section in range, every index any rendered control emits is in range. */
  lemma EmittedIndexInRange(control: Control, currentSection: int, count: int)
    requires 0 <= currentSection < count && Rendered(control, count)
    ensures Click(control, currentSection, count).Some? ==> 0 <= Click(control, currentSection, count).value < count
  {
  }

  /** From a section in range, PREV (NEXT) is disabled exactly when clicking it would do nothing. */
  lemma DisabledExactlyWhenInert(currentSection: int, count: int)
    requires 0 <= currentSection < count
    ensures PreviousDisabled(currentSection) <==> HandlePrevious(currentSection) == None
    ensures NextDisabled(currentSection, count) <==> HandleNext(currentSection, count) == None
  {
  }

  /** Past the end of the table (reachable through unchecked direct navigation) NEXT stays enabled but does nothing. */
  lemma NextEnabledButInertPastEnd(currentSection: int, count: int)
    requires currentSection >= count
    ensures !NextDisabled(currentSection, count) && HandleNext(currentSection, count) == None
  {
  }

  /** PREV then NEXT returns to the section, and so does NEXT then PREV. */
  lemma StepsAreInverse(currentSection: int, count: int)
    ensures 0 < currentSection <= count - 1 ==>
      HandlePrevious(currentSection) == Some(currentSection - 1) && HandleNext(currentSection - 1, count) == Some(currentSection)
    ensures 0 <= currentSection < count - 1 ==>
      HandleNext(currentSection, count) == Some(currentSection + 1) && HandlePrevious(currentSection + 1) == Some(currentSection)
  {
  }

  /** The `isActive` flags of the planet buttons, in order. */
  function ActiveFlags(currentSection: int, count: nat): (flags: seq<bool>)
    ensures |flags| == count
    ensures forall i :: 0 <= i < count ==> flags[i] == ButtonIsActive(currentSection, i)
  {
    seq(count, i => ButtonIsActive(currentSection, i))
  }

  function CountTrue(flags: seq<bool>): (r: nat) {
    if flags == [] then 0 else CountTrue(flags[..|flags| - 1]) + (if flags[|flags| - 1] then 1 else 0)
  }

  /** Exactly one planet button is highlighted when the section is in range, and none otherwise. */
  lemma {:induction false} ExactlyOneActive(currentSection: int, count: nat)
    ensures CountTrue(ActiveFlags(currentSection, count)) == (if 0 <= currentSection < count then 1 else 0)
  {
    if count > 0 {
      ExactlyOneActive(currentSection, count - 1);
      assert ActiveFlags(currentSection, count)[..count - 1] == ActiveFlags(currentSection, count - 1);
    }
  }
}
