/**
 * The navigation state machine of presemd's viewer (`PresentationApp` in `app.rs`): per-slide
 * reveal steps, the current slide, the running transition and the slide-overview grid.
 */
module App {
  import opened Wrappers
  import opened Transition

  /** `AppMode`: the slide view, or the overview grid with a selected slide. */
  datatype Mode = Presentation | Grid(selected: nat)

  /** A snapshot of the fields navigation reads and writes. */
  datatype AppState = AppState(
    maxSteps: seq<nat>,
    defaultTransition: Kind,
    current: nat,
    mode: Mode,
    transition: Option<Active>,
    revealed: seq<nat>,
    showHud: bool)
  {
    function Count(): nat {
      |maxSteps|
    }
  }

  /**
   * What the viewer keeps true: a deck has slides (`run` refuses an empty one), one reveal entry
   * per slide never past that slide's maximum, and every slide index it holds is in range.
   */
  predicate Inv(s: AppState) {
    && s.Count() > 0
    && |s.revealed| == s.Count()
    && s.current < s.Count()
    && (forall i :: 0 <= i < s.Count() ==> s.revealed[i] <= s.maxSteps[i])
    && (s.transition.Some? ==> s.transition.value.from < s.Count() && s.transition.value.to < s.Count())
    && (s.mode.Grid? ==> s.mode.selected < s.Count())
  }

  /** `PresentationApp::new`: first slide, nothing revealed, no transition, slide view. */
  function Init(maxSteps: seq<nat>, kind: Kind): AppState {
    AppState(maxSteps, kind, 0, Presentation, None, seq(|maxSteps|, _ => 0), false)
  }

  /** `navigate_forward`. */
  function StepForward(s: AppState): AppState
    requires Inv(s)
  {
    var idx := s.current;
    if s.transition.Some? then s
    else if s.revealed[idx] < s.maxSteps[idx] then s.(revealed := s.revealed[idx := s.revealed[idx] + 1])
    else if idx >= s.Count() - 1 then s
    else s.(transition := Some(Active(idx, idx + 1, s.defaultTransition, Forward)))
  }

  /** `navigate_backward`: the previous slide is shown fully revealed. */
  function StepBackward(s: AppState): AppState
    requires Inv(s)
  {
    var idx := s.current;
    if s.transition.Some? then s
    else if s.revealed[idx] > 0 then s.(revealed := s.revealed[idx := s.revealed[idx] - 1])
    else if idx == 0 then s
    else
      s.(revealed := s.revealed[idx - 1 := s.maxSteps[idx - 1]],
         transition := Some(Active(idx, idx - 1, s.defaultTransition, Backward)))
  }

  /** `jump_to_slide`. */
  function JumpTo(s: AppState, index: nat): AppState {
    if index < s.Count() && s.transition.None? then s.(current := index) else s
  }

  /** The end of a transition (`is_complete` in `update`): the target becomes the current slide. */
  function Complete(s: AppState): AppState {
    match s.transition
    case Some(t) => s.(transition := None, current := t.to)
    case None => s
  }

  /** `grid_columns`. */
  function GridColumns(count: nat): (cols: nat)
    ensures 2 <= cols <= 4
  {
    if count <= 4 then 2 else if count <= 9 then 3 else 4
  }

  /** Escape in the slide view: the grid opens on the current slide and the HUD hides. */
  function OpenGrid(s: AppState): AppState {
    s.(mode := Grid(s.current), showHud := false)
  }

  /** Arrow keys in the grid; moves stop at the first and the last slide. */
  function GridRight(s: AppState): AppState
    requires s.mode.Grid? && s.Count() > 0
  {
    s.(mode := Grid(Min(s.mode.selected + 1, s.Count() - 1)))
  }

  function GridLeft(s: AppState): AppState
    requires s.mode.Grid?
  {
    s.(mode := Grid(SaturatingSub(s.mode.selected, 1)))
  }

  function GridDown(s: AppState): AppState
    requires s.mode.Grid? && s.Count() > 0
  {
    s.(mode := Grid(Min(s.mode.selected + GridColumns(s.Count()), s.Count() - 1)))
  }

  function GridUp(s: AppState): AppState
    requires s.mode.Grid?
  {
    s.(mode := Grid(SaturatingSub(s.mode.selected, GridColumns(s.Count()))))
  }

  /** Enter in the grid: show the selected slide. */
  function GridEnter(s: AppState): AppState
    requires s.mode.Grid?
  {
    s.(current := s.mode.selected, mode := Presentation)
  }

  /** Escape in the grid: back to the slide view, current slide unchanged. */
  function CloseGrid(s: AppState): AppState {
    s.(mode := Presentation)
  }

  function Min(a: nat, b: nat): nat {
    if a <= b then a else b
  }

  /** `usize::saturating_sub`. */
  function SaturatingSub(a: nat, b: nat): nat {
    if a >= b then a - b else 0
  }

  // ---------------------------------------------------------------------------------------
  // What navigation keeps and what it undoes
  // ---------------------------------------------------------------------------------------

  lemma InitInv(maxSteps: seq<nat>, kind: Kind)
    requires |maxSteps| > 0
    ensures Inv(Init(maxSteps, kind))
    ensures forall i :: 0 <= i < |maxSteps| ==> Init(maxSteps, kind).revealed[i] == 0
  {
  }

  /** Navigation keeps the invariant: no reveal passes its maximum, no index leaves the deck. */
  lemma ForwardKeepsInv(s: AppState)
    requires Inv(s)
    ensures Inv(StepForward(s))
  {
  }

  lemma BackwardKeepsInv(s: AppState)
    requires Inv(s)
    ensures Inv(StepBackward(s))
  {
    var b := StepBackward(s);
    if s.transition.None? && s.revealed[s.current] == 0 && s.current > 0 {
      forall i | 0 <= i < s.Count() ensures b.revealed[i] <= b.maxSteps[i] {
      }
    }
  }

  /** Jumps, completed transitions and the grid keep the invariant too. */
  lemma MovesKeepInv(s: AppState, index: nat)
    requires Inv(s)
    ensures Inv(JumpTo(s, index)) && Inv(Complete(s)) && Inv(OpenGrid(s)) && Inv(CloseGrid(s))
  {
  }

  lemma GridKeepsInv(s: AppState, key: GridKeyPress)
    requires Inv(s) && s.mode.Grid?
    ensures Inv(GridKeyStep(s, key))
  {
  }

  /** Forward reveals one more item of the current slide, or else starts moving to the next one. */
  lemma ForwardSpec(s: AppState)
    requires Inv(s) && s.transition.None?
    ensures var f := StepForward(s);
      && f.current == s.current
      && (s.revealed[s.current] < s.maxSteps[s.current] ==>
            f.revealed[s.current] == s.revealed[s.current] + 1 && f.transition.None?)
      && (forall i :: 0 <= i < s.Count() && i != s.current ==> f.revealed[i] == s.revealed[i])
      && (s.revealed[s.current] == s.maxSteps[s.current] && s.current + 1 < s.Count() ==>
            f.transition == Some(Active(s.current, s.current + 1, s.defaultTransition, Forward)))
      && (s.revealed[s.current] == s.maxSteps[s.current] && s.current + 1 == s.Count() ==> f == s)
  {
  }

  /** While a transition runs, navigation and jumps are ignored. */
  lemma BusyIgnoresKeys(s: AppState, index: nat)
    requires Inv(s) && s.transition.Some?
    ensures StepForward(s) == s && StepBackward(s) == s && JumpTo(s, index) == s
  {
  }

  /** Backward takes back the item Forward just revealed. */
  lemma BackwardUndoesReveal(s: AppState)
    requires Inv(s) && s.transition.None? && s.revealed[s.current] < s.maxSteps[s.current]
    ensures Inv(StepForward(s)) && StepBackward(StepForward(s)) == s
  {
    var f := StepForward(s);
    assert f.revealed[s.current := s.revealed[s.current]] == s.revealed;
  }

  /** Forward puts back the item Backward just hid. */
  lemma ForwardRedoesHide(s: AppState)
    requires Inv(s) && s.transition.None? && s.revealed[s.current] > 0
    ensures Inv(StepBackward(s)) && StepForward(StepBackward(s)) == s
  {
    var b := StepBackward(s);
    assert b.revealed[s.current := s.revealed[s.current]] == s.revealed;
  }

  /**
   * Leaving a fully revealed slide for an untouched next slide and coming back restores every
   * field: the slide returned to is again fully revealed.
   */
  lemma NextThenBack(s: AppState)
    requires Inv(s) && s.transition.None? && s.current + 1 < s.Count()
    requires s.revealed[s.current] == s.maxSteps[s.current] && s.revealed[s.current + 1] == 0
    ensures var there := Complete(StepForward(s));
      && Inv(there) && there.current == s.current + 1
      && Complete(StepBackward(there)) == s
  {
    var f := StepForward(s);
    var there := Complete(f);
    ForwardKeepsInv(s);
    MovesKeepInv(f, 0);
    var b := StepBackward(there);
    assert b.revealed == s.revealed[s.current := s.maxSteps[s.current]];
    assert s.revealed[s.current := s.maxSteps[s.current]] == s.revealed;
  }

  /** Home and End reach the first and the last slide when nothing is moving. */
  lemma HomeEnd(s: AppState)
    requires Inv(s) && s.transition.None?
    ensures JumpTo(s, 0).current == 0
    ensures JumpTo(s, SaturatingSub(s.Count(), 1)).current == s.Count() - 1
  {
  }

  /** Slides fill a near-square grid: up to 9 slides fit in `cols` rows of `cols`, and more slides never mean fewer columns. */
  lemma GridColumnsShape(a: nat, b: nat)
    ensures a <= 9 ==> a <= GridColumns(a) * GridColumns(a)
    ensures a <= b ==> GridColumns(a) <= GridColumns(b)
  {
  }

  /** Right then Left, and Down then Up, return to the selected slide unless an edge stopped the move. */
  lemma GridMovesUndo(s: AppState)
    requires Inv(s) && s.mode.Grid?
    ensures s.mode.selected + 1 < s.Count() ==> GridLeft(GridRight(s)) == s
    ensures s.mode.selected > 0 ==> GridRight(GridLeft(s)) == s
    ensures s.mode.selected + GridColumns(s.Count()) < s.Count() ==> GridUp(GridDown(s)) == s
    ensures s.mode.selected >= GridColumns(s.Count()) ==> GridDown(GridUp(s)) == s
  {
  }

  /** Opening the grid and pressing Enter, or Escape, lands on the same slide in the slide view. */
  lemma GridRoundTrip(s: AppState)
    requires Inv(s)
    ensures GridEnter(OpenGrid(s)).current == s.current && GridEnter(OpenGrid(s)).mode == Presentation
    ensures CloseGrid(OpenGrid(s)) == s.(showHud := false, mode := Presentation)
  {
  }

  // ---------------------------------------------------------------------------------------
  // The object
  // ---------------------------------------------------------------------------------------

  /** `PresentationApp`, restricted to the navigation fields. */
  class PresentationApp {
    const maxSteps: seq<nat>
    const defaultTransition: Kind
    var currentSlide: nat
    var mode: Mode
    var transition: Option<Active>
    var revealSteps: seq<nat>
    var showHud: bool

    function State(): AppState
      reads this
    {
      AppState(maxSteps, defaultTransition, currentSlide, mode, transition, revealSteps, showHud)
    }

    ghost predicate Valid()
      reads this
    {
      Inv(State())
    }

    function SlideCount(): nat
      reads this
    {
      |maxSteps|
    }

    /**
     * `new`, given the per-slide maxima (`compute_max_steps`) and the front matter's transition
     * name, if any: presemd's map picks the default transition, "slide" when none is named.
     */
    constructor (maxSteps: seq<nat>, transitionName: Option<string>)
      requires |maxSteps| > 0
      ensures Valid()
      ensures State() == Init(maxSteps, PresemdFromName(transitionName.GetOr("slide")))
      ensures transitionName.None? ==> defaultTransition == SlideHorizontal
      ensures defaultTransition != Spatial
    {
      this.maxSteps := maxSteps;
      defaultTransition := PresemdFromName(transitionName.GetOr("slide"));
      currentSlide := 0;
      mode := Presentation;
      transition := None;
      revealSteps := seq(|maxSteps|, _ => 0);
      showHud := false;
    }

    method NavigateForward()
      requires Valid()
      modifies this
      ensures Valid()
      ensures State() == StepForward(old(State()))
    {
      ForwardKeepsInv(State());
      if transition.Some? {
        return;
      }
      var idx := currentSlide;
      if revealSteps[idx] < maxSteps[idx] {
        revealSteps := revealSteps[idx := revealSteps[idx] + 1];
        return;
      }
      if idx >= SaturatingSub(SlideCount(), 1) {
        return;
      }
      transition := Some(Active(idx, idx + 1, defaultTransition, Forward));
    }

    method NavigateBackward()
      requires Valid()
      modifies this
      ensures Valid()
      ensures State() == StepBackward(old(State()))
    {
      BackwardKeepsInv(State());
      if transition.Some? {
        return;
      }
      var idx := currentSlide;
      if revealSteps[idx] > 0 {
        revealSteps := revealSteps[idx := revealSteps[idx] - 1];
        return;
      }
      if idx == 0 {
        return;
      }
      var prev := idx - 1;
      revealSteps := revealSteps[prev := maxSteps[prev]];
      transition := Some(Active(idx, prev, defaultTransition, Backward));
    }

    method JumpToSlide(index: nat)
      requires Valid()
      modifies this
      ensures Valid()
      ensures State() == JumpTo(old(State()), index)
    {
      MovesKeepInv(State(), index);
      if index < SlideCount() && transition.None? {
        currentSlide := index;
      }
    }

    method CompleteTransition()
      requires Valid()
      modifies this
      ensures Valid()
      ensures State() == Complete(old(State()))
    {
      MovesKeepInv(State(), 0);
      if transition.Some? {
        var to := transition.value.to;
        transition := None;
        currentSlide := to;
      }
    }

    /** Escape: the key that switches between the slide view and the grid. */
    method Escape()
      requires Valid()
      modifies this
      ensures Valid()
      ensures old(mode).Presentation? ==> State() == OpenGrid(old(State()))
      ensures old(mode).Grid? ==> State() == CloseGrid(old(State()))
    {
      MovesKeepInv(State(), 0);
      match mode {
        case Presentation =>
          mode := Grid(currentSlide);
          showHud := false;
        case Grid(_) =>
          mode := Presentation;
      }
    }

    /** The grid's arrow keys and Enter; other keys and the slide view leave the state alone. */
    method GridKey(key: GridKeyPress)
      requires Valid()
      modifies this
      ensures Valid()
      ensures State() == (if old(mode).Grid? then GridKeyStep(old(State()), key) else old(State()))
    {
      if mode.Presentation? {
        return;
      }
      GridKeepsInv(State(), key);
      var selected := mode.selected;
      var cols := GridColumns(SlideCount());
      var count := SlideCount();
      match key {
        case Right => mode := Grid(Min(selected + 1, SaturatingSub(count, 1)));
        case Left => mode := Grid(SaturatingSub(selected, 1));
        case Down => mode := Grid(Min(selected + cols, SaturatingSub(count, 1)));
        case Up => mode := Grid(SaturatingSub(selected, cols));
        case Enter =>
          currentSlide := selected;
          mode := Presentation;
      }
    }
  }

  datatype GridKeyPress = Right | Left | Down | Up | Enter

  function GridKeyStep(s: AppState, key: GridKeyPress): AppState
    requires Inv(s) && s.mode.Grid?
  {
    match key
    case Right => GridRight(s)
    case Left => GridLeft(s)
    case Down => GridDown(s)
    case Up => GridUp(s)
    case Enter => GridEnter(s)
  }
}
