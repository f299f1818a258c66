/**
 * Slide transitions (`render/transition.rs` of mdeck): the kind named in the front matter, and
 * the direction a spatial transition moves in when slides sit on a grid.
 */
module Transition {
  /** `TransitionKind`; the source's `None` variant is `Cut` here, to keep clear of `Option`. */
  datatype Kind = Fade | SlideHorizontal | Spatial | Cut

  datatype Direction = Forward | Backward

  /** `ActiveTransition` without its start time: completion is an explicit event in this model. */
  datatype Active = Active(from: nat, to: nat, kind: Kind, direction: Direction)

  /** `TransitionKind::from_name`: the four known names, anything else slides. */
  function FromName(name: string): Kind {
    match name
    case "fade" => Fade
    case "slide" => SlideHorizontal
    case "spatial" => Spatial
    case "none" => Cut
    case _ => SlideHorizontal
  }

  /** The name that selects each kind. */
  function Name(k: Kind): string {
    match k
    case Fade => "fade"
    case SlideHorizontal => "slide"
    case Spatial => "spatial"
    case Cut => "none"
  }

  /** Every kind is reachable by its name. */
  lemma FromNameName(k: Kind)
    ensures FromName(Name(k)) == k
  {
  }

  /** A kind other than the default is chosen only by its own name; anything unknown slides. */
  lemma FromNameOnly(name: string)
    ensures FromName(name) != SlideHorizontal ==> name == Name(FromName(name))
    ensures name !in {"fade", "spatial", "none"} ==> FromName(name) == SlideHorizontal
  {
  }

  /**
   * presemd's `TransitionKind::from_name` (the presenter's own copy of the map): it has no
   * spatial transition, so "spatial" slides horizontally like any other unknown name.
   */
  function PresemdFromName(name: string): (k: Kind)
    ensures k != Spatial
    ensures name != "spatial" ==> k == FromName(name)
    ensures name == "spatial" ==> k == SlideHorizontal
  {
    match name
    case "fade" => Fade
    case "slide" => SlideHorizontal
    case "none" => Cut
    case _ => SlideHorizontal
  }

  lemma FromNameExamples()
    ensures FromName("spatial") == Spatial && FromName("fade") == Fade
    ensures FromName("slide") == SlideHorizontal && FromName("none") == Cut
    ensures FromName("unknown") == SlideHorizontal
  {
  }

  /** `isize::signum`. */
  function Sign(x: int): (s: int)
    ensures s == 0 || s == 1 || s == -1
    ensures s > 0 <==> x > 0
    ensures s < 0 <==> x < 0
  {
    if x > 0 then 1 else if x < 0 then -1 else 0
  }

  /**
   * `spatial_direction`: slide `i` sits at column `i % cols`, row `i / cols`; the result points
   * from the `from` cell to the `to` cell, one sign per axis. `cols` is never 0 (division by it).
   */
  function SpatialDirection(t: Active, cols: nat): (d: (int, int))
    requires cols > 0
  {
    (Sign(t.to % cols - t.from % cols), Sign(t.to / cols - t.from / cols))
  }

  /** Each component is -1, 0 or 1, positive exactly when the target is to the right of / below the source. */
  lemma SpatialDirectionSpec(t: Active, cols: nat)
    requires cols > 0
    ensures var d := SpatialDirection(t, cols);
      && d.0 in {-1, 0, 1} && d.1 in {-1, 0, 1}
      && (d.0 > 0 <==> t.to % cols > t.from % cols)
      && (d.0 == 0 <==> t.to % cols == t.from % cols)
      && (d.1 > 0 <==> t.to / cols > t.from / cols)
      && (d.1 == 0 <==> t.to / cols == t.from / cols)
  {
  }

  /** Going back is the mirror image of going forward; staying put does not move. */
  lemma SpatialDirectionSwap(t: Active, cols: nat)
    requires cols > 0
    ensures var back := SpatialDirection(t.(from := t.to, to := t.from), cols);
      back == (-SpatialDirection(t, cols).0, -SpatialDirection(t, cols).1)
    ensures t.from == t.to ==> SpatialDirection(t, cols) == (0, 0)
  {
  }

  /** The four cases of a four-column grid. */
  lemma SpatialDirectionExamples(kind: Kind, dir: Direction)
    ensures SpatialDirection(Active(0, 1, kind, dir), 4) == (1, 0)
    ensures SpatialDirection(Active(3, 4, kind, dir), 4) == (-1, 1)
    ensures SpatialDirection(Active(2, 1, kind, dir), 4) == (-1, 0)
    ensures SpatialDirection(Active(0, 4, kind, dir), 4) == (0, 1)
  {
    assert 0 % 4 == 0 && 0 / 4 == 0 && 1 % 4 == 1 && 1 / 4 == 0 && 2 % 4 == 2 && 2 / 4 == 0;
    assert 3 % 4 == 3 && 3 / 4 == 0 && 4 % 4 == 0 && 4 / 4 == 1;
  }
}
