/**
 * The pane state of the triple container: the child controller in each of the
 * three slots and the two constraint constants that push the side containers
 * off screen, with the pure queries the container asks of that state
 * (TripleViewController.swift, `controller(at:)`, `isControllerHidden(at:)`,
 * `sideViewControllers`, `allVisibleControllers`, the middle size class and
 * `size(forChildContentContainer:withParentContainerSize:)`).
 */
module Panes {

  datatype Option<T> = None | Some(value: T)

  /** A collapsible side pane (`TripleViewControllerPosition`). */
  datatype Position = Left | Right {
    function Opposite(): (q: Position)
      ensures q != this
    {
      if this == Left then Right else Left
    }
  }

  /** `TripleViewControllerPosition.all`, in its order. */
  const AllPositions: seq<Position> := [Left, Right]

  lemma AllPositionsComplete()
    ensures forall p: Position :: p in AllPositions
  {
    forall p: Position ensures p in AllPositions {
      if p == Left { assert AllPositions[0] == p; } else { assert AllPositions[1] == p; }
    }
  }

  datatype SizeClass = Compact | Regular

  /** An override trait collection: a horizontal and a vertical size class. */
  datatype Traits = Traits(horizontal: SizeClass, vertical: SizeClass)

  datatype Size = Size(width: int, height: int)

  /**
   * A child view controller. Two controllers are the same object exactly when
   * they are equal; `viewWidth` is the width of the child's root view bounds,
   * which is what a hiding pane's offset is set to.
   */
  datatype Controller = Controller(id: nat, viewWidth: int)

  /**
   * The container's stored state. `leftOffset` is the constant of
   * `leftControllerContainerLeadingConstraint`, `rightOffset` the constant of
   * `rightControllerContainerTrailingConstraint`: 0 keeps the side container on
   * screen, a positive value pushes it off by that many points.
   */
  datatype State = State(
    middle: Controller,
    left: Option<Controller>,
    right: Option<Controller>,
    leftOffset: int,
    rightOffset: int)

  /** `controller(at:)` */
  function ControllerAt(s: State, p: Position): Option<Controller>
  {
    match p
    case Left => s.left
    case Right => s.right
  }

  /** `controller(at:)` reads the slot of its own position and no other. */
  lemma ControllerAtReadsOwnSlot(s: State, o: Option<Controller>)
    ensures ControllerAt(s.(left := o), Left) == o && ControllerAt(s.(left := o), Right) == ControllerAt(s, Right)
    ensures ControllerAt(s.(right := o), Right) == o && ControllerAt(s.(right := o), Left) == ControllerAt(s, Left)
  {
  }

  function Offset(s: State, p: Position): int
  {
    match p
    case Left => s.leftOffset
    case Right => s.rightOffset
  }

  /** `isControllerHidden(at:)`: the offset, not a stored flag, decides. */
  predicate IsHidden(s: State, p: Position)
  {
    Offset(s, p) > 0
  }

  /**
   * Setting a pane's constant decides its visibility alone: the pane is hidden
   * exactly when the constant is positive (a constant of 0, the value used to
   * "hide" a view of zero width, leaves it shown), and the other pane keeps its
   * state.
   */
  lemma IsHiddenByOffset(s: State, p: Position, o: int)
    ensures IsHidden(WithOffset(s, p, o), p) <==> o > 0
    ensures IsHidden(WithOffset(s, p, o), p.Opposite()) == IsHidden(s, p.Opposite())
  {
  }

  /** The state with child `c` in side slot `p` and nothing else changed. */
  function WithController(s: State, p: Position, c: Controller): (r: State)
    ensures ControllerAt(r, p) == Some(c)
    ensures ControllerAt(r, p.Opposite()) == ControllerAt(s, p.Opposite())
    ensures r.middle == s.middle
    ensures forall q :: Offset(r, q) == Offset(s, q)
  {
    match p
    case Left => s.(left := Some(c))
    case Right => s.(right := Some(c))
  }

  /** The state with the constant of pane `p` set to `o` and nothing else changed. */
  function WithOffset(s: State, p: Position, o: int): (r: State)
    ensures Offset(r, p) == o
    ensures Offset(r, p.Opposite()) == Offset(s, p.Opposite())
    ensures r.middle == s.middle
    ensures forall q :: ControllerAt(r, q) == ControllerAt(s, q)
  {
    match p
    case Left => s.(leftOffset := o)
    case Right => s.(rightOffset := o)
  }

  /** `ps.map { controller(at: $0) }.compactMap { $0 }`: the installed children at `ps`, in order. */
  function InstalledAt(s: State, ps: seq<Position>): (r: seq<Controller>)
    ensures |r| <= |ps|
    ensures forall c :: c in r <==> exists p :: p in ps && ControllerAt(s, p) == Some(c)
  {
    if ps == [] then []
    else
      var head := match ControllerAt(s, ps[0]) case Some(c) => [c] case None => [];
      assert forall p :: p in ps <==> p == ps[0] || p in ps[1..];
      head + InstalledAt(s, ps[1..])
  }

  /** `ps.filter { !isControllerHidden(at: $0) }`: the shown panes among `ps`, in order. */
  function ShownAmong(s: State, ps: seq<Position>): (r: seq<Position>)
    ensures |r| <= |ps|
    ensures forall p :: p in r <==> p in ps && !IsHidden(s, p)
  {
    if ps == [] then []
    else
      assert forall p :: p in ps <==> p == ps[0] || p in ps[1..];
      (if IsHidden(s, ps[0]) then [] else [ps[0]]) + ShownAmong(s, ps[1..])
  }

  /** `sideViewControllers`: every installed side child, left first. */
  function SideControllers(s: State): (r: seq<Controller>)
    ensures forall c :: c in r <==> exists p :: ControllerAt(s, p) == Some(c)
  {
    AllPositionsComplete();
    InstalledAt(s, AllPositions)
  }

  /**
   * `allVisibleControllers`: the middle child first, then every installed side
   * child whose pane is not hidden.
   */
  function VisibleControllers(s: State): (r: seq<Controller>)
    ensures |r| >= 1 && r[0] == s.middle
    ensures forall c :: c in r <==>
      c == s.middle || exists p :: ControllerAt(s, p) == Some(c) && !IsHidden(s, p)
  {
    AllPositionsComplete();
    [s.middle] + InstalledAt(s, ShownAmong(s, AllPositions))
  }

  /** The number of side panes whose container is on screen. */
  function ShownCount(s: State): nat
  {
    |ShownAmong(s, AllPositions)|
  }

  lemma ShownCountByPane(s: State)
    ensures ShownCount(s) == (if IsHidden(s, Left) then 0 else 1) + (if IsHidden(s, Right) then 0 else 1)
  {
    var tail := AllPositions[1..];
    assert tail == [Right] && tail[1..] == [];
    assert ShownAmong(s, tail) == (if IsHidden(s, Right) then [] else [Right]) + ShownAmong(s, []);
    assert ShownAmong(s, AllPositions) == (if IsHidden(s, Left) then [] else [Left]) + ShownAmong(s, tail);
  }

  /** The trait collection every installed side child is given. */
  function SideTraits(): Traits
  {
    Traits(Compact, Regular)
  }

  /** `updateOverrideTraitCollectionForMiddleController`: the middle child's horizontal class. */
  function MiddleHorizontal(portrait: bool, leftHidden: bool, rightHidden: bool): (r: SizeClass)
    ensures r == Regular <==>
      (if leftHidden then 0 else 1) + (if rightHidden then 0 else 1) < RegularBudget(portrait)
  {
    if portrait then
      (if leftHidden && rightHidden then Regular else Compact)
    else
      (if !leftHidden && !rightHidden then Compact else Regular)
  }

  /** The trait collection the middle child is given. */
  function MiddleTraits(s: State, portrait: bool): (r: Traits)
    ensures r.vertical == Regular
    ensures r.horizontal == Regular <==> ShownCount(s) < RegularBudget(portrait)
  {
    ShownCountByPane(s);
    Traits(MiddleHorizontal(portrait, IsHidden(s, Left), IsHidden(s, Right)), Regular)
  }

  /** The number of shown side panes at which the middle child turns horizontally compact. */
  function RegularBudget(portrait: bool): nat
  {
    if portrait then 1 else 2
  }

  /**
   * The truth table of lines 192-196 pane by pane: in portrait the middle child
   * is regular exactly when both side panes are hidden, in landscape it is
   * compact exactly when both are shown.
   */
  lemma MiddleTraitsByShownCount(s: State, portrait: bool)
    ensures portrait ==> (MiddleTraits(s, portrait).horizontal == Regular <==> IsHidden(s, Left) && IsHidden(s, Right))
    ensures !portrait ==> (MiddleTraits(s, portrait).horizontal == Compact <==> !IsHidden(s, Left) && !IsHidden(s, Right))
  {
    ShownCountByPane(s);
  }

  /**
   * `size(forChildContentContainer:withParentContainerSize:)` for the children it
   * handles. `sideWidth` is the side container width the source derives from the
   * parent size, `separators` the summed widths of the two separator views and
   * `bottomGuide` the length of the bottom layout guide. `None` means the call
   * is passed on to the superclass.
   */
  function ChildSize(s: State, child: Controller, parent: Size, sideWidth: int, separators: int, bottomGuide: int): (r: Option<Size>)
    ensures child == s.middle ==>
      r == Some(Size(parent.width - sideWidth * ShownCount(s) - separators, parent.height - bottomGuide))
    ensures child != s.middle && (exists p :: ControllerAt(s, p) == Some(child)) ==>
      r == Some(Size(sideWidth, parent.height))
    ensures child != s.middle && (forall p :: ControllerAt(s, p) != Some(child)) ==> r == None
  {
    ShownCountByPane(s);
    assert ControllerAt(s, Left) == s.left && ControllerAt(s, Right) == s.right;
    if child == s.middle then
      var leftWidth := if IsHidden(s, Left) then 0 else sideWidth;
      var rightWidth := if IsHidden(s, Right) then 0 else sideWidth;
      Some(Size(parent.width - (leftWidth + rightWidth + separators), parent.height - bottomGuide))
    else if s.left == Some(child) || s.right == Some(child) then
      Some(Size(sideWidth, parent.height))
    else
      None
  }

  /** An empty side slot is never on screen: its offset keeps it hidden. */
  ghost predicate EmptyPanesHidden(s: State)
  {
    forall p :: ControllerAt(s, p).None? ==> IsHidden(s, p)
  }

  /** Installing a child never brings an empty slot on screen. */
  lemma WithControllerKeepsEmptyPanesHidden(s: State, p: Position, c: Controller)
    ensures EmptyPanesHidden(s) ==> EmptyPanesHidden(WithController(s, p, c))
  {
    if EmptyPanesHidden(s) {
      forall q | ControllerAt(WithController(s, p, c), q).None?
        ensures IsHidden(WithController(s, p, c), q)
      {
        assert q != p;
      }
    }
  }

  /** Every installed side child has a root view of positive width. */
  ghost predicate PositiveWidths(s: State)
  {
    forall p :: ControllerAt(s, p).Some? ==> ControllerAt(s, p).value.viewWidth > 0
  }

  /** At most one side pane is on screen. */
  predicate AtMostOneShown(s: State)
  {
    IsHidden(s, Left) || IsHidden(s, Right)
  }

  lemma AtMostOneShownByCount(s: State)
    ensures AtMostOneShown(s) <==> ShownCount(s) <= 1
  {
    ShownCountByPane(s);
  }
}
