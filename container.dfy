/**
 * `TripleViewController` as an object: the three child slots and the two
 * constraint constants are fields that its methods update in place, and every
 * signal it sends to a child is appended to `log`. Each method is proved to
 * perform exactly the step the matching function of `Transitions` describes.
 */
module Container {
  import opened Panes
  import T = Transitions

  class TripleViewController {
    var middleController: Controller
    var leftController: Option<Controller>
    var rightController: Option<Controller>
    /** `leftControllerContainerLeadingConstraint.constant` */
    var leftLeadingConstant: int
    /** `rightControllerContainerTrailingConstraint.constant` */
    var rightTrailingConstant: int
    /** Every signal sent to a child so far, oldest first. */
    var log: seq<T.Event>
    /** Completion blocks that UIKit has not run yet, oldest first. */
    var pending: seq<T.Completion>

    function PaneState(): State
      reads this
    {
      State(middleController, leftController, rightController, leftLeadingConstant, rightTrailingConstant)
    }

    function Snapshot(): T.Machine
      reads this
    {
      T.Machine(PaneState(), log, pending)
    }

    /** An empty side slot is always pushed off screen. */
    ghost predicate Valid()
      reads this
    {
      EmptyPanesHidden(PaneState())
    }

    /**
     * `init(leftController:middleController:)`. `sideWidth` is the side container
     * width computed from the view's bounds, `portrait` the interface orientation.
     */
    constructor (left: Controller, middle: Controller, sideWidth: int, portrait: bool)
      requires sideWidth > 0
      ensures Valid()
      ensures Snapshot() == T.Initial(left, middle, sideWidth, portrait)
    {
      leftController := Some(left);
      middleController := middle;
      rightController := None;
      leftLeadingConstant := 0;
      rightTrailingConstant := sideWidth;
      log := [];
      pending := [];
      new;
      SetMiddleController(middle, portrait);
      SetSideController(left, Left, portrait);
      T.InitialState(left, middle, sideWidth, portrait);
    }

    /** `controller(at:)` */
    method GetController(p: Position) returns (c: Option<Controller>)
      ensures c == ControllerAt(PaneState(), p)
    {
      match p
      case Left => c := leftController;
      case Right => c := rightController;
    }

    /** `isControllerHidden(at:)`: hidden exactly when the pane's constant is positive. */
    method IsControllerHidden(p: Position) returns (hidden: bool)
      ensures hidden == IsHidden(PaneState(), p)
    {
      match p
      case Left => hidden := leftLeadingConstant > 0;
      case Right => hidden := rightTrailingConstant > 0;
    }

    /** `set(controller:at:)` */
    method SetSideController(c: Controller, p: Position, portrait: bool)
      requires Valid()
      modifies this
      ensures Valid()
      ensures Snapshot() == T.SetSideController(old(Snapshot()), c, p, portrait)
    {
      ghost var before := Snapshot();
      var previous := GetController(p);
      InstallChildController(c, previous, T.ContainerFor(p));
      ghost var installed := log;
      var hidden := IsControllerHidden(p);
      ghost var begin: seq<T.Event> := if hidden then [] else [T.BeginAppearance(c, true, false)];
      if !hidden {
        log := log + [T.BeginAppearance(c, true, false)];
      }
      assert log == installed + begin;
      ghost var begun := log;
      match p {
        case Left => leftController := Some(c);
        case Right => rightController := Some(c);
      }
      assert PaneState() == WithController(before.state, p, c);
      UpdateOverrideTraitCollection(portrait);
      ghost var updated := log;
      hidden := IsControllerHidden(p);
      ghost var end: seq<T.Event> := if hidden then [] else [T.EndAppearance(c)];
      if !hidden {
        log := log + [T.EndAppearance(c)];
      }
      assert log == updated + end;
      T.SetSideControllerSteps(before, c, p, portrait, begin, end);
    }

    /** `set(middleController:)` */
    method SetMiddleController(c: Controller, portrait: bool)
      requires Valid()
      modifies this
      ensures Valid()
      ensures Snapshot() == T.SetMiddleController(old(Snapshot()), c, portrait)
    {
      InstallChildController(c, Some(middleController), T.MiddleContainer);
      var previous := middleController;
      log := log + [T.BeginAppearance(previous, false, false), T.BeginAppearance(c, true, false)];
      middleController := c;
      UpdateOverrideTraitCollection(portrait);
      log := log + [T.EndAppearance(previous), T.EndAppearance(c)];
      assert T.SetMiddleController(old(Snapshot()), c, portrait).state == PaneState();
    }

    /** `toggleContoller(at:)` */
    method ToggleController(p: Position, portrait: bool)
      requires Valid() && ControllerAt(PaneState(), p).Some?
      modifies this
      ensures Valid()
      ensures T.ToggleController(old(Snapshot()), p, portrait) == T.Done(Snapshot())
    {
      var isHidden := IsControllerHidden(p);
      SetController(p, !isHidden, portrait);
    }

    /**
     * `setController(at:hidden:)`, with the correction that an empty opposite
     * slot, which is hidden anyway, is not forced hidden in portrait.
     */
    method SetController(p: Position, hidden: bool, portrait: bool)
      requires Valid() && ControllerAt(PaneState(), p).Some?
      modifies this
      ensures Valid()
      ensures T.SetController(old(Snapshot()), p, hidden, portrait) == T.Done(Snapshot())
    {
      if portrait {
        var opposite := GetController(p.Opposite());
        if opposite.Some? {
          SetViewController(p.Opposite(), true, true, portrait);
        }
      }
      SetViewController(p, hidden, true, portrait);
    }

    /**
     * `setViewController(at:hidden:animated:)`. The offset is set at once; the
     * animation's completion, which ends the child's appearance transition, is
     * queued.
     */
    method SetViewController(p: Position, hidden: bool, animated: bool, portrait: bool)
      requires Valid() && ControllerAt(PaneState(), p).Some?
      modifies this
      ensures Valid()
      ensures T.SetViewController(old(Snapshot()), p, hidden, animated, portrait) == T.Done(Snapshot())
    {
      var c := GetController(p);
      var isHidden := IsControllerHidden(p);
      if isHidden == hidden {
        return;
      }
      ghost var before := Snapshot();
      var child := c.value;
      var constant := if hidden then child.viewWidth else 0;
      log := log + [T.BeginAppearance(child, !hidden, animated)];
      ghost var begun := log;
      match p {
        case Left => leftLeadingConstant := constant;
        case Right => rightTrailingConstant := constant;
      }
      assert PaneState() == WithOffset(before.state, p, constant);
      pending := pending + [T.AppearanceEnd(p)];
      UpdateOverrideTraitCollection(portrait);
      assert log == begun + T.TraitEvents(WithOffset(before.state, p, constant), portrait);
      T.SetViewControllerSteps(before, p, hidden, animated, portrait, child);
    }

    /**
     * `viewWillTransition(to:with:)`: queue the trait update for the end of the
     * size transition, then hide the right pane if both side panes are shown
     * and the orientation is not portrait.
     */
    method ViewWillTransition(portrait: bool)
      requires Valid()
      modifies this
      ensures Valid()
      ensures T.ViewWillTransition(old(Snapshot()), portrait) == T.Done(Snapshot())
    {
      pending := pending + [T.TraitRefresh];
      var leftHidden := IsControllerHidden(Left);
      var rightHidden := IsControllerHidden(Right);
      if !leftHidden && !rightHidden && !portrait {
        SetController(Right, true, portrait);
      }
    }

    /** UIKit runs the queued completion blocks, oldest first. */
    method RunCompletions(portrait: bool)
      modifies this`log, this`pending
      ensures Snapshot() == T.RunCompletions(old(Snapshot()), portrait)
    {
      var queue := pending;
      for i := 0 to |queue|
        invariant log == old(log) + T.CompletionEvents(queue[..i], PaneState(), portrait)
      {
        assert queue[..i + 1][..i] == queue[..i];
        match queue[i] {
          case AppearanceEnd(q) =>
            var c := GetController(q);
            if c.Some? {
              log := log + [T.EndAppearance(c.value)];
            }
          case TraitRefresh =>
            UpdateOverrideTraitCollection(portrait);
        }
      }
      assert queue[..|queue|] == queue;
      pending := [];
    }

    /** `viewWillAppear(_:)` */
    method ViewWillAppear(animated: bool)
      modifies this`log
      ensures Snapshot() == T.ForwardAppearance(old(Snapshot()), T.Begin(true, animated))
    {
      ForwardToVisibleControllers(T.Begin(true, animated));
    }

    /** `viewDidAppear(_:)` */
    method ViewDidAppear()
      modifies this`log
      ensures Snapshot() == T.ForwardAppearance(old(Snapshot()), T.End)
    {
      ForwardToVisibleControllers(T.End);
    }

    /** `viewWillDisappear(_:)` */
    method ViewWillDisappear(animated: bool)
      modifies this`log
      ensures Snapshot() == T.ForwardAppearance(old(Snapshot()), T.Begin(false, animated))
    {
      ForwardToVisibleControllers(T.Begin(false, animated));
    }

    /** `viewDidDisappear(_:)` */
    method ViewDidDisappear()
      modifies this`log
      ensures Snapshot() == T.ForwardAppearance(old(Snapshot()), T.End)
    {
      ForwardToVisibleControllers(T.End);
    }

    /** `allVisibleControllers.forEach { ... }` */
    method ForwardToVisibleControllers(sig: T.Signal)
      modifies this`log
      ensures Snapshot() == T.ForwardAppearance(old(Snapshot()), sig)
    {
      var visible := VisibleControllers(PaneState());
      for i := 0 to |visible|
        invariant log == old(log) + T.Broadcast(visible[..i], sig)
      {
        assert visible[..i + 1][..i] == visible[..i];
        log := log + [T.SignalEvent(visible[i], sig)];
      }
      assert visible[..|visible|] == visible;
    }

    /** `updateOverrideTraitCollection()` */
    method UpdateOverrideTraitCollection(portrait: bool)
      modifies this`log
      ensures log == old(log) + T.TraitEvents(PaneState(), portrait)
    {
      UpdateOverrideTraitCollectionForSideControllers();
      UpdateOverrideTraitCollectionForMiddleController(portrait);
    }

    /** `updateOverrideTraitCollectionForSideControllers()` */
    method UpdateOverrideTraitCollectionForSideControllers()
      modifies this`log
      ensures log == old(log) + T.Broadcast(SideControllers(PaneState()), T.Override(SideTraits()))
    {
      var side := SideControllers(PaneState());
      for i := 0 to |side|
        invariant log == old(log) + T.Broadcast(side[..i], T.Override(SideTraits()))
      {
        assert side[..i + 1][..i] == side[..i];
        log := log + [T.OverrideTraits(side[i], Some(SideTraits()))];
      }
      assert side[..|side|] == side;
    }

    /** `updateOverrideTraitCollectionForMiddleController()` */
    method UpdateOverrideTraitCollectionForMiddleController(portrait: bool)
      modifies this`log
      ensures log == old(log) + [T.OverrideTraits(middleController, Some(MiddleTraits(PaneState(), portrait)))]
    {
      var leftHidden := IsControllerHidden(Left);
      var rightHidden := IsControllerHidden(Right);
      var horizontal := MiddleHorizontal(portrait, leftHidden, rightHidden);
      log := log + [T.OverrideTraits(middleController, Some(Traits(horizontal, Regular)))];
    }

    /** `installChildController(controller:oldController:into:)` */
    method InstallChildController(c: Controller, previous: Option<Controller>, into: T.Container)
      modifies this`log
      ensures log == old(log) + T.Installation(c, previous, into)
    {
      if previous.Some? {
        log := log + [T.OverrideTraits(previous.value, None), T.Detach(previous.value)];
      }
      log := log + [T.Attach(c, into)];
    }
  }
}
