/**
 * The container's operations as functions of its state. A `Machine` is the pane
 * state together with the signals already sent to children (`log`) and the
 * completion blocks that UIKit will run later (`pending`): an animated offset
 * change takes effect at once, and its completion, which ends the child's
 * appearance transition, is queued until `RunCompletions`.
 */
module Transitions {
  import opened Panes

  /** The three container views a child can be attached to. */
  datatype Container = LeftContainer | MiddleContainer | RightContainer

  /** `container(forControllerAt:)` */
  function ContainerFor(p: Position): (r: Container)
    ensures r != MiddleContainer
    ensures r == LeftContainer <==> p == Left
  {
    if p == Left then LeftContainer else RightContainer
  }

  /** A signal the container sends to a child. */
  datatype Event =
      /** `addChildViewController(_:setup:)`: addChild, the view added to the container and sized to it, didMove(toParent:). */
    | Attach(child: Controller, into: Container)
      /** `removeFromParentController()`: willMove(toParent: nil), removeFromSuperview, removeFromParent. */
    | Detach(child: Controller)
      /** `setOverrideTraitCollection(_:forChild:)`; `None` clears the override. */
    | OverrideTraits(child: Controller, traits: Option<Traits>)
    | BeginAppearance(child: Controller, appearing: bool, animated: bool)
    | EndAppearance(child: Controller)

  /** What a `forEach` over children sends to each of them. */
  datatype Signal = Override(traits: Traits) | Begin(appearing: bool, animated: bool) | End

  function SignalEvent(c: Controller, sig: Signal): (e: Event)
    ensures e.child == c
    ensures sig.Override? <==> e.OverrideTraits?
  {
    match sig
    case Override(t) => OverrideTraits(c, Some(t))
    case Begin(appearing, animated) => BeginAppearance(c, appearing, animated)
    case End => EndAppearance(c)
  }

  /** `cs.forEach { send sig }`: the events of sending `sig` to each child of `cs`, in order. */
  function Broadcast(cs: seq<Controller>, sig: Signal): seq<Event>
  {
    if cs == [] then [] else Broadcast(cs[..|cs| - 1], sig) + [SignalEvent(cs[|cs| - 1], sig)]
  }

  /** Broadcasting sends exactly one event per child, to that child, in the children's order. */
  lemma {:induction false} BroadcastAt(cs: seq<Controller>, sig: Signal)
    ensures |Broadcast(cs, sig)| == |cs|
    ensures forall i :: 0 <= i < |cs| ==> Broadcast(cs, sig)[i] == SignalEvent(cs[i], sig)
  {
    if cs != [] {
      var init := cs[..|cs| - 1];
      BroadcastAt(init, sig);
      forall i | 0 <= i < |cs| ensures Broadcast(cs, sig)[i] == SignalEvent(cs[i], sig) {
        if i < |init| {
          assert init[i] == cs[i];
        }
      }
    }
  }

  /** A broadcast reaches every child of `cs` and nobody else. */
  lemma BroadcastReaches(cs: seq<Controller>, sig: Signal)
    ensures forall e :: e in Broadcast(cs, sig) ==> e.child in cs && e == SignalEvent(e.child, sig)
    ensures forall c :: c in cs ==> SignalEvent(c, sig) in Broadcast(cs, sig)
  {
    BroadcastAt(cs, sig);
    var b := Broadcast(cs, sig);
    forall c | c in cs ensures SignalEvent(c, sig) in b {
      var i :| 0 <= i < |cs| && cs[i] == c;
      assert b[i] == SignalEvent(c, sig);
    }
  }

  /**
   * `updateOverrideTraitCollection()`: every installed side child gets
   * compact/regular, then the middle child gets its orientation-dependent traits.
   */
  function TraitEvents(s: State, portrait: bool): seq<Event>
  {
    Broadcast(SideControllers(s), Override(SideTraits())) + [OverrideTraits(s.middle, Some(MiddleTraits(s, portrait)))]
  }

  /**
   * A trait update gives each installed side child the side traits, ends with the
   * middle child's traits, and sends no other kind of signal.
   */
  lemma TraitEventsCover(s: State, portrait: bool)
    ensures |TraitEvents(s, portrait)| >= 1
    ensures TraitEvents(s, portrait)[|TraitEvents(s, portrait)| - 1] == OverrideTraits(s.middle, Some(MiddleTraits(s, portrait)))
    ensures forall p :: ControllerAt(s, p).Some? ==>
      OverrideTraits(ControllerAt(s, p).value, Some(SideTraits())) in TraitEvents(s, portrait)
    ensures forall e :: e in TraitEvents(s, portrait) ==> e.OverrideTraits?
  {
    var side := SideControllers(s);
    BroadcastReaches(side, Override(SideTraits()));
    forall p | ControllerAt(s, p).Some?
      ensures OverrideTraits(ControllerAt(s, p).value, Some(SideTraits())) in TraitEvents(s, portrait)
    {
      assert ControllerAt(s, p).value in side;
    }
  }

  /** A completion block UIKit runs after the fact. */
  datatype Completion =
      /**
       * The completion of pane `pane`'s animation: `endAppearanceTransition()` of
       * whatever child that slot holds when the block runs (`self.leftController?`).
       */
    | AppearanceEnd(pane: Position)
      /** The completion of a size transition's coordinator: `updateOverrideTraitCollection()`. */
    | TraitRefresh

  datatype Machine = Machine(state: State, log: seq<Event>, pending: seq<Completion>)

  /** The result of an operation: its new machine, or the failure of the assertion at line 238. */
  datatype Outcome = Done(m: Machine) | AssertionFailed(at: Position)

  /** The same child controllers in all three slots. */
  predicate SameChildren(s: State, t: State)
  {
    s.middle == t.middle && ControllerAt(s, Left) == ControllerAt(t, Left) && ControllerAt(s, Right) == ControllerAt(t, Right)
  }

  /**
   * `setViewController(at:hidden:animated:)`. The assertion that pane `p` has a
   * child comes first; an already satisfied request changes nothing and sends
   * nothing; otherwise the child is told it begins to appear or disappear, its
   * offset becomes its view width (hiding) or 0 (showing), the traits are
   * recomputed and the end of its appearance transition is queued.
   */
  function SetViewController(m: Machine, p: Position, hidden: bool, animated: bool, portrait: bool): (r: Outcome)
    ensures r.AssertionFailed? <==> ControllerAt(m.state, p).None?
    ensures r.AssertionFailed? ==> r.at == p
    ensures r.Done? && IsHidden(m.state, p) == hidden ==> r.m == m
    ensures r.Done? && IsHidden(m.state, p) != hidden ==>
      var c := ControllerAt(m.state, p).value;
      && Offset(r.m.state, p) == (if hidden then c.viewWidth else 0)
      && r.m.log == m.log + [BeginAppearance(c, !hidden, animated)] + TraitEvents(r.m.state, portrait)
      && r.m.pending == m.pending + [AppearanceEnd(p)]
    ensures r.Done? ==> SameChildren(m.state, r.m.state) && Offset(r.m.state, p.Opposite()) == Offset(m.state, p.Opposite())
    ensures r.Done? && (hidden ==> ControllerAt(m.state, p).value.viewWidth > 0) ==> IsHidden(r.m.state, p) == hidden
    ensures r.Done? && EmptyPanesHidden(m.state) ==> EmptyPanesHidden(r.m.state)
  {
    match ControllerAt(m.state, p)
    case None => AssertionFailed(p)
    case Some(c) =>
      if IsHidden(m.state, p) == hidden then Done(m)
      else
        var s := WithOffset(m.state, p, if hidden then c.viewWidth else 0);
        Done(Machine(s, m.log + [BeginAppearance(c, !hidden, animated)] + TraitEvents(s, portrait), m.pending + [AppearanceEnd(p)]))
  }

  /** `setViewController(at:hidden:animated:)` on a pane that changes, as its steps. */
  lemma SetViewControllerSteps(m: Machine, p: Position, hidden: bool, animated: bool, portrait: bool, c: Controller)
    requires ControllerAt(m.state, p) == Some(c) && IsHidden(m.state, p) != hidden
    ensures SetViewController(m, p, hidden, animated, portrait) == Done(Machine(
      WithOffset(m.state, p, if hidden then c.viewWidth else 0),
      m.log + [BeginAppearance(c, !hidden, animated)] + TraitEvents(WithOffset(m.state, p, if hidden then c.viewWidth else 0), portrait),
      m.pending + [AppearanceEnd(p)]))
  {
  }

  /**
   * `setController(at:hidden:)` exactly as written: in portrait the opposite pane
   * is first forced hidden through `setViewController`, whose assertion also
   * fires when the opposite slot is empty.
   */
  function SetControllerAsWritten(m: Machine, p: Position, hidden: bool, portrait: bool): (r: Outcome)
    ensures portrait && ControllerAt(m.state, p.Opposite()).None? ==> r == AssertionFailed(p.Opposite())
    ensures !portrait ==> r == SetViewController(m, p, hidden, true, portrait)
  {
    if portrait then
      match SetViewController(m, p.Opposite(), true, true, portrait)
      case AssertionFailed(q) => AssertionFailed(q)
      case Done(m1) => SetViewController(m1, p, hidden, true, portrait)
    else
      SetViewController(m, p, hidden, true, portrait)
  }

  /**
   * `setController(at:hidden:)` as intended: in portrait the opposite pane, if it
   * has a child, is forced hidden first; then pane `p` is set. Only an empty
   * slot `p` fails the assertion.
   */
  function SetController(m: Machine, p: Position, hidden: bool, portrait: bool): (r: Outcome)
    ensures r.AssertionFailed? <==> ControllerAt(m.state, p).None?
    ensures r.Done? ==> SameChildren(m.state, r.m.state) && m.log <= r.m.log
    ensures r.Done? && (hidden ==> ControllerAt(m.state, p).value.viewWidth > 0) ==> IsHidden(r.m.state, p) == hidden
  {
    var opposite := p.Opposite();
    if portrait && ControllerAt(m.state, opposite).Some? then
      var first := SetViewController(m, opposite, true, true, portrait);
      assert first.Done? && SameChildren(m.state, first.m.state) && m.log <= first.m.log;
      assert ControllerAt(first.m.state, p) == ControllerAt(m.state, p);
      SetViewController(first.m, p, hidden, true, portrait)
    else
      SetViewController(m, p, hidden, true, portrait)
  }

  /** In landscape `setController(at:hidden:)` leaves the other pane's offset alone. */
  lemma SetControllerLandscapeLocal(m: Machine, p: Position, hidden: bool)
    requires SetController(m, p, hidden, false).Done?
    ensures Offset(SetController(m, p, hidden, false).m.state, p.Opposite()) == Offset(m.state, p.Opposite())
  {
  }

  /**
   * Portrait exclusivity: when the empty slots are hidden and the children's
   * views have positive width, `setController(at:hidden:)` in portrait leaves
   * the opposite pane hidden, so at most one side pane is shown afterwards.
   */
  lemma SetControllerPortraitExclusive(m: Machine, p: Position, hidden: bool)
    requires EmptyPanesHidden(m.state) && PositiveWidths(m.state)
    requires SetController(m, p, hidden, true).Done?
    ensures IsHidden(SetController(m, p, hidden, true).m.state, p.Opposite())
    ensures AtMostOneShown(SetController(m, p, hidden, true).m.state)
  {
    var opposite := p.Opposite();
    var r := SetController(m, p, hidden, true);
    match ControllerAt(m.state, opposite)
    case None =>
      assert IsHidden(m.state, opposite);
    case Some(c) =>
      var first := SetViewController(m, opposite, true, true, true);
      assert IsHidden(first.m.state, opposite);
      assert Offset(r.m.state, opposite) == Offset(first.m.state, opposite);
    if p == Left {} else {}
  }

  /** `setController(at:hidden:)` never shows an empty slot. */
  lemma SetControllerKeepsEmptyPanesHidden(m: Machine, p: Position, hidden: bool, portrait: bool)
    requires EmptyPanesHidden(m.state)
    requires SetController(m, p, hidden, portrait).Done?
    ensures EmptyPanesHidden(SetController(m, p, hidden, portrait).m.state)
  {
    var opposite := p.Opposite();
    if portrait && ControllerAt(m.state, opposite).Some? {
      var first := SetViewController(m, opposite, true, true, portrait);
      assert EmptyPanesHidden(first.m.state);
    }
  }

  /**
   * The correction changes behaviour only where the code as written fails its
   * assertion: whenever the as-written operation completes, both agree, and when
   * the as-written one fails on an empty opposite slot that is hidden, the
   * corrected one does what the nested no-op call would have left it to do.
   */
  lemma CorrectedAgreesWithAsWritten(m: Machine, p: Position, hidden: bool, portrait: bool)
    ensures SetControllerAsWritten(m, p, hidden, portrait).Done? ==>
      SetController(m, p, hidden, portrait) == SetControllerAsWritten(m, p, hidden, portrait)
    ensures portrait && ControllerAt(m.state, p.Opposite()).None? && IsHidden(m.state, p.Opposite()) ==>
      SetController(m, p, hidden, portrait) == SetViewController(m, p, hidden, true, portrait)
  {
  }

  /**
   * The input that shows the fault: right after `init(leftController:middleController:)`
   * in portrait the right slot is empty and hidden, yet toggling the left pane
   * fails the assertion for the right pane; the corrected operation hides the
   * left pane and leaves the right one as it was.
   */
  lemma AsWrittenFailsWithoutRightController(left: Controller, middle: Controller, sideWidth: int)
    requires sideWidth > 0 && left.viewWidth > 0
    ensures var m := Initial(left, middle, sideWidth, true);
      && ControllerAt(m.state, Right).None? && IsHidden(m.state, Right)
      && SetControllerAsWritten(m, Left, !IsHidden(m.state, Left), true) == AssertionFailed(Right)
      && SetController(m, Left, !IsHidden(m.state, Left), true).Done?
      && IsHidden(SetController(m, Left, !IsHidden(m.state, Left), true).m.state, Left)
      && SetController(m, Left, !IsHidden(m.state, Left), true).m.state.rightOffset == m.state.rightOffset
  {
    InitialState(left, middle, sideWidth, true);
  }

  /**
   * Asking for the visibility a pane already has changes nothing and sends
   * nothing, in landscape and whenever the opposite pane is hidden; in portrait
   * with the opposite pane shown, the request still hides the opposite pane.
   */
  lemma SetControllerIdempotent(m: Machine, p: Position, portrait: bool)
    requires ControllerAt(m.state, p).Some?
    ensures !portrait || IsHidden(m.state, p.Opposite()) ==>
      SetController(m, p, IsHidden(m.state, p), portrait) == Done(m)
    ensures portrait && ControllerAt(m.state, p.Opposite()).Some? && !IsHidden(m.state, p.Opposite()) ==>
      SetController(m, p, IsHidden(m.state, p), portrait).m.log != m.log
  {
    var opposite := p.Opposite();
    if portrait && ControllerAt(m.state, opposite).Some? && !IsHidden(m.state, opposite) {
      var first := SetViewController(m, opposite, true, true, portrait);
      assert |first.m.log| > |m.log|;
    }
  }

  /** `toggleContoller(at:)`: set pane `p` to the opposite of its current visibility. */
  function ToggleController(m: Machine, p: Position, portrait: bool): (r: Outcome)
    ensures r.AssertionFailed? <==> ControllerAt(m.state, p).None?
    ensures r.Done? ==> SameChildren(m.state, r.m.state) && m.log <= r.m.log
    ensures r.Done? && (IsHidden(m.state, p) || ControllerAt(m.state, p).value.viewWidth > 0) ==>
      IsHidden(r.m.state, p) == !IsHidden(m.state, p)
  {
    SetController(m, p, !IsHidden(m.state, p), portrait)
  }

  /** In landscape two toggles of the same pane restore which panes are shown. */
  lemma LandscapeToggleTwice(m: Machine, p: Position)
    requires ControllerAt(m.state, p).Some? && ControllerAt(m.state, p).value.viewWidth > 0
    ensures var once := ToggleController(m, p, false);
      once.Done? && ToggleController(once.m, p, false).Done? &&
      forall q :: IsHidden(ToggleController(once.m, p, false).m.state, q) == IsHidden(m.state, q)
  {
    var once := ToggleController(m, p, false);
    var twice := ToggleController(once.m, p, false);
    assert Offset(twice.m.state, p.Opposite()) == Offset(m.state, p.Opposite());
    forall q ensures IsHidden(twice.m.state, q) == IsHidden(m.state, q) {
      if q != p { assert q == p.Opposite(); }
    }
  }

  /**
   * Install left A, middle M, then right B, in portrait. The left pane starts
   * shown and the right one hidden, so the middle child is compact; toggling
   * the right pane hides the left one and shows the right one (middle still
   * compact); toggling it again hides it (middle regular).
   */
  lemma PortraitScenario(a: Controller, b: Controller, mid: Controller, sideWidth: int)
    requires a.viewWidth > 0 && b.viewWidth > 0 && sideWidth > 0
    ensures var m0 := SetSideController(Initial(a, mid, sideWidth, true), b, Right, true);
      var t1 := ToggleController(m0, Right, true);
      && !IsHidden(m0.state, Left) && IsHidden(m0.state, Right)
      && MiddleTraits(m0.state, true).horizontal == Compact
      && t1.Done?
      && IsHidden(t1.m.state, Left) && !IsHidden(t1.m.state, Right)
      && MiddleTraits(t1.m.state, true).horizontal == Compact
      && var t2 := ToggleController(t1.m, Right, true);
      && t2.Done?
      && IsHidden(t2.m.state, Left) && IsHidden(t2.m.state, Right)
      && MiddleTraits(t2.m.state, true).horizontal == Regular
  {
    var m0 := SetSideController(Initial(a, mid, sideWidth, true), b, Right, true);
    PortraitScenarioStart(a, b, mid, sideWidth);
    MiddleTraitsByShownCount(m0.state, true);
    var t1 := ToggleController(m0, Right, true);
    SetControllerPortraitExclusive(m0, Right, false);
    assert SameChildren(m0.state, t1.m.state);
    MiddleTraitsByShownCount(t1.m.state, true);
    var t2 := ToggleController(t1.m, Right, true);
    assert EmptyPanesHidden(t1.m.state) && PositiveWidths(t1.m.state);
    SetControllerPortraitExclusive(t1.m, Right, true);
    MiddleTraitsByShownCount(t2.m.state, true);
  }

  /** The scenario's starting point: A shown on the left, B installed on the hidden right. */
  lemma PortraitScenarioStart(a: Controller, b: Controller, mid: Controller, sideWidth: int)
    requires a.viewWidth > 0 && b.viewWidth > 0 && sideWidth > 0
    ensures var m0 := SetSideController(Initial(a, mid, sideWidth, true), b, Right, true);
      && ControllerAt(m0.state, Left) == Some(a) && ControllerAt(m0.state, Right) == Some(b)
      && !IsHidden(m0.state, Left) && IsHidden(m0.state, Right)
      && EmptyPanesHidden(m0.state) && PositiveWidths(m0.state)
  {
    var m0 := SetSideController(Initial(a, mid, sideWidth, true), b, Right, true);
    assert ControllerAt(m0.state, Left) == Some(a) && ControllerAt(m0.state, Right) == Some(b);
    assert forall p :: ControllerAt(m0.state, p).Some? by {
      forall p ensures ControllerAt(m0.state, p).Some? { if p == Left {} else {} }
    }
    assert PositiveWidths(m0.state) by {
      forall p ensures ControllerAt(m0.state, p).Some? ==> ControllerAt(m0.state, p).value.viewWidth > 0 {
        if p == Left {} else {}
      }
    }
  }

  /** Toggles applied in order; the first failed assertion stops the run. */
  function ToggleAll(m: Machine, ps: seq<Position>, portrait: bool): (r: Outcome)
    ensures r.Done? ==> SameChildren(m.state, r.m.state) && m.log <= r.m.log
    ensures r.AssertionFailed? ==> exists i :: 0 <= i < |ps| && ps[i] == r.at && ControllerAt(m.state, r.at).None?
    ensures (forall i :: 0 <= i < |ps| ==> ControllerAt(m.state, ps[i]).Some?) ==> r.Done?
    decreases |ps|
  {
    if ps == [] then Done(m)
    else
      match ToggleController(m, ps[0], portrait)
      case AssertionFailed(q) => AssertionFailed(q)
      case Done(m1) => ToggleAll(m1, ps[1..], portrait)
  }

  /**
   * Portrait exclusivity over any run of toggles: starting from a state whose
   * empty slots are hidden and whose children have views of positive width,
   * toggling installed panes never fails and leaves at most one side pane shown
   * after every toggle (every prefix of `ps` is itself such a run).
   */
  lemma {:induction false} PortraitTogglesKeepOneShown(m: Machine, ps: seq<Position>)
    requires EmptyPanesHidden(m.state) && PositiveWidths(m.state)
    requires forall i :: 0 <= i < |ps| ==> ControllerAt(m.state, ps[i]).Some?
    requires |ps| > 0
    decreases |ps|
    ensures ToggleAll(m, ps, true).Done?
    ensures AtMostOneShown(ToggleAll(m, ps, true).m.state)
    ensures ShownCount(ToggleAll(m, ps, true).m.state) <= 1
    ensures SameChildren(m.state, ToggleAll(m, ps, true).m.state)
  {
    var r := ToggleController(m, ps[0], true);
    assert r.Done?;
    SetControllerPortraitExclusive(m, ps[0], !IsHidden(m.state, ps[0]));
    SetControllerKeepsEmptyPanesHidden(m, ps[0], !IsHidden(m.state, ps[0]), true);
    assert PositiveWidths(r.m.state) by {
      assert SameChildren(m.state, r.m.state);
      forall q ensures ControllerAt(r.m.state, q) == ControllerAt(m.state, q) {
        if q == Left {} else {}
      }
    }
    if |ps| > 1 {
      var rest := ps[1..];
      assert forall i :: 0 <= i < |rest| ==> rest[i] == ps[i + 1];
      PortraitTogglesKeepOneShown(r.m, rest);
    } else {
      assert ps[1..] == [];
      AtMostOneShownByCount(ToggleAll(m, ps, true).m.state);
    }
  }

  /**
   * `viewWillTransition(to:with:)`: the trait update is queued for the end of the
   * size transition, and if both side panes are shown and the orientation is not
   * portrait, the right pane is hidden.
   */
  function ViewWillTransition(m: Machine, portrait: bool): (r: Outcome)
    ensures EmptyPanesHidden(m.state) ==> r.Done?
    ensures r.Done? ==> SameChildren(m.state, r.m.state) && m.pending + [TraitRefresh] <= r.m.pending
    ensures r.Done? && EmptyPanesHidden(m.state) ==> EmptyPanesHidden(r.m.state)
  {
    var queued := m.(pending := m.pending + [TraitRefresh]);
    if !IsHidden(m.state, Left) && !IsHidden(m.state, Right) && !portrait then
      SetController(queued, Right, true, portrait)
    else
      Done(queued)
  }

  /**
   * The rotation correction: with both side panes shown and a non-portrait
   * orientation the right pane ends hidden and the left pane keeps its offset;
   * in every other state no pane changes and no signal is sent.
   */
  lemma RotationCorrection(m: Machine, portrait: bool)
    requires EmptyPanesHidden(m.state)
    ensures var r := ViewWillTransition(m, portrait);
      && r.Done?
      && Offset(r.m.state, Left) == Offset(m.state, Left)
      && (!IsHidden(m.state, Left) && !IsHidden(m.state, Right) && !portrait && PositiveWidths(m.state) ==>
            IsHidden(r.m.state, Right))
      && (IsHidden(m.state, Left) || IsHidden(m.state, Right) || portrait ==>
            r.m.state == m.state && r.m.log == m.log)
  {
  }

  /**
   * The events of one completion block run in state `s`: a pane completion ends
   * the appearance transition of the slot's current child, if any; a size
   * transition's completion recomputes the traits.
   */
  function CompletionRun(k: Completion, s: State, portrait: bool): seq<Event>
  {
    match k
    case AppearanceEnd(p) =>
      (match ControllerAt(s, p) case Some(c) => [EndAppearance(c)] case None => [])
    case TraitRefresh => TraitEvents(s, portrait)
  }

  /** `ps.forEach { f($0) }` where each call emits a sequence: the emissions, in order. */
  function FlatMap<A, B>(ps: seq<A>, f: A -> seq<B>): seq<B>
  {
    if ps == [] then [] else FlatMap(ps[..|ps| - 1], f) + f(ps[|ps| - 1])
  }

  /** Emitting for two lists one after the other is emitting for their concatenation. */
  lemma {:induction false} FlatMapAppend<A, B>(a: seq<A>, b: seq<A>, f: A -> seq<B>)
    ensures FlatMap(a + b, f) == FlatMap(a, f) + FlatMap(b, f)
    decreases |b|
  {
    if b == [] {
      assert a + b == a;
    } else {
      var init := b[..|b| - 1];
      FlatMapAppend(a, init, f);
      assert (a + b)[..|a + b| - 1] == a + init;
      assert (a + b)[|a + b| - 1] == b[|b| - 1];
    }
  }

  /** The events the queued completions `ps` produce when UIKit runs them in order in state `s`. */
  function CompletionEvents(ps: seq<Completion>, s: State, portrait: bool): seq<Event>
  {
    FlatMap(ps, Runner(s, portrait))
  }

  /** Running one completion block in state `s`, as a function of the block. */
  function Runner(s: State, portrait: bool): Completion -> seq<Event>
  {
    k => CompletionRun(k, s, portrait)
  }

  /** UIKit runs every queued completion; `portrait` is the orientation at that time. */
  function RunCompletions(m: Machine, portrait: bool): (r: Machine)
    ensures r.state == m.state && r.pending == [] && m.log <= r.log
  {
    Machine(m.state, m.log + CompletionEvents(m.pending, m.state, portrait), [])
  }

  /** A queue of one completion runs just that completion. */
  lemma CompletionEventsSingle(k: Completion, s: State, portrait: bool)
    ensures CompletionEvents([k], s, portrait) == CompletionRun(k, s, portrait)
  {
    assert [k][..0] == [];
    assert FlatMap([k], Runner(s, portrait)) == FlatMap([], Runner(s, portrait)) + Runner(s, portrait)(k);
  }

  /** The queue split around entry `i`: what comes before it, its own events, what comes after. */
  lemma CompletionEventsAround(q: seq<Completion>, i: int, s: State, portrait: bool)
    requires 0 <= i < |q|
    ensures CompletionEvents(q, s, portrait) ==
      CompletionEvents(q[..i], s, portrait) + CompletionRun(q[i], s, portrait) + CompletionEvents(q[i + 1..], s, portrait)
  {
    var f := Runner(s, portrait);
    var a, k, b := q[..i], q[i], q[i + 1..];
    assert q == a + [k] + b;
    FlatMapAppend(a + [k], b, f);
    FlatMapAppend(a, [k], f);
    CompletionEventsSingle(k, s, portrait);
  }

  /**
   * Each queued completion contributes its events at its place in the queue: a
   * pane completion exactly one end signal to the child that slot holds when the
   * queue runs (none for an empty slot), a size transition's completion the
   * trait update of the current state.
   */
  lemma RunCompletionsInOrder(m: Machine, portrait: bool, i: int)
    requires 0 <= i < |m.pending|
    ensures var before := m.log + CompletionEvents(m.pending[..i], m.state, portrait);
      var after := CompletionEvents(m.pending[i + 1..], m.state, portrait);
      var log := RunCompletions(m, portrait).log;
      && (m.pending[i].AppearanceEnd? && ControllerAt(m.state, m.pending[i].pane).Some? ==>
            log == before + [EndAppearance(ControllerAt(m.state, m.pending[i].pane).value)] + after)
      && (m.pending[i].AppearanceEnd? && ControllerAt(m.state, m.pending[i].pane).None? ==>
            log == before + after)
      && (m.pending[i] == TraitRefresh ==> log == before + TraitEvents(m.state, portrait) + after)
  {
    CompletionEventsAround(m.pending, i, m.state, portrait);
    var before := m.log + CompletionEvents(m.pending[..i], m.state, portrait);
    var after := CompletionEvents(m.pending[i + 1..], m.state, portrait);
    assert RunCompletions(m, portrait).log == before + CompletionRun(m.pending[i], m.state, portrait) + after;
  }

  /**
   * Running the queue sends only end signals and trait overrides, and every end
   * signal goes to a child installed in a side slot when the queue runs.
   */
  lemma {:induction false} CompletionEventsTargets(ps: seq<Completion>, s: State, portrait: bool)
    ensures forall e :: e in CompletionEvents(ps, s, portrait) ==>
      e.OverrideTraits? || (e.EndAppearance? && exists p :: ControllerAt(s, p) == Some(e.child))
    decreases |ps|
  {
    if ps != [] {
      CompletionEventsTargets(ps[..|ps| - 1], s, portrait);
      TraitEventsCover(s, portrait);
      var k := ps[|ps| - 1];
      forall e | e in CompletionRun(k, s, portrait)
        ensures e.OverrideTraits? || (e.EndAppearance? && exists p :: ControllerAt(s, p) == Some(e.child))
      {
        if k.AppearanceEnd? {
          assert ControllerAt(s, k.pane) == Some(e.child);
        }
      }
    }
  }

  /**
   * The end signal of a pane animation goes to the slot's child at completion
   * time: if the pane's child is replaced before UIKit runs the completion, the
   * new child receives the end signal and the old one none.
   */
  lemma CompletionEndsCurrentChild(m: Machine, p: Position, hidden: bool, portrait: bool, y: Controller, later: bool)
    requires ControllerAt(m.state, p).Some? && IsHidden(m.state, p) != hidden && m.pending == []
    ensures var t := SetViewController(m, p, hidden, true, portrait).m;
      var u := SetSideController(t, y, p, portrait);
      RunCompletions(u, later).log == u.log + [EndAppearance(y)]
  {
    var t := SetViewController(m, p, hidden, true, portrait).m;
    var u := SetSideController(t, y, p, portrait);
    assert u.pending == [AppearanceEnd(p)];
    assert ControllerAt(u.state, p) == Some(y);
    assert u.pending[..0] == [];
    CompletionEventsSingle(AppearanceEnd(p), u.state, later);
  }

  /**
   * A pane transition followed by its completion: the child receives the begin
   * signal with `appearing == !hidden`, then the trait update, then the matching
   * end signal, and nothing else.
   */
  lemma TransitionThenCompletion(m: Machine, p: Position, hidden: bool, animated: bool, portrait: bool, later: bool)
    requires ControllerAt(m.state, p).Some? && IsHidden(m.state, p) != hidden && m.pending == []
    ensures var t := SetViewController(m, p, hidden, animated, portrait).m;
      var c := ControllerAt(m.state, p).value;
      RunCompletions(t, later).log == m.log + [BeginAppearance(c, !hidden, animated)] + TraitEvents(t.state, portrait) + [EndAppearance(c)]
  {
    var c := ControllerAt(m.state, p).value;
    var t := SetViewController(m, p, hidden, animated, portrait).m;
    assert t.pending == [AppearanceEnd(p)];
    assert t.pending[..0] == [];
    CompletionEventsSingle(AppearanceEnd(p), t.state, later);
  }

  /**
   * `installChildController(controller:oldController:into:)`: the old child's
   * trait override is cleared and it is detached, then the new child is attached.
   */
  function Installation(c: Controller, previous: Option<Controller>, into: Container): (r: seq<Event>)
    ensures |r| >= 1 && r[|r| - 1] == Attach(c, into)
    ensures previous.Some? ==> r[..|r| - 1] == [OverrideTraits(previous.value, None), Detach(previous.value)]
    ensures previous.None? ==> |r| == 1
  {
    match previous
    case Some(o) => [OverrideTraits(o, None), Detach(o), Attach(c, into)]
    case None => [Attach(c, into)]
  }

  /**
   * `set(controller:at:)`: install `c` in slot `p`, replacing whatever was there
   * (even `c` itself). If the pane is shown the new child's appearance
   * transition brackets the trait update; a hidden pane's child gets no
   * appearance signal.
   */
  function SetSideController(m: Machine, c: Controller, p: Position, portrait: bool): (r: Machine)
    ensures ControllerAt(r.state, p) == Some(c)
    ensures ControllerAt(r.state, p.Opposite()) == ControllerAt(m.state, p.Opposite())
    ensures r.state.middle == m.state.middle
    ensures forall q :: Offset(r.state, q) == Offset(m.state, q)
    ensures r.pending == m.pending
    ensures m.log <= r.log
    ensures EmptyPanesHidden(m.state) ==> EmptyPanesHidden(r.state)
  {
    var install := Installation(c, ControllerAt(m.state, p), ContainerFor(p));
    var s := WithController(m.state, p, c);
    var shown := !IsHidden(m.state, p);
    var added := install
      + (if shown then [BeginAppearance(c, true, false)] else [])
      + TraitEvents(s, portrait)
      + (if shown then [EndAppearance(c)] else []);
    WithControllerKeepsEmptyPanesHidden(m.state, p, c);
    Machine(s, m.log + added, m.pending)
  }

  /** Appending four parts one by one is appending their concatenation. */
  lemma Regrouped<E>(log: seq<E>, a: seq<E>, b: seq<E>, c: seq<E>, d: seq<E>)
    ensures log + a + b + c + d == log + (a + b + c + d)
  {
  }

  /** What was appended after `log` by appending four parts, part by part. */
  lemma AppendedParts<E>(log: seq<E>, a: seq<E>, b: seq<E>, c: seq<E>, d: seq<E>)
    ensures var added := (log + a + b + c + d)[|log|..];
      && added == a + b + c + d
      && added[..|a|] == a
      && (|b| == 1 ==> added[|a|] == b[0])
      && (|d| == 1 ==> added[|added| - 1] == d[0])
      && (b == [] && d == [] ==> added[|a|..] == c)
  {
    var added := (log + a + b + c + d)[|log|..];
    assert log + a + b + c + d == log + (a + b + c + d);
    assert added == a + b + c + d;
    if b == [] && d == [] {
      assert a + b + c + d == a + c;
    }
  }

  /** `set(controller:at:)` as its three steps: install, bracket the trait update, keep the offsets. */
  lemma SetSideControllerSteps(m: Machine, c: Controller, p: Position, portrait: bool, begin: seq<Event>, end: seq<Event>)
    requires begin == (if IsHidden(m.state, p) then [] else [BeginAppearance(c, true, false)])
    requires end == (if IsHidden(m.state, p) then [] else [EndAppearance(c)])
    ensures SetSideController(m, c, p, portrait) == Machine(
      WithController(m.state, p, c),
      m.log + Installation(c, ControllerAt(m.state, p), ContainerFor(p)) + begin + TraitEvents(WithController(m.state, p, c), portrait) + end,
      m.pending)
  {
    var install := Installation(c, ControllerAt(m.state, p), ContainerFor(p));
    var traits := TraitEvents(WithController(m.state, p, c), portrait);
    assert SetSideController(m, c, p, portrait).log == m.log + (install + begin + traits + end);
    Regrouped(m.log, install, begin, traits, end);
  }

  /**
   * The signals of `set(controller:at:)`: first the installation; then, on a
   * shown pane, the new child's appearance transition begins before the trait
   * update and ends after it; on a hidden pane only the trait update follows.
   */
  lemma SideReplacementSignals(m: Machine, c: Controller, p: Position, portrait: bool)
    ensures var r := SetSideController(m, c, p, portrait);
      var added := r.log[|m.log|..];
      var install := Installation(c, ControllerAt(m.state, p), ContainerFor(p));
      && |install| < |added|
      && added[..|install|] == install
      && (!IsHidden(m.state, p) ==>
            added[|install|] == BeginAppearance(c, true, false) && added[|added| - 1] == EndAppearance(c))
      && (!IsHidden(m.state, p) ==>
            added == install + [BeginAppearance(c, true, false)] + TraitEvents(r.state, portrait) + [EndAppearance(c)])
      && (IsHidden(m.state, p) ==> added[|install|..] == TraitEvents(r.state, portrait))
  {
    var r := SetSideController(m, c, p, portrait);
    var install := Installation(c, ControllerAt(m.state, p), ContainerFor(p));
    var traits := TraitEvents(r.state, portrait);
    var shown := !IsHidden(m.state, p);
    var begin: seq<Event> := if shown then [BeginAppearance(c, true, false)] else [];
    var end: seq<Event> := if shown then [EndAppearance(c)] else [];
    SetSideControllerSteps(m, c, p, portrait, begin, end);
    AppendedParts(m.log, install, begin, traits, end);
  }

  /**
   * `set(middleController:)`: install `c` as the middle child, replacing the old
   * one (even `c` itself). The old child begins to disappear and the new one to
   * appear before the trait update, and both transitions end after it.
   */
  function SetMiddleController(m: Machine, c: Controller, portrait: bool): (r: Machine)
    ensures r.state.middle == c
    ensures ControllerAt(r.state, Left) == ControllerAt(m.state, Left)
    ensures ControllerAt(r.state, Right) == ControllerAt(m.state, Right)
    ensures forall q :: Offset(r.state, q) == Offset(m.state, q)
    ensures r.pending == m.pending
    ensures var previous := m.state.middle;
      r.log == m.log + Installation(c, Some(previous), MiddleContainer)
        + [BeginAppearance(previous, false, false), BeginAppearance(c, true, false)]
        + TraitEvents(r.state, portrait)
        + [EndAppearance(previous), EndAppearance(c)]
    ensures EmptyPanesHidden(m.state) ==> EmptyPanesHidden(r.state)
  {
    var previous := m.state.middle;
    var s := m.state.(middle := c);
    Machine(s, m.log + Installation(c, Some(previous), MiddleContainer)
      + [BeginAppearance(previous, false, false), BeginAppearance(c, true, false)]
      + TraitEvents(s, portrait)
      + [EndAppearance(previous), EndAppearance(c)], m.pending)
  }

  /**
   * `init(leftController:middleController:)`: the constraints start with the left
   * container on screen (constant 0) and the right container pushed off by the
   * side width; then the middle child and the left child are installed.
   */
  function Initial(left: Controller, middle: Controller, sideWidth: int, portrait: bool): (r: Machine)
    ensures r.state.middle == middle
    ensures ControllerAt(r.state, Left) == Some(left) && ControllerAt(r.state, Right) == None
    ensures Offset(r.state, Left) == 0 && Offset(r.state, Right) == sideWidth
    ensures r.pending == []
    ensures |r.log| >= 3 && r.log[..3] == [OverrideTraits(middle, None), Detach(middle), Attach(middle, MiddleContainer)]
  {
    var bare := Machine(State(middle, Some(left), None, 0, sideWidth), [], []);
    SetSideController(SetMiddleController(bare, middle, portrait), left, Left, portrait)
  }

  /** The initial state: left shown with its child, right hidden and empty. */
  lemma InitialState(left: Controller, middle: Controller, sideWidth: int, portrait: bool)
    requires sideWidth > 0
    ensures var m := Initial(left, middle, sideWidth, portrait);
      && m.state == State(middle, Some(left), None, 0, sideWidth)
      && !IsHidden(m.state, Left) && IsHidden(m.state, Right)
      && EmptyPanesHidden(m.state)
      && m.pending == []
  {
    var bare := Machine(State(middle, Some(left), None, 0, sideWidth), [], []);
    var m1 := SetMiddleController(bare, middle, portrait);
    assert m1.state == bare.state;
    var m2 := SetSideController(m1, left, Left, portrait);
    assert m2.state == bare.state;
  }

  /**
   * `viewWillAppear`/`viewDidAppear`/`viewWillDisappear`/`viewDidDisappear`: the
   * signal goes to each visible child, middle first.
   */
  function ForwardAppearance(m: Machine, sig: Signal): (r: Machine)
    ensures r.state == m.state && r.pending == m.pending
    ensures m.log <= r.log
    ensures forall e :: e in r.log[|m.log|..] ==> e.child in VisibleControllers(m.state) && e == SignalEvent(e.child, sig)
    ensures forall c :: c in VisibleControllers(m.state) ==> SignalEvent(c, sig) in r.log[|m.log|..]
  {
    var r := Machine(m.state, m.log + Broadcast(VisibleControllers(m.state), sig), m.pending);
    assert r.log[|m.log|..] == Broadcast(VisibleControllers(m.state), sig);
    BroadcastReaches(VisibleControllers(m.state), sig);
    r
  }

  /**
   * A container appearance event reaches the middle child, every installed side
   * child whose pane is shown, and no child of a hidden or empty pane.
   */
  lemma ForwardedOnlyToVisible(m: Machine, sig: Signal, c: Controller)
    ensures SignalEvent(c, sig) in ForwardAppearance(m, sig).log[|m.log|..] <==>
      c == m.state.middle || exists p :: ControllerAt(m.state, p) == Some(c) && !IsHidden(m.state, p)
  {
    var added := ForwardAppearance(m, sig).log[|m.log|..];
    if SignalEvent(c, sig) in added {
      assert SignalEvent(c, sig).child == c;
    }
  }
}
