# TripleViewController pane state machine, in Dafny

`TripleViewController` is an iPad container view controller. It shows three
children side by side. The middle child is always present. The left and right
children sit in side containers that can be slid off screen. This project
models what the container decides, with UIKit's layout and animation taken out:

- which child is installed in each slot;
- the two constraint constants that push the side containers off screen. A
  side pane is hidden exactly when its constant is positive;
- the order of the signals the container sends its children: attach/detach,
  trait overrides, begin/end appearance transitions.

The interface orientation (`isPortraitOrientation`) is a `portrait` parameter of
every operation that reads it.

Modules:

- `Panes` (panes.dfy) holds the stored state as a value (`State`) and the pure
  queries over it: `controller(at:)`, `isControllerHidden(at:)`,
  `sideViewControllers`, `allVisibleControllers`, the middle child's size class
  and `size(forChildContentContainer:withParentContainerSize:)`.
- `Transitions` (transitions.dfy) holds every operation as a function on a
  `Machine`. A `Machine` is the state plus the log of signals sent so far and
  the queue of completion blocks UIKit will run later. Offsets change at once.
  The end of an animated appearance transition is queued as a completion for
  its pane. It reaches the log only when `RunCompletions` runs the queue, and
  it goes to whatever child the pane's slot holds at that moment, as the closures
  at lines 262-266 and 273-277 do. The assertion at line 238
  becomes the outcome `AssertionFailed(p)`. All the lemmas about the operations
  live here.
- `Container` (container.dfy) holds the class `TripleViewController`. Its
  fields are the three slots, the two constants, the log and the queue, and
  its methods update them in place. Each method's postcondition says that the
  new state is exactly what the matching `Transitions` function gives for the
  old state. The `forEach` loops of the source become `for` loops with
  invariants. `Valid()` is the invariant that an empty side slot is hidden.

## Model

| member | source | states |
|---|---|---|
| `Panes.ControllerAtReadsOwnSlot` | ios-TripleViewController/TripleViewController.swift:84-89 | `controller(at:)` returns the left slot for `.left` and the right slot for `.right`: changing one slot changes what that position reads and leaves the other position's answer alone |
| `Panes.IsHiddenByOffset` | ios-TripleViewController/TripleViewController.swift:121-126 | a pane is hidden exactly when its constraint constant is positive, so a constant of 0 leaves it shown; changing one pane's constant leaves the other pane's visibility alone |
| `Panes.InstalledAt` | ios-TripleViewController/TripleViewController.swift:58-59 | the map/compactMap over positions holds exactly the children installed at those positions, and is no longer than the list of positions |
| `Panes.ShownAmong` | ios-TripleViewController/TripleViewController.swift:62-63 | the filter keeps exactly the listed positions whose pane is not hidden |
| `Panes.SideControllers` | ios-TripleViewController/TripleViewController.swift:58-60 | `sideViewControllers` is exactly the set of installed side children |
| `Panes.VisibleControllers` | ios-TripleViewController/TripleViewController.swift:61-65 | `allVisibleControllers` starts with the middle child and holds exactly the middle child plus every installed side child whose pane is not hidden |
| `Panes.MiddleTraitsByShownCount` | ios-TripleViewController/TripleViewController.swift:189-199 | the truth table pane by pane: in portrait the middle child is horizontally regular exactly when both side panes are hidden, and in landscape it is compact exactly when both are shown |
| `Panes.MiddleHorizontal` | ios-TripleViewController/TripleViewController.swift:189-199 | the portrait and landscape branches amount to one rule over the two hidden flags: regular exactly when the number of shown panes is below the orientation's budget (1 in portrait, 2 otherwise) |
| `Panes.MiddleTraits` | ios-TripleViewController/TripleViewController.swift:189-199 | the override given to the middle child is always vertically regular, and horizontally regular exactly when `ShownCount` of the state is below the budget |
| `Panes.ChildSize` | ios-TripleViewController/TripleViewController.swift:218-233 | the middle child gets the parent width minus the side width once per shown pane and minus the separators, and the parent height minus the bottom guide; the middle test wins when a child is in several slots; other installed children get the side width and the parent height; any other child is passed to the superclass |
| `Transitions.BroadcastAt` | ios-TripleViewController/TripleViewController.swift:184-186 | a `forEach` sends exactly one signal per child, in the children's order |
| `Transitions.BroadcastReaches` | ios-TripleViewController/TripleViewController.swift:184-186 | a `forEach` reaches every child in the list and nobody else |
| `Transitions.ContainerFor` | ios-TripleViewController/TripleViewController.swift:282-287 | each side position has its own side container, and neither is the middle container |
| `Transitions.TraitEventsCover` | ios-TripleViewController/TripleViewController.swift:175-199 | `updateOverrideTraitCollection()` (the function `Transitions.TraitEvents`) gives every installed side child compact/regular, ends with the middle child's traits, and sends only trait overrides |
| `Transitions.SetViewController` | ios-TripleViewController/TripleViewController.swift:237-280 | the assertion fails exactly when the slot is empty, whatever the requested visibility (it comes before the no-op guard). If the pane is already as requested, nothing changes and nothing is sent. Otherwise the constant becomes the child's view width when hiding or 0 when showing, and a begin signal with `appearing == !hidden` is sent before the trait update. The matching end is queued. The children and the other pane's constant are unchanged. With a positive view width the pane ends in the requested state. An empty slot stays hidden |
| `Transitions.SetControllerAsWritten` | ios-TripleViewController/TripleViewController.swift:133-141 | as written: in portrait an empty opposite slot makes the assertion fail for that slot; in landscape the call is `setViewController(p, hidden)` alone |
| `Transitions.SetController` | ios-TripleViewController/TripleViewController.swift:133-141 | corrected version (see Findings): fails only when slot `p` is empty, keeps the children, only appends to the log, and with a positive view width leaves `p` in the requested state |
| `Transitions.SetControllerLandscapeLocal` | ios-TripleViewController/TripleViewController.swift:133-141 | outside portrait only pane `p`'s constant can change |
| `Transitions.SetControllerPortraitExclusive` | ios-TripleViewController/TripleViewController.swift:134-139 | in portrait the opposite pane ends hidden, so at most one side pane is shown |
| `Transitions.SetControllerKeepsEmptyPanesHidden` | ios-TripleViewController/TripleViewController.swift:133-141 | the operation never brings an empty slot on screen |
| `Transitions.SetControllerIdempotent` | ios-TripleViewController/TripleViewController.swift:133-141 | requesting a pane's current visibility is a no-op outside portrait, or when the opposite pane is hidden. In portrait with the opposite pane shown, it still sends signals, because the opposite pane is hidden |
| `Transitions.CorrectedAgreesWithAsWritten` | ios-TripleViewController/TripleViewController.swift:133-141 | whenever the as-written operation completes, the corrected one gives the same result. When the as-written one fails on an empty, hidden opposite slot, the corrected one equals `setViewController(p, hidden)` alone |
| `Transitions.AsWrittenFailsWithoutRightController` | ios-TripleViewController/TripleViewController.swift:237-239 | right after `init` in portrait, the right slot is empty and hidden, yet toggling the left pane as written fails the assertion for the right slot. The corrected operation hides the left pane and leaves the right constant alone |
| `Transitions.ToggleController` | ios-TripleViewController/TripleViewController.swift:128-131 | corrected version (see Findings), as it goes through the corrected `Transitions.SetController`: toggling fails only on an empty slot, keeps the children and only appends to the log. It inverts the pane's hidden state, provided the pane is being shown or its view has positive width. As written, with assertions on, a portrait toggle also fails on an empty opposite slot (`Transitions.AsWrittenFailsWithoutRightController`) |
| `Transitions.LandscapeToggleTwice` | ios-TripleViewController/TripleViewController.swift:128-131 | outside portrait, two toggles of an installed pane whose view has positive width both complete and restore which panes are shown |
| `Transitions.PortraitScenario` | ios-TripleViewController/TripleViewController.swift:128-141 | with left A, middle M and then right B installed in portrait: left shown, right hidden, middle compact. Toggling right hides left and shows right, middle compact. Toggling right again hides it, middle regular |
| `Transitions.ToggleAll` | ios-TripleViewController/TripleViewController.swift:128-131 | corrected version (see Findings): a run of toggles keeps the children and only appends to the log; it fails only at a listed position whose slot is empty, and it completes whenever every listed slot is installed |
| `Transitions.PortraitTogglesKeepOneShown` | ios-TripleViewController/TripleViewController.swift:128-141 | corrected version (see Findings): in portrait, starting with empty slots hidden and installed children of positive view width, every run of toggles on installed panes completes. It keeps the children, and after each toggle at most one side pane is shown (`ShownCount` at most 1) |
| `Transitions.ViewWillTransition` | ios-TripleViewController/TripleViewController.swift:206-216 | queues the trait update for the end of the size transition, keeps the children, never fails while empty slots are hidden, and keeps them hidden |
| `Transitions.RotationCorrection` | ios-TripleViewController/TripleViewController.swift:213-215 | the left constant is never changed. With both side panes shown outside portrait and installed children of positive view width, the right pane ends hidden. In every other state no pane changes and no signal is sent |
| `Transitions.RunCompletions` | ios-TripleViewController/TripleViewController.swift:248-253 | running the queued completions keeps the panes, empties the queue and only appends to the log |
| `Transitions.RunCompletionsInOrder` | ios-TripleViewController/TripleViewController.swift:262-277 | every queued completion contributes its events at its own place in the queue. A pane completion sends exactly one end signal, to the child its slot holds when the block runs, or nothing for an empty slot (`self.leftController?`). A size transition's completion sends the trait update of the state at that time |
| `Transitions.CompletionEventsTargets` | ios-TripleViewController/TripleViewController.swift:262-277 | running the queue sends only end signals and trait overrides, and each end signal goes to a child installed in a side slot at that time |
| `Transitions.CompletionEndsCurrentChild` | ios-TripleViewController/TripleViewController.swift:262-266 | the end signal of a pane animation is bound when the block runs: if the pane's child is replaced first, the new child receives the end signal |
| `Transitions.TransitionThenCompletion` | ios-TripleViewController/TripleViewController.swift:255-278 | a transition followed by its completion sends the pane's child a begin signal with `appearing == !hidden`, then the trait update, then the matching end signal, and nothing else |
| `Transitions.Installation` | ios-TripleViewController/TripleViewController.swift:302-316 | an existing child loses its trait override and is detached before the new child is attached |
| `Transitions.SetSideController` | ios-TripleViewController/TripleViewController.swift:91-106 | `controller(at: p)` afterwards is the new child. The other slot, the middle slot, both constants and the queue are unchanged. An empty slot stays hidden |
| `Transitions.SideReplacementSignals` | ios-TripleViewController/TripleViewController.swift:91-106 | installation comes first. On a shown pane the signals after it are exactly the new child's begin, the trait update and the new child's end, in that order. On a hidden pane only the trait update follows |
| `Transitions.SetMiddleController` | ios-TripleViewController/TripleViewController.swift:108-119 | the middle slot holds the new child and the side slots and constants are unchanged. The old child is detached, the new one attached, and the old one's disappearance and the new one's appearance begin before the trait update and end after it |
| `Transitions.Initial` | ios-TripleViewController/TripleViewController.swift:289-294 | `init` followed by `setup()`: the middle and left children are installed, the right slot is empty, the left constant is 0 and the right one the side width, nothing is queued. The log starts by clearing the override of the middle child and detaching it, because `set(middleController:)` replaces the middle child with itself |
| `Transitions.InitialState` | ios-TripleViewController/TripleViewController.swift:289-294 | after `init` (constants left 0 at line 345, right the side width at line 348) the left child is installed and shown, the right slot is empty and hidden, and nothing is queued |
| `Transitions.ForwardAppearance` | ios-TripleViewController/TripleViewController.swift:145-163 | a container appearance event sends the same signal to each visible child and to no one else. The state and the queue are unchanged |
| `Transitions.ForwardedOnlyToVisible` | ios-TripleViewController/TripleViewController.swift:61-65 | a child receives a forwarded appearance signal exactly when it is the middle child or the child of a shown side pane |
| `Container.TripleViewController.constructor` | ios-TripleViewController/TripleViewController.swift:69-76 | the new object is valid and equals `Transitions.Initial` |
| `Container.TripleViewController.GetController` | ios-TripleViewController/TripleViewController.swift:84-89 | returns the stored child of the requested slot |
| `Container.TripleViewController.IsControllerHidden` | ios-TripleViewController/TripleViewController.swift:121-126 | hidden exactly when the pane's constraint constant is strictly positive |
| `Container.TripleViewController.SetSideController` | ios-TripleViewController/TripleViewController.swift:91-106 | performs `Transitions.SetSideController` in place and stays valid |
| `Container.TripleViewController.SetMiddleController` | ios-TripleViewController/TripleViewController.swift:108-119 | performs `Transitions.SetMiddleController` in place and stays valid |
| `Container.TripleViewController.ToggleController` | ios-TripleViewController/TripleViewController.swift:128-131 | performs the corrected `Transitions.ToggleController` in place (see Findings) and stays valid |
| `Container.TripleViewController.SetController` | ios-TripleViewController/TripleViewController.swift:133-141 | performs the corrected `Transitions.SetController` in place and stays valid |
| `Container.TripleViewController.SetViewController` | ios-TripleViewController/TripleViewController.swift:237-280 | performs `Transitions.SetViewController` in place; the assertion is its precondition |
| `Container.TripleViewController.ViewWillTransition` | ios-TripleViewController/TripleViewController.swift:206-216 | performs `Transitions.ViewWillTransition` in place and stays valid |
| `Container.TripleViewController.RunCompletions` | ios-TripleViewController/TripleViewController.swift:248-253 | runs the queue in order, ending for each pane completion the child that slot holds at that time, as `Transitions.RunCompletions` and `Transitions.RunCompletionsInOrder` describe |
| `Container.TripleViewController.ViewWillAppear` | ios-TripleViewController/TripleViewController.swift:145-148 | begins the appearance of every visible child (`appearing` true) |
| `Container.TripleViewController.ViewDidAppear` | ios-TripleViewController/TripleViewController.swift:150-153 | ends the appearance transition of every visible child |
| `Container.TripleViewController.ViewWillDisappear` | ios-TripleViewController/TripleViewController.swift:155-158 | begins the disappearance of every visible child (`appearing` false) |
| `Container.TripleViewController.ViewDidDisappear` | ios-TripleViewController/TripleViewController.swift:160-163 | ends the appearance transition of every visible child |
| `Container.TripleViewController.ForwardToVisibleControllers` | ios-TripleViewController/TripleViewController.swift:61-65 | the loop over `allVisibleControllers` appends exactly `Transitions.ForwardAppearance`'s signals |
| `Container.TripleViewController.UpdateOverrideTraitCollection` | ios-TripleViewController/TripleViewController.swift:175-178 | appends exactly the trait update of the current state |
| `Container.TripleViewController.UpdateOverrideTraitCollectionForSideControllers` | ios-TripleViewController/TripleViewController.swift:180-187 | the loop gives each installed side child compact/regular, left first |
| `Container.TripleViewController.UpdateOverrideTraitCollectionForMiddleController` | ios-TripleViewController/TripleViewController.swift:189-199 | gives the middle child the orientation-dependent traits |
| `Container.TripleViewController.InstallChildController` | ios-TripleViewController/TripleViewController.swift:302-316 | appends exactly the installation signals |

## Findings

| source | as written | input that shows it | evidently intended | confidence | as-written member | corrected member |
|---|---|---|---|---|---|---|
| ios-TripleViewController/TripleViewController.swift:133-141 | In portrait, `setController(at:hidden:)` forces the opposite pane hidden through `setViewController(at:hidden:)`. That call asserts a controller exists at line 238, before its no-op guard at line 239, so the assert also fires for an empty opposite slot | Portrait, with only the left and middle children installed: the state right after `init(leftController:middleController:)`, whose right slot is empty and hidden. Then `toggleContoller(at: .left)` fails the assertion for `.right`. An app with no right pane cannot show or hide its left pane in portrait in a build with assertions on | An empty opposite slot is hidden anyway, so the forced hide is skipped. Pane `p` itself keeps its assertion | medium; not executed | `Transitions.SetControllerAsWritten`, `Transitions.AsWrittenFailsWithoutRightController` | `Transitions.SetController`, `Transitions.CorrectedAgreesWithAsWritten`, `Transitions.SetControllerPortraitExclusive` |

## Behaviour of the code worth knowing

- Replacing a side or middle child with the same child is not a no-op. The child
  is detached and attached again, and for the middle slot it gets begin/end
  signals in both directions. `init` itself does this for both of its children.
- The left pane starts shown (constant 0) and the right pane starts hidden
  (constant equal to the side width); `Transitions.PortraitScenario` starts
  from that state.
- Requesting a pane's current visibility is not always a no-op. In portrait it
  still hides a shown opposite pane (`Transitions.SetControllerIdempotent`).
- Nothing guards against a second transition on a pane whose animation has not
  finished. The model applies each request at once and queues the completions
  in order. No per-pane in-flight flag or request queue exists.
- The middle child's width subtracts the two separator views' widths whether
  or not the panes beside them are shown.
- The rotation correction at line 213 runs only when the new orientation is not
  portrait. A size transition into portrait with both side panes shown leaves
  both shown (`Transitions.RotationCorrection`, its last clause). So "at most
  one side pane shown in portrait" is established by each `setController` call,
  not kept across rotations, and `Transitions.PortraitTogglesKeepOneShown` does
  not assume it of its starting state.

## Left out

- Auto Layout: the visual-format constraints, `NSLayoutConstraint.activate` and
  `layoutIfNeeded` in `setupContainers` (lines 318-361) are framework layout.
  Only the two initial constants (lines 345 and 348) are kept.
- Animation: `UIView.animate` durations and interpolation (lines 241-254) are
  timing only. The constant changes at once and the completion block is queued.
  Queued completions, including the size transition's trait update (line 211),
  run in the order they were queued. UIKit does not promise that order.
- `sideContainerWidth(for:)` (lines 201-204) is floating-point division and
  rounding. The side width is an integer parameter (`sideWidth`), and all
  widths and constants are integers rather than `CGFloat`.
- A child's view width is a fixed attribute of the child (`viewWidth`). The
  model does not track it changing during layout.
- The delegate callbacks `willChangeMiddleControllerToSize` and
  `didChangeMiddleControllerToSize` (lines 247 and 251) are optional external
  observers.
- `shouldEndEditingControllerOnHide` and `endEditing` (lines 259-261 and
  269-271) only resign the keyboard in a foreign view hierarchy.
- `childForStatusBarStyle` and `shouldAutomaticallyForwardAppearanceMethods`
  (lines 165-171) are framework configuration.
- The pad-idiom `precondition` and `init(coder:)` (lines 70-71 and 78-80) fail
  outside the modelled device.
- `UIApplication.shared.statusBarOrientation` (lines 55-57) is a framework
  query. `bottomLayoutGuide.length` and the separator widths are parameters of
  `Panes.ChildSize`.
- The `tripleViewController` parent walk (lines 366-370) is UIKit containment
  plumbing. `addChildViewController` and `removeFromParentController` are the
  `Attach` and `Detach` events.
- `Transitions.SetControllerPortraitExclusive`: proved only when every
  installed child's view has positive width. With a zero-width view the code
  sets the constant to 0 when hiding, so that pane stays shown.
- `Transitions.PortraitTogglesKeepOneShown`: needs the same positive view
  widths, for the same reason.
- `Transitions.RotationCorrection`: the right pane ending hidden is proved only
  for installed children of positive view width, for the same reason.
- `Transitions.LandscapeToggleTwice`: proved only for a view of positive width.
  A zero-width view stays shown when hidden, so the second toggle would show
  it again rather than restore it.
- The assertion at line 238 is modelled as always checked, the semantics of a
  build with assertions on. In an optimized build it is not evaluated. Then
  `setViewController(at:hidden: false)` on an empty, hidden slot passes the
  guard and sets the constant to 0, putting an empty container on screen. The
  force-unwrap at lines 257 and 272 runs only when hiding. The model has no
  such build.
- `RunCompletions`: UIKit runs each completion block separately, and other
  operations can run between two of them. The model runs every queued block at
  once against one state. Each pane block still ends whatever child its slot
  holds at that moment.
- ViewController.swift, ChildViewController.swift and AppDelegate.swift are
  demo screens, logging and window setup, and are not part of this model.
