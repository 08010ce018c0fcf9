/**
  The activation controller of the CommonJS `index.js`, as a pure state
  machine. Here the reference corners are the left edge of the active item's
  submenu, the predicate has no fast paths besides "nothing active", the
  mouse leaving the menu-plus-submenu box deactivates, and the menu element
  carries a "delaying" class while a switch is deferred.

  Element geometry is read from the page at each use in the source; here it
  is a fixed `Layout`. The classes on elements become `marked` (items with
  the active class) and `delaying` (the menu element's delaying class).
 */
module SubmenuAim {
  import opened Options
  import opened Geometry

  /** What `getBoundingClientRect` and the offsets give of one element: its
      page-space origin and its size. */
  datatype Element = Element(origin: Point, width: real, height: real)

  /** The `{x: [x0, x1], y: [y0, y1]}` extreme coordinates of an element. */
  datatype Box = Box(x0: real, x1: real, y0: real, y1: real)

  /** The menu element, and the submenu found inside each item. */
  datatype Layout<!Item> = Layout(menu: Element, submenuOf: Item -> Element)

  datatype State<Item> = State(
    active: Option<Item>,        // activeMenuItem
    submenu: Option<Element>,    // activeSubMenu and its offset, never cleared
    increasing: Option<Point>,   // increasingCorner
    decreasing: Option<Point>,   // decreasingCorner
    previous: Option<Point>,     // previousCoordinates; None while its fields are undefined
    current: Option<Point>,      // currentCoordinates; None while its fields are undefined
    pending: Option<Item>,       // the item a scheduled timeout re-checks
    delaying: bool,              // the menu element carries the delaying class
    marked: set<Item>)           // items carrying the active class

  function Initial<Item>(): State<Item> {
    State(None, None, None, None, None, None, None, false, {})
  }

  /** `calculateExtremeCoordinates`. */
  function Extremes(e: Element): (b: Box)
    ensures e.width >= 0.0 && e.height >= 0.0 ==> b.x0 <= b.x1 && b.y0 <= b.y1
    ensures b.x1 - b.x0 == e.width && b.y1 - b.y0 == e.height
  {
    Box(e.origin.x, e.origin.x + e.width, e.origin.y, e.origin.y + e.height)
  }

  /** The test of `possiblyDeactivateActiveMenuItem`; a sample with undefined
      fields compares false with everything, so it is never outside. */
  predicate OutsideBox(b: Box, sample: Option<Point>) {
    match sample
    case None => false
    case Some(p) => p.x < b.x0 || p.x > b.x1 || p.y < b.y0 || p.y > b.y1
  }

  predicate InBox(b: Box, p: Point) {
    b.x0 <= p.x <= b.x1 && b.y0 <= p.y <= b.y1
  }

  /** The corners are set exactly while an item is active. */
  ghost predicate CornersSet<Item>(s: State<Item>) {
    s.active.Some? ==> s.increasing.Some? && s.decreasing.Some? && s.submenu.Some?
  }

  /** What every reachable state satisfies: exactly the active item carries
      the active class; the corners and the submenu are those of the active
      item's submenu and are cleared with it; a re-check is pending exactly
      while the menu carries the delaying class, and only while an item is
      active. */
  ghost predicate Inv<Item>(layout: Layout<Item>, s: State<Item>) {
    && s.marked == ActiveSet(s.active)
    && (s.active.None? ==> s.increasing.None? && s.decreasing.None?)
    && (s.active.Some? ==>
          var sub := layout.submenuOf(s.active.value);
          var b := Extremes(sub);
          && s.submenu == Some(sub)
          && s.increasing == Some(Point(b.x0, b.y0))
          && s.decreasing == Some(Point(b.x0, b.y1)))
    && (s.delaying <==> s.pending.Some?)
    && (s.pending.Some? ==> s.active.Some?)
  }

  /** `shouldChangeActiveMenuItem`: change when nothing is active, when the
      gradient towards the increasing corner grew, or when the gradient towards
      the decreasing corner shrank. It reads the state and writes nothing. */
  predicate ShouldChange<Item>(s: State<Item>)
    requires CornersSet(s)
  {
    || s.active.None?
    || Less(SampleGradient(s.previous, s.increasing.value), SampleGradient(s.current, s.increasing.value))
    || Greater(SampleGradient(s.previous, s.decreasing.value), SampleGradient(s.current, s.decreasing.value))
  }

  /** `calculateMenuElementExtremeCoordinates`: the menu box while nothing is
      active, otherwise the box from the menu's low corner to the far corner
      of the active submenu. */
  function EffectiveBox<Item>(layout: Layout<Item>, s: State<Item>): Box
    requires CornersSet(s)
  {
    var menu := Extremes(layout.menu);
    if s.active.None? then menu
    else
      var sub := s.submenu.value;
      var offset := Extremes(sub);
      Box(menu.x0, offset.x0 + sub.width, menu.y0, offset.y0 + sub.height)
  }

  /** `deactivateActiveMenuItem`. */
  function Deactivate<Item>(s: State<Item>): State<Item> {
    match s.active
    case None => s
    case Some(item) =>
      s.(delaying := false, marked := s.marked - {item},
         active := None, increasing := None, decreasing := None)
  }

  /** `activateMenuItem`: the item becomes active and the corners are taken
      from the left edge of its submenu, top for increasing, bottom for
      decreasing. */
  function Activate<Item>(layout: Layout<Item>, s: State<Item>, item: Item): State<Item> {
    var sub := layout.submenuOf(item);
    var offset := Extremes(sub);
    s.(active := Some(item), marked := s.marked + {item}, submenu := Some(sub),
       increasing := Some(Point(offset.x0, offset.y0)),
       decreasing := Some(Point(offset.x0, offset.y1)))
  }

  /** `possiblyDeactivateActiveMenuItem`. */
  function PossiblyDeactivate<Item>(layout: Layout<Item>, s: State<Item>): State<Item>
    requires CornersSet(s)
  {
    if OutsideBox(EffectiveBox(layout, s), s.current) then Deactivate(s.(pending := None))
    else s
  }

  /** `possiblyActivateMenuItem`, the handler of the mouse entering `item`. */
  function PossiblyActivate<Item>(layout: Layout<Item>, s: State<Item>, item: Item): State<Item>
    requires CornersSet(s)
  {
    var t := s.(pending := None);
    if ShouldChange(t) then Activate(layout, Deactivate(t), item)
    else t.(delaying := true, pending := Some(item))
  }

  /** The scheduled timeout running out: `possiblyActivateMenuItem` again. */
  function FireTimer<Item>(layout: Layout<Item>, s: State<Item>): State<Item>
    requires CornersSet(s)
  {
    match s.pending
    case None => s
    case Some(item) => PossiblyActivate(layout, s, item)
  }

  /** `onWindowMouseMove`. */
  function OnWindowMouseMove<Item>(layout: Layout<Item>, s: State<Item>, p: Point): State<Item>
    requires CornersSet(s)
  {
    var t := s.(previous := s.current, current := Some(p));
    if t.active.Some? then PossiblyDeactivate(layout, t) else t
  }

  // ---------------------------------------------------------------------
  // The invariant

  lemma InitialInv<Item>(layout: Layout<Item>)
    ensures Inv(layout, Initial<Item>())
  {
  }

  /** Each entry point keeps the invariant. In particular the delaying
      class is on the menu only while an item is active: it is added only on
      the branch that needs an active item, and every deactivation removes it. */
  lemma PossiblyActivateKeepsInv<Item>(layout: Layout<Item>, s: State<Item>, item: Item)
    requires Inv(layout, s)
    ensures Inv(layout, PossiblyActivate(layout, s, item))
  {
  }

  lemma FireTimerKeepsInv<Item>(layout: Layout<Item>, s: State<Item>)
    requires Inv(layout, s)
    ensures Inv(layout, FireTimer(layout, s))
  {
  }

  lemma MouseMoveKeepsInv<Item>(layout: Layout<Item>, s: State<Item>, p: Point)
    requires Inv(layout, s)
    ensures Inv(layout, OnWindowMouseMove(layout, s, p))
  {
  }

  /** The delaying class is never on the menu while nothing is active, and at
      most one item carries the active class. */
  lemma DelayingOnlyWhileActive<Item>(layout: Layout<Item>, s: State<Item>)
    requires Inv(layout, s)
    ensures s.delaying ==> s.active.Some?
    ensures |s.marked| <= 1
  {
  }

  // ---------------------------------------------------------------------
  // One transition at a time

  /** The predicate in the finite case: with both samples defined and no
      vertical line to a corner, it asks for change exactly when the
      gradient to the top corner grew or the one to the bottom corner shrank. */
  lemma ShouldChangeFinite<Item>(s: State<Item>)
    requires CornersSet(s) && s.active.Some?
    requires s.previous.Some? && s.current.Some?
    requires s.previous.value.x != s.increasing.value.x && s.current.value.x != s.increasing.value.x
    requires s.increasing.value.x == s.decreasing.value.x
    ensures var prev, cur := s.previous.value, s.current.value;
      ShouldChange(s) <==>
        || Gradient(prev, s.increasing.value).value < Gradient(cur, s.increasing.value).value
        || Gradient(prev, s.decreasing.value).value > Gradient(cur, s.decreasing.value).value
  {
  }

  /** With an item active and a sample still undefined, every gradient is
      NaN and every comparison false, so the predicate never asks for a
      change: entering another item is deferred. */
  lemma MissingSampleDefers<Item>(layout: Layout<Item>, s: State<Item>, item: Item)
    requires Inv(layout, s) && s.active.Some? && (s.previous.None? || s.current.None?)
    ensures !ShouldChange(s)
    ensures PossiblyActivate(layout, s, item).pending == Some(item)
  {
  }

  /** With an item active and the mouse not moved between the two samples,
      the gradients are equal and the predicate does not ask for a change. */
  lemma StillMouseDefers<Item>(layout: Layout<Item>, s: State<Item>)
    requires Inv(layout, s) && s.active.Some? && s.previous == s.current
    ensures !ShouldChange(s)
  {
  }

  /** Activation takes the increasing corner from the submenu's (x0, y0)
      and the decreasing corner from its (x0, y1): both lie on the submenu's
      left edge, the increasing one above, as far apart as the submenu is
      high. */
  lemma ActivateSetsCorners<Item>(layout: Layout<Item>, s: State<Item>, item: Item)
    ensures var t := Activate(layout, s, item);
      var sub := layout.submenuOf(item);
      && t.active == Some(item) && item in t.marked
      && t.increasing == Some(sub.origin) && t.decreasing.Some?
      && t.decreasing.value.x == sub.origin.x
      && t.decreasing.value.y - t.increasing.value.y == sub.height
  {
  }

  /** Deactivating an active item clears it and both corners and removes the
      delaying class; with nothing active it changes nothing. */
  lemma DeactivateEffect<Item>(layout: Layout<Item>, s: State<Item>)
    requires Inv(layout, s)
    ensures s.active.None? ==> Deactivate(s) == s
    ensures var t := Deactivate(s);
      && t.active.None? && t.increasing.None? && t.decreasing.None?
      && !t.delaying && t.marked == {}
      && t.(active := s.active, increasing := s.increasing, decreasing := s.decreasing,
            delaying := s.delaying, marked := s.marked) == s
  {
  }

  /** While nothing is active the effective box is the menu's. Otherwise it
      runs from the menu's low corner to the submenu's far corner, and when
      the submenu lies right of and below the menu's low corner and reaches
      at least as far as the menu, it covers both the menu and the submenu. */
  lemma EffectiveBoxCovers<Item>(layout: Layout<Item>, s: State<Item>, p: Point)
    requires Inv(layout, s)
    requires layout.menu.width >= 0.0 && layout.menu.height >= 0.0
    ensures s.active.None? ==> EffectiveBox(layout, s) == Extremes(layout.menu)
    ensures s.active.Some? ==>
      var menu, sub := Extremes(layout.menu), Extremes(layout.submenuOf(s.active.value));
      && EffectiveBox(layout, s) == Box(menu.x0, sub.x1, menu.y0, sub.y1)
      && (sub.x0 >= menu.x0 && sub.y0 >= menu.y0 && sub.x1 >= menu.x1 && sub.y1 >= menu.y1 ==>
            && menu.x0 <= sub.x1 && menu.y0 <= sub.y1
            && (InBox(menu, p) ==> InBox(EffectiveBox(layout, s), p))
            && (InBox(sub, p) ==> InBox(EffectiveBox(layout, s), p)))
  {
  }

  /** The effective box is not the union of the two boxes: a submenu that
      reaches above the menu's top edge has its top-left corner outside it,
      so a mouse there deactivates the item. */
  lemma EffectiveBoxMissesRaisedSubmenu<Item>(layout: Layout<Item>, s: State<Item>)
    requires Inv(layout, s) && s.active.Some?
    requires layout.submenuOf(s.active.value).origin.y < layout.menu.origin.y
    ensures var sub := layout.submenuOf(s.active.value);
      OutsideBox(EffectiveBox(layout, s), Some(sub.origin))
  {
  }

  /** A mouse move shifts the current sample into the previous slot and
      stores the new point. If an item is active and the point lies outside
      the effective box, the re-check is cancelled and nothing stays active;
      otherwise the active item, the re-check and the markers are unchanged. */
  lemma MouseMoveEffect<Item>(layout: Layout<Item>, s: State<Item>, p: Point)
    requires Inv(layout, s)
    ensures var t := OnWindowMouseMove(layout, s, p);
      && t.previous == s.current && t.current == Some(p)
      && if s.active.Some? && OutsideBox(EffectiveBox(layout, s), Some(p)) then
           t.active.None? && t.pending.None? && !t.delaying && t.marked == {}
         else
           t == s.(previous := s.current, current := Some(p))
  {
  }

  /** Entering an item always cancels the re-check first. If the predicate
      asks for a change, the item ends up the only active one, even when it
      was already active; otherwise the active item stays, the menu is
      marked delaying, and exactly one re-check, for this item, is pending. */
  lemma PossiblyActivateOutcome<Item>(layout: Layout<Item>, s: State<Item>, item: Item)
    requires Inv(layout, s)
    ensures var t := PossiblyActivate(layout, s, item);
      if ShouldChange(s) then
        t.active == Some(item) && t.marked == {item} && t.pending.None? && !t.delaying
      else
        t.active == s.active && t.active.Some? && t.marked == s.marked
        && t.pending == Some(item) && t.delaying
  {
  }

  /** No stale-sample bypass here: when entering an item was deferred and no
      mouse move arrives before the re-check fires, the re-check defers again,
      to the very same state, so the switch waits for the next mouse move. */
  lemma RecheckWithoutMoveDefersAgain<Item>(layout: Layout<Item>, s: State<Item>, item: Item)
    requires Inv(layout, s) && !ShouldChange(s)
    ensures var deferred := PossiblyActivate(layout, s, item);
      FireTimer(layout, deferred) == deferred
  {
  }

  /**
    What a deferral means: with an item active whose submenu has positive
    height and the previous sample left of the submenu's left edge, entering
    another item is deferred only if the cursor did not move left, away from
    the submenu.
   */
  lemma DeferredMeansNotMovingAway<Item>(layout: Layout<Item>, s: State<Item>, item: Item)
    requires Inv(layout, s) && s.active.Some?
    requires layout.submenuOf(s.active.value).height > 0.0
    requires s.previous.Some? && s.current.Some?
    requires s.previous.value.x < layout.submenuOf(s.active.value).origin.x
    requires PossiblyActivate(layout, s, item).pending.Some?
    ensures s.previous.value.x <= s.current.value.x
  {
    if s.current.value.x < layout.submenuOf(s.active.value).origin.x {
      NotDivergingMovesTowardEdge(s.previous.value, s.current.value, s.increasing.value, s.decreasing.value);
    }
  }
}
