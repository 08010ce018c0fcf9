/**
  The activation controller of `src/index.js`, as a pure state machine.

  The closure variables of `menuAim` become the fields of `State`; the
  `setTimeout` handle becomes `pending`, the item whose re-check is
  scheduled; the active class on menu items becomes the set `marked`; and
  the user callbacks become an event log. `MenuAimController` runs the same
  transitions in place and is proved against these functions.
 */
module MenuAim {
  import opened Options
  import opened Geometry
  import opened MenuBounds

  /** A callback invocation: `activateCallback`, `deactivateCallback`, or
      `mouseLeaveCallback` with the item active at that moment (if any). */
  datatype Event<Item> = Activated(item: Item) | Deactivated(item: Item) | Left(active: Option<Item>)

  /** What `menuAim` computes once, when it is set up. */
  datatype Config = Config(bounds: Rectangle, corners: CornerPair)

  datatype State<Item> = State(
    active: Option<Item>,        // activeMenuItem
    pending: Option<Item>,       // the item a scheduled timeout re-checks
    previous: Option<Point>,     // previousCoordinates
    current: Option<Point>,      // currentCoordinates
    lastChecked: Option<Point>,  // lastCheckedCoordinates
    marked: set<Item>,           // items carrying the active class
    log: seq<Event<Item>>)       // callbacks invoked so far

  /** The result of `shouldChangeActiveMenuItem`, which also writes
      `lastCheckedCoordinates`. */
  datatype Check<Item> = Check(change: bool, state: State<Item>)

  /** The menu rectangle and the reference corners for a menu at the given
      page offset and size, opening its submenus towards `direction`. */
  function Configure(top: real, left: real, width: real, height: real, direction: string): Config {
    var r := MenuRectangle(top, left, width, height);
    Config(r, ReferenceCorners(direction, r))
  }

  function Initial<Item>(): State<Item> {
    State(None, None, None, None, None, {}, [])
  }

  /** `log` is what the callbacks of a controller that started with no
      active item can have reported, ending with `active` active: an item is
      activated only when none is, deactivated only while it is the active
      one, and a leave reports the item active at that moment. */
  ghost predicate Trace<Item>(log: seq<Event<Item>>, active: Option<Item>)
    decreases |log|
  {
    if log == [] then active.None?
    else
      var earlier := log[..|log| - 1];
      match log[|log| - 1]
      case Activated(item) => active == Some(item) && Trace(earlier, None)
      case Deactivated(item) => active.None? && Trace(earlier, Some(item))
      case Left(item) => item == active && Trace(earlier, active)
  }

  /** What every reachable state satisfies: exactly the active item carries
      the active class, a re-check is only pending while an item is active,
      and the callbacks tell the story of the active item. */
  ghost predicate Inv<Item>(s: State<Item>) {
    && s.marked == ActiveSet(s.active)
    && (s.pending.Some? ==> s.active.Some?)
    && Trace(s.log, s.active)
  }

  /** `saveMouseCoordinates`. */
  function SaveMouseCoordinates<Item>(s: State<Item>, p: Point): State<Item> {
    s.(previous := s.current, current := Some(p))
  }

  /** `cancelPendingMenuItemActivations`. */
  function CancelPending<Item>(s: State<Item>): State<Item> {
    s.(pending := None)
  }

  /** `deactivateActiveMenuItem`. */
  function Deactivate<Item>(s: State<Item>): State<Item> {
    match s.active
    case None => s
    case Some(item) =>
      s.(active := None, marked := s.marked - {item}, log := s.log + [Deactivated(item)])
  }

  /** `activateMenuItem`. */
  function Activate<Item(==)>(s: State<Item>, item: Item): State<Item> {
    if s.active == Some(item) then s
    else
      var d := Deactivate(s);
      d.(active := Some(item), marked := d.marked + {item}, log := d.log + [Activated(item)])
  }

  /** The trajectory test: the gradient towards the decreasing corner went
      down and the one towards the increasing corner went up. */
  predicate Converging(c: CornerPair, prev: Point, cur: Point) {
    && Less(Gradient(cur, c.decreasing), Gradient(prev, c.decreasing))
    && Greater(Gradient(cur, c.increasing), Gradient(prev, c.increasing))
  }

  /** `shouldChangeActiveMenuItem`. */
  function ShouldChange<Item>(cfg: Config, s: State<Item>): Check<Item> {
    if s.active.None? then Check(true, s)
    else if s.current.None? || s.previous.None? then Check(true, s)
    else if Outside(cfg.bounds, s.previous.value) then Check(true, s)
    else if s.lastChecked.Some? && s.current.value == s.lastChecked.value then Check(true, s)
    else if Converging(cfg.corners, s.previous.value, s.current.value) then
      Check(false, s.(lastChecked := s.current))
    else Check(true, s.(lastChecked := None))
  }

  /** `possiblyActivateMenuItem`, the handler of a mouse entering `item`. */
  function PossiblyActivate<Item(==)>(cfg: Config, s: State<Item>, item: Item): State<Item> {
    var check := ShouldChange(cfg, CancelPending(s));
    if check.change then Activate(check.state, item)
    else check.state.(pending := Some(item))
  }

  /** The scheduled timeout running out: it calls `possiblyActivateMenuItem`
      again for the item it was scheduled for. */
  function FireTimer<Item(==)>(cfg: Config, s: State<Item>): State<Item> {
    match s.pending
    case None => s
    case Some(item) => PossiblyActivate(cfg, s, item)
  }

  /** `onMouseLeave`. */
  function OnMouseLeave<Item>(cfg: Config, s: State<Item>): State<Item> {
    var check := ShouldChange(cfg, s);
    if check.change then
      var t := CancelPending(check.state);
      Deactivate(t.(log := t.log + [Left(t.active)]))
    else check.state
  }

  /** `onMenuItemClick`. */
  function OnMenuItemClick<Item(==)>(s: State<Item>, item: Item): State<Item> {
    Activate(CancelPending(s), item)
  }

  function Activations<Item>(log: seq<Event<Item>>): nat {
    if log == [] then 0
    else Activations(log[..|log| - 1]) + (if log[|log| - 1].Activated? then 1 else 0)
  }

  function Deactivations<Item>(log: seq<Event<Item>>): nat {
    if log == [] then 0
    else Deactivations(log[..|log| - 1]) + (if log[|log| - 1].Deactivated? then 1 else 0)
  }

  // ---------------------------------------------------------------------
  // The invariant

  lemma InitialInv<Item>()
    ensures Inv(Initial<Item>())
  {
  }

  /** Recording a sample keeps the invariant. */
  lemma SaveMouseCoordinatesKeepsInv<Item>(s: State<Item>, p: Point)
    requires Inv(s)
    ensures Inv(SaveMouseCoordinates(s, p))
  {
  }

  /** The re-check firing keeps the invariant. */
  lemma FireTimerKeepsInv<Item>(cfg: Config, s: State<Item>)
    requires Inv(s)
    ensures Inv(FireTimer(cfg, s))
  {
  }

  /** Leaving the menu keeps the invariant. */
  lemma MouseLeaveKeepsInv<Item>(cfg: Config, s: State<Item>)
    requires Inv(s)
    ensures Inv(OnMouseLeave(cfg, s))
  {
  }

  /** A click keeps the invariant. */
  lemma ClickKeepsInv<Item>(s: State<Item>, item: Item)
    requires Inv(s)
    ensures Inv(OnMenuItemClick(s, item))
  {
  }

  /** Entering an item keeps the invariant. */
  lemma PossiblyActivateKeepsInv<Item>(cfg: Config, s: State<Item>, item: Item)
    requires Inv(s)
    ensures Inv(PossiblyActivate(cfg, s, item))
  {
  }

  /** Single-active invariant: at most one item carries the active class,
      and it is the active one. */
  lemma AtMostOneActive<Item>(s: State<Item>, item: Item)
    requires Inv(s)
    ensures |s.marked| <= 1
    ensures item in s.marked <==> s.active == Some(item)
  {
  }

  /** The callbacks stay balanced: one more activation than deactivations
      exactly while an item is active, as many otherwise. */
  lemma {:induction false} TraceBalance<Item>(log: seq<Event<Item>>, active: Option<Item>)
    requires Trace(log, active)
    ensures Activations(log) == Deactivations(log) + (if active.Some? then 1 else 0)
  {
    if log != [] {
      var earlier := log[..|log| - 1];
      match log[|log| - 1]
      case Activated(item) => TraceBalance(earlier, None);
      case Deactivated(item) => TraceBalance(earlier, Some(item));
      case Left(item) => TraceBalance(earlier, active);
    }
  }

  // ---------------------------------------------------------------------
  // One transition at a time

  /** Recording a sample shifts the current sample into the previous slot,
      stores the new one, and changes nothing else. */
  lemma SaveMouseCoordinatesShifts<Item>(s: State<Item>, p: Point)
    ensures var t := SaveMouseCoordinates(s, p);
      && t.previous == s.current && t.current == Some(p)
      && t.(previous := s.previous, current := s.current) == s
  {
  }

  /** Activating the active item does nothing. Otherwise the old item (if
      any) gets exactly one deactivate callback, then the new one exactly
      one activate callback, and the new item is the only active one. */
  lemma ActivateEffect<Item>(s: State<Item>, item: Item)
    requires Inv(s)
    ensures s.active == Some(item) ==> Activate(s, item) == s
    ensures s.active != Some(item) ==>
      var a := Activate(s, item);
      && a.active == Some(item) && a.marked == {item}
      && a.log == s.log + (match s.active
                           case None => [Activated(item)]
                           case Some(previous) => [Deactivated(previous), Activated(item)])
      && a.(active := s.active, marked := s.marked, log := s.log) == s
  {
  }

  /** The verdict is "change" without looking at the trajectory, and the
      state is left as it was, when no item is active, a sample is missing,
      the previous sample lies outside the menu rectangle, or the mouse has
      not moved since the last inconclusive check. */
  lemma ShouldChangeFastPaths<Item>(cfg: Config, s: State<Item>)
    requires || s.active.None? || s.previous.None? || s.current.None?
             || Outside(cfg.bounds, s.previous.value)
             || s.current == s.lastChecked
    ensures ShouldChange(cfg, s) == Check(true, s)
  {
  }

  /** Past the fast paths, the verdict is "wait" exactly when the trajectory
      converges on the reference corners; waiting remembers the current
      sample as last checked, changing forgets it. */
  lemma ShouldChangeOnTrajectory<Item>(cfg: Config, s: State<Item>)
    requires s.active.Some? && s.previous.Some? && s.current.Some?
    requires !Outside(cfg.bounds, s.previous.value) && s.current != s.lastChecked
    ensures var check := ShouldChange(cfg, s);
      && (!check.change <==> Converging(cfg.corners, s.previous.value, s.current.value))
      && check.state == s.(lastChecked := if check.change then None else s.current)
  {
  }

  /** Entering an item always drops the pending re-check first; then either
      the item is active and nothing is pending, or the active item is
      unchanged and exactly one re-check, for this item, is pending. */
  lemma PossiblyActivateOutcome<Item>(cfg: Config, s: State<Item>, item: Item)
    requires Inv(s)
    ensures var t := PossiblyActivate(cfg, s, item);
      || (t.active == Some(item) && t.pending.None? && t.marked == {item})
      || (t.active == s.active && t.active.Some? && t.pending == Some(item)
          && t.marked == s.marked && t.log == s.log && t.lastChecked == s.current)
  {
  }

  /** With no active item, entering an item activates it at once. */
  lemma IdleFastPath<Item>(cfg: Config, s: State<Item>, item: Item)
    requires Inv(s) && s.active.None?
    ensures var t := PossiblyActivate(cfg, s, item);
      t.active == Some(item) && t.pending.None? && t.log == s.log + [Activated(item)]
  {
  }

  /** With the previous sample outside the menu rectangle, entering an item
      activates it at once even while another item is active. */
  lemma OutsideFastPath<Item>(cfg: Config, s: State<Item>, item: Item)
    requires Inv(s) && s.previous.Some? && Outside(cfg.bounds, s.previous.value)
    ensures var t := PossiblyActivate(cfg, s, item);
      t.active == Some(item) && t.pending.None?
  {
  }

  /** Stale-sample bypass: when entering an item was deferred and no mouse
      sample arrives before the re-check fires, the re-check activates it. */
  lemma StaleSampleBypass<Item>(cfg: Config, s: State<Item>, item: Item)
    requires Inv(s)
    requires PossiblyActivate(cfg, s, item).pending.Some?
    ensures var t := FireTimer(cfg, PossiblyActivate(cfg, s, item));
      t.active == Some(item) && t.pending.None?
  {
  }

  /** Timer cancellation: entering a second item drops the re-check that
      entering the first one scheduled. */
  lemma TimerCancellation<Item>(cfg: Config, s: State<Item>, first: Item, second: Item)
    requires Inv(s) && first != second
    ensures PossiblyActivate(cfg, PossiblyActivate(cfg, s, first), second).pending != Some(first)
  {
  }

  /** A click cancels the pending re-check and activates the item whatever
      the trajectory. */
  lemma ClickActivates<Item>(s: State<Item>, item: Item)
    requires Inv(s)
    ensures var t := OnMenuItemClick(s, item);
      t.active == Some(item) && t.pending.None? && t.marked == {item}
  {
  }

  /** Leaving the menu, when the verdict is "change", cancels the re-check,
      reports the item active at that moment (possibly none) to the leave
      callback and leaves no item active; otherwise only the last-checked
      sample may change. */
  lemma MouseLeaveEffect<Item>(cfg: Config, s: State<Item>)
    requires Inv(s)
    ensures var t := OnMouseLeave(cfg, s);
      if ShouldChange(cfg, s).change then
        && t.active.None? && t.pending.None? && t.marked == {}
        && t.log == s.log + [Left(s.active)]
                 + (match s.active case None => [] case Some(item) => [Deactivated(item)])
      else t == s.(lastChecked := s.current)
  {
  }

  // ---------------------------------------------------------------------
  // What the trajectory test means

  /**
    With the default right-hand submenu, a deferred activation means the
    cursor moved right, toward the submenu: when entering an item leaves a
    re-check pending, the current sample is further right than the previous
    one. Past the right edge this holds because the previous sample lies
    inside the menu rectangle; before it, by the gradients.
   */
  lemma DeferredMeansMovingRight<Item>(top: real, left: real, width: real, height: real,
                                       direction: string, s: State<Item>, item: Item)
    requires width >= 0.0 && height >= 0.0 && direction !in {"top", "bottom", "left"}
    requires Inv(s) && s.current.Some?
    requires PossiblyActivate(Configure(top, left, width, height, direction), s, item).pending.Some?
    ensures s.previous.Some? && s.previous.value.x < s.current.value.x
  {
    var cfg := Configure(top, left, width, height, direction);
    var check := ShouldChange(cfg, CancelPending(s));
    assert !check.change;
    var prev, cur := s.previous.value, s.current.value;
    ReferenceCornersFaceSubmenu(direction, cfg.bounds);
    assert cfg.corners == CornerPair(cfg.bounds.topRight, cfg.bounds.bottomRight);
    if prev.x == left + width {
      assert false;
    }
    if cur.x < left + width {
      ConvergingMovesTowardEdge(prev, cur, cfg.corners.decreasing, cfg.corners.increasing);
    }
  }

  /**
    With a left-hand submenu, a deferred activation means the cursor moved
    left, toward the submenu, whenever the previous sample lies right of the
    menu's left edge (the next lemma shows the sample on the edge).
   */
  lemma DeferredMeansMovingLeft<Item>(top: real, left: real, width: real, height: real,
                                      s: State<Item>, item: Item)
    requires width >= 0.0 && height >= 0.0
    requires Inv(s) && s.current.Some? && s.previous.Some?
    requires s.previous.value.x > left
    requires PossiblyActivate(Configure(top, left, width, height, "left"), s, item).pending.Some?
    ensures s.current.value.x < s.previous.value.x
  {
    var cfg := Configure(top, left, width, height, "left");
    assert !ShouldChange(cfg, CancelPending(s)).change;
    assert cfg.corners == CornerPair(cfg.bounds.bottomLeft, cfg.bounds.topLeft);
    if s.current.value.x > left {
      ConvergingMovesTowardLeftEdge(s.previous.value, s.current.value, cfg.corners.decreasing, cfg.corners.increasing);
    }
  }

  /**
    The edge case the previous lemma excludes: with a left-hand submenu and
    the previous sample exactly on the menu's left edge, strictly between
    the padded corners, the gradients from it are infinite, so any move into
    the menu counts as converging and entering another item is deferred,
    although the cursor moved away from the submenu.
   */
  lemma LeftEdgeSampleDefers<Item>(top: real, left: real, width: real, height: real,
                                   s: State<Item>, item: Item)
    requires width >= 0.0 && height >= 0.0
    requires Inv(s) && s.active.Some? && s.current.Some? && s.previous.Some?
    requires s.current != s.lastChecked
    requires s.previous.value.x == left && s.current.value.x > left
    requires top - 100.0 < s.previous.value.y < top + height + 100.0
    ensures PossiblyActivate(Configure(top, left, width, height, "left"), s, item).pending == Some(item)
  {
  }

  /** A converging example: corners (100,0) and (100,50),
      the cursor going from (0,25) to (10,24) converges, so entering another
      item is deferred. */
  lemma ConvergingExample<Item>(bounds: Rectangle, active: Item, item: Item)
    requires !Outside(bounds, Point(0.0, 25.0))
    ensures var cfg := Config(bounds, CornerPair(Point(100.0, 0.0), Point(100.0, 50.0)));
      var s := State(Some(active), None, Some(Point(0.0, 25.0)), Some(Point(10.0, 24.0)), None, {active}, [Activated(active)]);
      var t := PossiblyActivate(cfg, s, item);
      t.active == Some(active) && t.pending == Some(item)
  {
  }

  /** The second example: from (0,25) to (0,26) the cursor moves away, so
      entering another item switches at once. */
  lemma DivergingExample<Item>(bounds: Rectangle, active: Item, item: Item)
    requires !Outside(bounds, Point(0.0, 25.0)) && active != item
    ensures var cfg := Config(bounds, CornerPair(Point(100.0, 0.0), Point(100.0, 50.0)));
      var s := State(Some(active), None, Some(Point(0.0, 25.0)), Some(Point(0.0, 26.0)), None, {active}, [Activated(active)]);
      var t := PossiblyActivate(cfg, s, item);
      t.active == Some(item) && t.pending.None? && t.log == [Activated(active), Deactivated(active), Activated(item)]
  {
  }
}
