/**
  The controller of `src/index.js` as the object it is: the closure
  variables of `menuAim` are fields that its inner functions reassign. Each
  method is proved to take the fields from `old(Model())` to what the
  corresponding `MenuAim` function gives, and the entry points keep `Valid()`.
 */
module MenuAimController {
  import opened Options
  import opened Geometry
  import opened MenuBounds
  import opened MenuAim

  class Controller<Item(==)> {
    const config: Config

    var activeMenuItem: Option<Item>
    var pending: Option<Item>
    var previousCoordinates: Option<Point>
    var currentCoordinates: Option<Point>
    var lastCheckedCoordinates: Option<Point>
    var marked: set<Item>
    var log: seq<Event<Item>>

    /** The fields as one `MenuAim.State`. */
    function Model(): State<Item>
      reads this
    {
      State(activeMenuItem, pending, previousCoordinates, currentCoordinates,
            lastCheckedCoordinates, marked, log)
    }

    ghost predicate Valid()
      reads this
    {
      Inv(Model())
    }

    /** `menuAim(element, options)`: the padded menu rectangle and the corners
        for `direction` are computed once; nothing is active or recorded. */
    constructor (top: real, left: real, width: real, height: real, direction: string)
      ensures Valid()
      ensures config == Configure(top, left, width, height, direction)
      ensures Model() == Initial()
    {
      config := Configure(top, left, width, height, direction);
      activeMenuItem, pending := None, None;
      previousCoordinates, currentCoordinates, lastCheckedCoordinates := None, None, None;
      marked, log := {}, [];
    }

    /** `saveMouseCoordinates`, the document's mousemove handler. */
    method SaveMouseCoordinates(p: Point)
      requires Valid()
      modifies this
      ensures Valid()
      ensures Model() == MenuAim.SaveMouseCoordinates(old(Model()), p)
    {
      previousCoordinates := currentCoordinates;
      currentCoordinates := Some(p);
      SaveMouseCoordinatesKeepsInv(old(Model()), p);
    }

    /** `cancelPendingMenuItemActivations`. */
    method CancelPendingMenuItemActivations()
      modifies this
      ensures Model() == CancelPending(old(Model()))
    {
      if pending.Some? {
        pending := None;
      }
    }

    /** `deactivateActiveMenuItem`. */
    method DeactivateActiveMenuItem()
      modifies this
      ensures Model() == Deactivate(old(Model()))
    {
      if activeMenuItem.Some? {
        var item := activeMenuItem.value;
        marked := marked - {item};
        log := log + [Deactivated(item)];
        activeMenuItem := None;
      }
    }

    /** `activateMenuItem`. */
    method ActivateMenuItem(item: Item)
      modifies this
      ensures Model() == Activate(old(Model()), item)
    {
      if activeMenuItem == Some(item) {
        return;
      }
      DeactivateActiveMenuItem();
      marked := marked + {item};
      log := log + [Activated(item)];
      activeMenuItem := Some(item);
    }

    /** `shouldChangeActiveMenuItem`, which records or forgets the sample it
        found inconclusive. */
    method ShouldChangeActiveMenuItem() returns (change: bool)
      modifies this
      ensures Check(change, Model()) == ShouldChange(config, old(Model()))
    {
      if activeMenuItem.None? {
        return true;
      }
      if currentCoordinates.None? || previousCoordinates.None? {
        return true;
      }
      var prev, cur := previousCoordinates.value, currentCoordinates.value;
      if Outside(config.bounds, prev) {
        return true;
      }
      if lastCheckedCoordinates.Some? && cur == lastCheckedCoordinates.value {
        return true;
      }
      var currentDecreasing := Gradient(cur, config.corners.decreasing);
      var currentIncreasing := Gradient(cur, config.corners.increasing);
      var previousDecreasing := Gradient(prev, config.corners.decreasing);
      var previousIncreasing := Gradient(prev, config.corners.increasing);
      if Less(currentDecreasing, previousDecreasing) && Greater(currentIncreasing, previousIncreasing) {
        lastCheckedCoordinates := currentCoordinates;
        return false;
      }
      lastCheckedCoordinates := None;
      return true;
    }

    /** `possiblyActivateMenuItem`, the handler of the mouse entering `item`. */
    method PossiblyActivateMenuItem(item: Item)
      requires Valid()
      modifies this
      ensures Valid()
      ensures Model() == PossiblyActivate(config, old(Model()), item)
    {
      CancelPendingMenuItemActivations();
      var change := ShouldChangeActiveMenuItem();
      if change {
        ActivateMenuItem(item);
      } else {
        pending := Some(item);
      }
      PossiblyActivateKeepsInv(config, old(Model()), item);
    }

    /** The scheduled timeout running out. */
    method FireTimer()
      requires Valid()
      modifies this
      ensures Valid()
      ensures Model() == MenuAim.FireTimer(config, old(Model()))
    {
      if pending.Some? {
        PossiblyActivateMenuItem(pending.value);
      }
      FireTimerKeepsInv(config, old(Model()));
    }

    /** `onMouseLeave`, the menu element's mouseleave handler. */
    method OnMouseLeave()
      requires Valid()
      modifies this
      ensures Valid()
      ensures Model() == MenuAim.OnMouseLeave(config, old(Model()))
    {
      var change := ShouldChangeActiveMenuItem();
      if change {
        CancelPendingMenuItemActivations();
        log := log + [Left(activeMenuItem)];
        DeactivateActiveMenuItem();
      }
      MouseLeaveKeepsInv(config, old(Model()));
    }

    /** `onMenuItemClick`: activate the clicked item whatever the trajectory. */
    method OnMenuItemClick(item: Item)
      requires Valid()
      modifies this
      ensures Valid()
      ensures Model() == MenuAim.OnMenuItemClick(old(Model()), item)
    {
      CancelPendingMenuItemActivations();
      ActivateMenuItem(item);
      ClickKeepsInv(old(Model()), item);
    }
  }
}
