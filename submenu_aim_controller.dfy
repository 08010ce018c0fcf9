/**
  The controller of the CommonJS `index.js` as the object it is: the
  variables of the exported function are fields its inner functions
  reassign. Each method is proved to take the fields from `old(Model())` to
  what the corresponding `SubmenuAim` function gives, and the entry points
  keep `Valid()`.
 */
module SubmenuAimController {
  import opened Options
  import opened Geometry
  import opened SubmenuAim

  class Controller<Item(==)> {
    const menu: Element
    const submenuOf: Item -> Element

    var activeMenuItem: Option<Item>
    var activeSubMenu: Option<Element>
    var increasingCorner: Option<Point>
    var decreasingCorner: Option<Point>
    var previousCoordinates: Option<Point>
    var currentCoordinates: Option<Point>
    var pending: Option<Item>
    var delaying: bool
    var marked: set<Item>

    function Layout(): Layout<Item> {
      SubmenuAim.Layout(menu, submenuOf)
    }

    /** The fields as one `SubmenuAim.State`. */
    function Model(): State<Item>
      reads this
    {
      State(activeMenuItem, activeSubMenu, increasingCorner, decreasingCorner,
            previousCoordinates, currentCoordinates, pending, delaying, marked)
    }

    ghost predicate Valid()
      reads this
    {
      Inv(Layout(), Model())
    }

    /** Setting up on `menuElement`: both samples start as empty objects,
        nothing is active, nothing is pending. */
    constructor (menu: Element, submenuOf: Item -> Element)
      ensures Valid()
      ensures this.menu == menu && this.submenuOf == submenuOf
      ensures Model() == Initial()
    {
      this.menu := menu;
      this.submenuOf := submenuOf;
      activeMenuItem, activeSubMenu := None, None;
      increasingCorner, decreasingCorner := None, None;
      previousCoordinates, currentCoordinates := None, None;
      pending, delaying, marked := None, false, {};
    }

    /** `cancelPendingMenuItemActivations`. */
    method CancelPendingMenuItemActivations()
      modifies this
      ensures Model() == old(Model()).(pending := None)
    {
      if pending.Some? {
        pending := None;
      }
    }

    /** `shouldChangeActiveMenuItem`; it changes nothing. */
    method ShouldChangeActiveMenuItem() returns (change: bool)
      requires CornersSet(Model())
      ensures change == ShouldChange(Model())
    {
      if activeMenuItem.None? {
        return true;
      }
      var inc, dec := increasingCorner.value, decreasingCorner.value;
      change := || Less(SampleGradient(previousCoordinates, inc), SampleGradient(currentCoordinates, inc))
                || Greater(SampleGradient(previousCoordinates, dec), SampleGradient(currentCoordinates, dec));
    }

    /** `calculateMenuElementExtremeCoordinates`; it changes nothing. */
    method CalculateMenuElementExtremeCoordinates() returns (b: Box)
      requires CornersSet(Model())
      ensures b == EffectiveBox(Layout(), Model())
    {
      var menuBox := Extremes(menu);
      if activeMenuItem.None? {
        return menuBox;
      }
      var sub := activeSubMenu.value;
      var offset := Extremes(sub);
      b := Box(menuBox.x0, offset.x0 + sub.width, menuBox.y0, offset.y0 + sub.height);
    }

    /** `deactivateActiveMenuItem`. */
    method DeactivateActiveMenuItem()
      modifies this
      ensures Model() == Deactivate(old(Model()))
    {
      if activeMenuItem.Some? {
        delaying := false;
        marked := marked - {activeMenuItem.value};
        activeMenuItem := None;
        increasingCorner := None;
        decreasingCorner := None;
      }
    }

    /** `activateMenuItem`. */
    method ActivateMenuItem(item: Item)
      modifies this
      ensures Model() == Activate(Layout(), old(Model()), item)
    {
      activeMenuItem := Some(item);
      marked := marked + {item};
      var sub := submenuOf(item);
      activeSubMenu := Some(sub);
      var offset := Extremes(sub);
      increasingCorner := Some(Point(offset.x0, offset.y0));
      decreasingCorner := Some(Point(offset.x0, offset.y1));
    }

    /** `possiblyDeactivateActiveMenuItem`. */
    method PossiblyDeactivateActiveMenuItem()
      requires Valid()
      modifies this
      ensures Model() == PossiblyDeactivate(Layout(), old(Model()))
    {
      var coordinates := CalculateMenuElementExtremeCoordinates();
      if OutsideBox(coordinates, currentCoordinates) {
        CancelPendingMenuItemActivations();
        DeactivateActiveMenuItem();
      }
    }

    /** `possiblyActivateMenuItem`, the handler of the mouse entering `item`. */
    method PossiblyActivateMenuItem(item: Item)
      requires Valid()
      modifies this
      ensures Valid()
      ensures Model() == PossiblyActivate(Layout(), old(Model()), item)
    {
      CancelPendingMenuItemActivations();
      var change := ShouldChangeActiveMenuItem();
      if change {
        DeactivateActiveMenuItem();
        ActivateMenuItem(item);
        PossiblyActivateKeepsInv(Layout(), old(Model()), item);
        return;
      }
      delaying := true;
      pending := Some(item);
      PossiblyActivateKeepsInv(Layout(), old(Model()), item);
    }

    /** The scheduled timeout running out. */
    method FireTimer()
      requires Valid()
      modifies this
      ensures Valid()
      ensures Model() == SubmenuAim.FireTimer(Layout(), old(Model()))
    {
      if pending.Some? {
        PossiblyActivateMenuItem(pending.value);
      }
    }

    /** `onWindowMouseMove`. */
    method OnWindowMouseMove(p: Point)
      requires Valid()
      modifies this
      ensures Valid()
      ensures Model() == SubmenuAim.OnWindowMouseMove(Layout(), old(Model()), p)
    {
      previousCoordinates := currentCoordinates;
      currentCoordinates := Some(p);
      if activeMenuItem.Some? {
        PossiblyDeactivateActiveMenuItem();
      }
      MouseMoveKeepsInv(Layout(), old(Model()), p);
    }
  }
}
