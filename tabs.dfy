/** Tab selection on a tab bar and on a tab-bar controller, by index, title
    or image. */
module Tabs {
  import opened ArmoryErrors
  import opened Locator

  /** A view controller shown by a tab. */
  datatype Screen = Screen(id: nat)

  /** A tab bar: its items (nil when it has none) and the selected item,
      given by its offset in `items`. */
  class TabBar {
    var items: Option<seq<Item>>
    var selectedItem: Option<nat>

    /** selectTab(atIndex:fromTabBar:): a nil item list or an index outside
        [0, count) is out of bounds and leaves the selection alone; otherwise
        the item at `index` becomes the selected item. */
    method SelectTabAt(index: int) returns (r: Outcome)
      modifies this`selectedItem
      ensures r == Pass <==> items.Some? && 0 <= index < |items.value|
      ensures r == Pass ==> selectedItem == Some(index)
      ensures r.Fail? ==> r.error == IndexOutOfBounds && selectedItem == old(selectedItem)
    {
      if items.None? {
        return Fail(IndexOutOfBounds);
      }
      var checked := CheckIndex(index, |items.value|);
      if checked.Err? {
        return Fail(checked.error);
      }
      selectedItem := Some(checked.value);
      r := Pass;
    }

    /** selectTab(withTitle:fromTabBar:) and selectTab(withImage:fromTabBar:):
        an absent key is the key's lookup failure, a key on several items is
        `multipleMatchesFound`, and in both cases the selection stays; a key on
        exactly one item selects that item. */
    method SelectTabMatching(key: Key) returns (r: Outcome)
      requires items.Some?
      modifies this`selectedItem
      ensures Locate(items.value, key).Ok? ==> r == Pass && selectedItem == Some(Locate(items.value, key).value)
      ensures Locate(items.value, key).Err? ==>
                r == Fail(Locate(items.value, key).error) && selectedItem == old(selectedItem)
    {
      var found := Locate(items.value, key);
      if found.Err? {
        return Fail(found.error);
      }
      r := SelectTabAt(found.value);
    }
  }

  /** A tab-bar controller: its view controllers, the items of its tab bar
      (one per view controller, nil when there are none) and the selected
      index. */
  class TabBarController {
    var viewControllers: seq<Screen>
    var items: Option<seq<Item>>
    var selectedIndex: nat

    /** The controller's tab bar has one item per view controller. */
    ghost predicate Valid()
      reads this
    {
      items.Some? ==> |items.value| == |viewControllers|
    }

    /** selectTab(atIndex:fromTabBarController:): a nil item list or an index
        outside [0, count) is out of bounds and leaves the selection alone;
        otherwise `index` becomes the selected index and the view controller
        at `index` is returned. */
    method SelectTabAt(index: int) returns (r: Result<Screen>)
      requires Valid()
      modifies this`selectedIndex
      ensures r.Ok? <==> items.Some? && 0 <= index < |items.value|
      ensures r.Ok? ==> selectedIndex == index && r.value == viewControllers[index]
      ensures r.Err? ==> r.error == IndexOutOfBounds && selectedIndex == old(selectedIndex)
    {
      if items.None? {
        return Err(IndexOutOfBounds);
      }
      var checked := CheckIndex(index, |items.value|);
      if checked.Err? {
        return Err(checked.error);
      }
      selectedIndex := checked.value;
      r := Ok(viewControllers[selectedIndex]);
    }

    /** selectTab(withTitle:fromTabBarController:) and
        selectTab(withImage:fromTabBarController:): the lookup's error when the
        key is absent or on several tabs, with the selection unchanged;
        otherwise the unique matching tab is selected and its view controller
        is returned. */
    method SelectTabMatching(key: Key) returns (r: Result<Screen>)
      requires Valid() && items.Some?
      modifies this`selectedIndex
      ensures Locate(items.value, key).Ok? ==>
                r.Ok? && selectedIndex == Locate(items.value, key).value && r.value == viewControllers[selectedIndex]
      ensures Locate(items.value, key).Err? ==>
                r == Err(Locate(items.value, key).error) && selectedIndex == old(selectedIndex)
    {
      var found := Locate(items.value, key);
      if found.Err? {
        return Err(found.error);
      }
      r := SelectTabAt(found.value);
    }
  }

  /** A controller whose tabs are titled "Red" and "Blue" (the second with an
      image): "Red" selects the first view controller, the image selects the
      second, and a missing title fails to look up. */
  method TabSelectionExample(red: Screen, blue: Screen, lock: Image)
  {
    var c := new TabBarController;
    c.viewControllers := [red, blue];
    c.items := Some([Item(Some("Red"), None), Item(Some("Blue"), Some(lock))]);
    c.selectedIndex := 1;
    assert Matches(c.items.value[0], ByTitle("Red")) && !Matches(c.items.value[1], ByTitle("Red"));
    assert !Matches(c.items.value[0], ByImage(lock)) && Matches(c.items.value[1], ByImage(lock));
    var r := c.SelectTabMatching(ByTitle("Red"));
    assert r == Ok(red) && c.selectedIndex == 0;
    r := c.SelectTabMatching(ByImage(lock));
    assert r == Ok(blue) && c.selectedIndex == 1;
    r := c.SelectTabMatching(ByTitle("Missing Title"));
    assert r == Err(TitleLookupFailed) && c.selectedIndex == 1;
  }

  /** Two tabs both titled "Red": selecting "Red" is ambiguous and keeps the
      selection; the index selector rejects -1 and the tab count. */
  method AmbiguousTabExample(red: Screen, blue: Screen)
  {
    var c := new TabBarController;
    c.viewControllers := [red, blue];
    c.items := Some([Item(Some("Red"), None), Item(Some("Red"), None)]);
    c.selectedIndex := 1;
    assert Matches(c.items.value[0], ByTitle("Red")) && Matches(c.items.value[1], ByTitle("Red"));
    var r := c.SelectTabMatching(ByTitle("Red"));
    assert r == Err(MultipleMatchesFound) && c.selectedIndex == 1;
    r := c.SelectTabAt(-1);
    assert r == Err(IndexOutOfBounds) && c.selectedIndex == 1;
    r := c.SelectTabAt(2);
    assert r == Err(IndexOutOfBounds) && c.selectedIndex == 1;
  }
}
