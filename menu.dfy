/** The rounded pop-up menu: its action list, the list-view rows that show the actions, the
    items linking the two, its parent menu and its size. Actions and list items are objects of
    the host toolkit; here each is known by a number, and the properties the menu stores on
    them (`action.property('item')`, `item.data(UserRole)`) are maps held by the menu. */
module Menu {
  import opened Wrappers
  import opened PyList

  /** An action (a QAction) as the menu knows it. */
  type ActionId = nat

  /** A list-view item (a QListWidgetItem). */
  type ItemId = nat

  /** Layout margins of the menu: left, top, right, bottom. */
  const MarginLeft := 12
  const MarginTop := 8
  const MarginRight := 12
  const MarginBottom := 20

  /** The default height of a row. */
  const DefaultItemHeight := 28

  class RoundMenu {
    /** `_actions`, in menu order; the same action may be added more than once. */
    var actions: seq<ActionId>
    /** `action.property('item')` for every action that has an item. */
    var itemOf: map<ActionId, ItemId>
    /** `item.data(UserRole)` for every item that still carries its action. */
    var dataOf: map<ItemId, ActionId>
    /** The rows of the list view, in display order (action items, and any other rows). */
    var rows: seq<ItemId>
    /** Items are fresh objects: every item made so far is below this number. */
    var nextItem: nat
    var itemHeight: int
    /** The list view's own item height. */
    var viewItemHeight: int
    var isSubMenu: bool
    var parentMenu: RoundMenu?
    var menuItem: Option<ItemId>
    var visible: bool
    var width: int
    var height: int
    /** The list view's size, decided by the toolkit from its contents. */
    var viewWidth: int
    var viewHeight: int

    /** Every action with an item is in the action list, and its item is a row of the view;
        no two actions share an item and every row is a distinct item made by this menu. */
    ghost predicate Valid()
      reads this
    {
      (forall a :: a in itemOf ==> a in actions && itemOf[a] in rows) &&
      Injective(itemOf) &&
      (forall r :: r in rows ==> r < nextItem) &&
      Distinct(rows)
    }

    constructor ()
      ensures Valid()
      ensures actions == [] && itemOf == map[] && dataOf == map[] && rows == []
      ensures itemHeight == DefaultItemHeight && !isSubMenu && parentMenu == null && menuItem == None
      ensures !visible
    {
      actions, rows := [], [];
      itemOf, dataOf := map[], map[];
      nextItem := 0;
      itemHeight, viewItemHeight := DefaultItemHeight, DefaultItemHeight;
      isSubMenu, parentMenu, menuItem := false, null, None;
      visible := false;
      width, height, viewWidth, viewHeight := 0, 0, 0, 0;
    }

    /** `setItemHeight`: the same height changes nothing, another one is passed to the view. */
    method SetItemHeight(h: int)
      modifies this`itemHeight, this`viewItemHeight
      ensures itemHeight == h
      ensures h == old(itemHeight) ==> viewItemHeight == old(viewItemHeight)
      ensures h != old(itemHeight) ==> viewItemHeight == h
    {
      if h == itemHeight {
        return;
      }
      itemHeight := h;
      viewItemHeight := h;
    }

    /** `_setParentMenu`: the menu is a sub-menu exactly when it is given a parent. */
    method SetParentMenu(parent: RoundMenu?, item: Option<ItemId>)
      modifies this`parentMenu, this`menuItem, this`isSubMenu
      ensures parentMenu == parent && menuItem == item
      ensures isSubMenu <==> parent != null
    {
      parentMenu := parent;
      menuItem := item;
      isSubMenu := parent != null;
    }

    /** `adjustSize`: the menu is the view plus the layout margins on each side. */
    method AdjustSize()
      modifies this`width, this`height
      ensures width == viewWidth + MarginLeft + MarginRight
      ensures height == viewHeight + MarginTop + MarginBottom
    {
      width := viewWidth + MarginLeft + MarginRight;
      height := viewHeight + MarginTop + MarginBottom;
    }

    /** `_createActionItem`: without `before` the action is appended; with a `before` that is
        in the list it goes immediately before its first occurrence; any other `before` raises
        ValueError and changes nothing. The new item is linked both ways but not yet shown. */
    method CreateActionItem(action: ActionId, before: Option<ActionId>) returns (outcome: Outcome, item: ItemId)
      requires Valid()
      modifies this`actions, this`itemOf, this`dataOf, this`nextItem
      ensures before.Some? && before.value !in old(actions) ==>
        outcome == Raised(ValueError) && actions == old(actions) && itemOf == old(itemOf) &&
        dataOf == old(dataOf) && nextItem == old(nextItem)
      ensures before.None? || before.value in old(actions) ==>
        outcome == Done && item == old(nextItem) && nextItem == old(nextItem) + 1 &&
        itemOf == old(itemOf)[action := item] && dataOf == old(dataOf)[item := action]
      ensures before.None? ==> actions == old(actions) + [action]
      ensures before.Some? && before.value in old(actions) ==>
        actions == InsertAt(old(actions), IndexOf(old(actions), before.value), action)
    {
      if before.None? {
        actions := actions + [action];
      } else if before.value in actions {
        var index := IndexOf(actions, before.value);
        actions := InsertAt(actions, index, action);
      } else {
        return Raised(ValueError), 0;
      }
      item := nextItem;
      nextItem := nextItem + 1;
      itemOf := itemOf[action := item];
      dataOf := dataOf[item := action];
      outcome := Done;
    }

    /** `addAction`: the action goes to the end of the list and its item to the end of the view. */
    method AddAction(action: ActionId)
      requires Valid()
      modifies this`actions, this`itemOf, this`dataOf, this`nextItem, this`rows, this`width, this`height
      ensures Valid()
      ensures actions == old(actions) + [action]
      ensures rows == old(rows) + [old(nextItem)]
      ensures itemOf == old(itemOf)[action := old(nextItem)] && dataOf == old(dataOf)[old(nextItem) := action]
      ensures width == viewWidth + MarginLeft + MarginRight && height == viewHeight + MarginTop + MarginBottom
    {
      var outcome, item := CreateActionItem(action, None);
      assert item !in rows;
      rows := rows + [item];
      AdjustSize();
    }

    /** `insertAction`: nothing happens when `before` is not in the list or has no item;
        otherwise the action goes immediately before `before` and its item takes the row of
        `before`'s item. */
    method InsertAction(before: ActionId, action: ActionId)
      requires Valid()
      modifies this`actions, this`itemOf, this`dataOf, this`nextItem, this`rows, this`width, this`height
      ensures Valid()
      ensures before !in old(actions) || before !in old(itemOf) ==>
        actions == old(actions) && rows == old(rows) && itemOf == old(itemOf) && dataOf == old(dataOf) &&
        width == old(width) && height == old(height)
      ensures before in old(actions) && before in old(itemOf) ==>
        actions == InsertAt(old(actions), IndexOf(old(actions), before), action) &&
        rows == InsertAt(old(rows), IndexOf(old(rows), old(itemOf[before])), old(nextItem)) &&
        itemOf == old(itemOf)[action := old(nextItem)] && dataOf == old(dataOf)[old(nextItem) := action] &&
        width == viewWidth + MarginLeft + MarginRight && height == viewHeight + MarginTop + MarginBottom
    {
      if before !in actions {
        return;
      }
      if before !in itemOf {
        return;
      }
      var beforeItem := itemOf[before];
      var index := IndexOf(rows, beforeItem);
      var outcome, item := CreateActionItem(action, Some(before));
      assert item !in rows;
      InsertAtDistinct(rows, index, item);
      rows := InsertAt(rows, index, item);
      AdjustSize();
    }

    /** `removeAction`: an absent action changes nothing; otherwise its first occurrence
        leaves the list (the rest keep their order, see RemoveFirstSubsequence), its item
        link is dropped and, when it had an item, that row goes and the item forgets the
        action. */
    method RemoveAction(action: ActionId)
      requires Valid()
      modifies this`actions, this`itemOf, this`dataOf, this`rows
      ensures Valid()
      ensures action !in old(actions) ==>
        actions == old(actions) && itemOf == old(itemOf) && dataOf == old(dataOf) && rows == old(rows)
      ensures action in old(actions) ==>
        actions == RemoveFirst(old(actions), action) && itemOf == old(itemOf) - {action}
      ensures action in old(actions) && action !in old(itemOf) ==> dataOf == old(dataOf) && rows == old(rows)
      ensures action in old(actions) && action in old(itemOf) ==>
        rows == RemoveFirst(old(rows), old(itemOf[action])) && dataOf == old(dataOf) - {old(itemOf[action])}
    {
      if action !in actions {
        return;
      }
      var found := action in itemOf;
      var item := if found then itemOf[action] else 0;
      KeptLinks(actions, itemOf, rows, action);
      actions := RemoveFirst(actions, action);
      itemOf := itemOf - {action};
      if !found {
        return;
      }
      RemoveFirstDistinct(rows, item);
      rows := RemoveFirst(rows, item);
      dataOf := dataOf - {item};
    }

    /** `clear`: removes the actions from the back until none is left; the rows of their items
        go with them, every other row stays in its order, and each of their items forgets its
        action. */
    method Clear()
      requires Valid()
      modifies this`actions, this`itemOf, this`dataOf, this`rows
      ensures Valid()
      ensures actions == [] && itemOf == map[]
      ensures forall r :: r in rows <==> r in old(rows) && r !in old(itemOf).Values
      ensures Subsequence(rows, old(rows))
      ensures dataOf == old(dataOf) - old(itemOf).Values
    {
      SubsequenceReflexive(rows);
      var i := |actions| - 1;
      while i >= 0
        invariant Valid()
        invariant |actions| == i + 1
        invariant forall a :: a in itemOf ==> a in old(itemOf) && itemOf[a] == old(itemOf)[a]
        invariant forall r :: r in rows <==> r in old(rows) && (r in old(itemOf).Values ==> r in itemOf.Values)
        invariant Subsequence(rows, old(rows))
        invariant dataOf == old(dataOf) - (old(itemOf).Values - itemOf.Values)
      {
        ghost var before := itemOf;
        ghost var beforeRows := rows;
        var action := actions[i];
        RemoveFirstLength(actions, action);
        RemoveAction(action);
        if action in before {
          RemoveFirstDistinct(beforeRows, before[action]);
          RemoveKeyValues(before, action);
          RemoveFirstSubsequence(beforeRows, before[action]);
          SubsequenceTransitive(rows, beforeRows, old(rows));
          ForgetOneMore(old(dataOf), old(itemOf).Values, before.Values, before[action]);
        }
        i := i - 1;
      }
      assert forall r :: r !in itemOf.Values;
      assert itemOf.Values == {};
    }

    /** `_closeParentMenu`: closes this menu and every menu up its parent chain. `chain` is that
        chain, this menu first; it has to end, since a cycle of parents would make the walk
        run forever. */
    method CloseParentMenu(ghost chain: seq<RoundMenu>)
      requires ParentChain(chain) && chain[0] == this
      modifies chain`visible
      ensures forall m :: m in chain ==> !m.visible
    {
      var menu: RoundMenu? := this;
      ghost var k := 0;
      while menu != null
        invariant 0 <= k <= |chain|
        invariant menu == if k < |chain| then chain[k] else null
        invariant ParentChain(chain)
        invariant forall j :: 0 <= j < k ==> !chain[j].visible
        decreases |chain| - k
      {
        menu.visible := false;
        menu := menu.parentMenu;
        k := k + 1;
      }
    }

    /** `_onItemClicked`: a click on an item whose action is not in the list or is disabled, or
        on a custom-widget row whose action is not selectable, is ignored. Otherwise the menu
        hides, a sub-menu also closes its parents, and the action is triggered. */
    method OnItemClicked(item: ItemId, enabled: bool, selectable: bool, hasWidget: bool, ghost chain: seq<RoundMenu>)
      returns (triggered: Option<ActionId>)
      requires ParentChain(chain) && chain[0] == this
      modifies chain`visible
      ensures triggered.Some? <==> ClickTriggers(dataOf, actions, item, enabled, selectable, hasWidget)
      ensures triggered.Some? ==> triggered.value == dataOf[item] && !visible
      ensures triggered.Some? && isSubMenu ==> forall m :: m in chain ==> !m.visible
      ensures triggered.Some? && !isSubMenu ==> forall m :: m in chain && m != this ==> m.visible == old(m.visible)
      ensures triggered.None? ==> forall m :: m in chain ==> m.visible == old(m.visible)
    {
      if item !in dataOf || dataOf[item] !in actions || !enabled {
        return None;
      }
      var action := dataOf[item];
      if hasWidget && !selectable {
        return None;
      }
      visible := false;
      if isSubMenu {
        CloseParentMenu(chain);
      }
      triggered := Some(action);
    }
  }

  /** No two keys share a value. */
  predicate Injective(m: map<ActionId, ItemId>)
  {
    forall a, b :: a in m && b in m && a != b ==> m[a] != m[b]
  }

  /** Dropping a key of an injective map drops exactly its value. */
  /** Forgetting one more item of those already dropped. (Helper for `Clear`.) */
  lemma ForgetOneMore(data: map<ItemId, ActionId>, all: set<ItemId>, kept: set<ItemId>, item: ItemId)
    requires item in kept && kept <= all
    ensures data - (all - kept) - {item} == data - (all - (kept - {item}))
  {
    assert all - (kept - {item}) == (all - kept) + {item};
  }

  lemma RemoveKeyValues(m: map<ActionId, ItemId>, k: ActionId)
    requires k in m && Injective(m)
    ensures (m - {k}).Values == m.Values - {m[k]}
  {
    forall r | r in m.Values - {m[k]}
      ensures r in (m - {k}).Values
    {
      var a :| a in m && m[a] == r;
      assert (m - {k})[a] == r;
    }
  }

  /** After `removeAction(action)` every other linked action is still in the list and its
      item still a row. */
  lemma KeptLinks(actions: seq<ActionId>, itemOf: map<ActionId, ItemId>, rows: seq<ItemId>, action: ActionId)
    requires forall a :: a in itemOf ==> a in actions && itemOf[a] in rows
    requires Injective(itemOf) && Distinct(rows)
    ensures forall a :: a in itemOf && a != action ==> a in RemoveFirst(actions, action)
    ensures action in itemOf ==> forall a :: a in itemOf && a != action ==> itemOf[a] in RemoveFirst(rows, itemOf[action])
  {
    RemoveFirstMultiset(actions, action);
    forall a | a in itemOf && a != action
      ensures a in RemoveFirst(actions, action)
    {
      assert multiset(actions)[a] > 0;
      assert multiset(RemoveFirst(actions, action))[a] == multiset(actions)[a];
    }
    if action in itemOf {
      RemoveFirstDistinct(rows, itemOf[action]);
    }
  }

  /** `chain` follows `parentMenu` from its first menu to a menu without a parent. */
  ghost predicate ParentChain(chain: seq<RoundMenu>)
    reads set m | m in chain
  {
    |chain| > 0 &&
    (forall i :: 0 <= i < |chain| - 1 ==> chain[i].parentMenu == chain[i + 1]) &&
    chain[|chain| - 1].parentMenu == null
  }

  /** The guard of `_onItemClicked`: the item carries an action of the menu that is enabled,
      and the row is no custom widget unless its action is selectable. */
  predicate ClickTriggers(dataOf: map<ItemId, ActionId>, actions: seq<ActionId>, item: ItemId,
                          enabled: bool, selectable: bool, hasWidget: bool)
  {
    item in dataOf && dataOf[item] in actions && enabled && (!hasWidget || selectable)
  }
}
