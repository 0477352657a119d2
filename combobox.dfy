/** The three multi-selection combo boxes: the plain one (MSComboBox), the one with a line edit
    per item (MSEComboBox) and the one keyed by item text with a drop-down per item
    (MSECComboBox). Popup geometry, painting and the widgets' own event handling belong to the
    host toolkit; the popup's per-item widgets appear here as records with `checked`/`enabled`
    flags, and each slot changes exactly the fields the source's slot changes. What a slot does
    to the selection, the chip bar and the placeholder is the matching function of module
    Selection. */
module ComboBox {
  import opened Wrappers
  import opened PyList
  import opened ChipBar
  import opened Selection

  /** An entry of the plain and editable boxes: its text and its user data (the icon is not
      modelled). */
  datatype Item = Item(text: string, userData: Option<string>)

  /** An entry of the cached box: its text, the choices offered in its drop-down, its user data
      and whether its drop-down is read-only. */
  datatype CacheItem = CacheItem(text: string, datas: seq<string>, userData: Option<string>, readOnly: bool)

  /** A checkbox of the popup. */
  datatype CheckBox = CheckBox(checked: bool, enabled: bool)

  /** The input beside a checkbox (a line edit, or an editable drop-down in the cached box). */
  datatype Field = Field(enabled: bool, text: string, readOnly: bool)

  /** One popup row of the editable boxes: `widgets[i][0]` and `widgets[i][1]`. */
  datatype Row = Row(box: CheckBox, field: Field)

  /** The text a fresh popup field shows: the user data when there is some. */
  function FieldText(userData: Option<string>): string
  {
    if userData.Some? then userData.value else ""
  }

  /** The popup row the editable box builds for item `i`. */
  function EditRow(item: Item, selected: bool): Row
  {
    Row(CheckBox(selected, true), Field(selected, FieldText(item.userData), false))
  }

  /** The popup row the cached box builds for `item`. */
  function CacheRow(item: CacheItem, selected: seq<string>): Row
  {
    Row(CheckBox(item.text in selected, true), Field(item.text in selected, FieldText(item.userData), item.readOnly))
  }

  /** `widgets[item.text] = row i` for every item `i` in order: the row index each key
      names once the popup is built. */
  function RowIndex(items: seq<CacheItem>): map<string, nat>
  {
    if items == [] then map[]
    else RowIndex(items[..|items| - 1])[items[|items| - 1].text := |items| - 1]
  }

  /** The cached box's widget map has a key for exactly the item texts. */
  lemma {:induction false} RowIndexKeys(items: seq<CacheItem>, key: string)
    ensures key in RowIndex(items) <==> exists k :: 0 <= k < |items| && items[k].text == key
  {
    if items != [] {
      var n := |items| - 1;
      var front := items[..n];
      RowIndexKeys(front, key);
      assert forall k :: 0 <= k < n ==> front[k] == items[k];
      if key in RowIndex(items) && items[n].text != key {
        var k :| 0 <= k < n && front[k].text == key;
        assert items[k].text == key;
      }
    }
  }

  /** A key names the row of the LAST item with that text: a later item with the same text
      replaces an earlier one's row, which stays in the popup without an entry. */
  lemma {:induction false} RowIndexLast(items: seq<CacheItem>, key: string)
    requires key in RowIndex(items)
    ensures RowIndex(items)[key] < |items| && items[RowIndex(items)[key]].text == key
    ensures forall j :: RowIndex(items)[key] < j < |items| ==> items[j].text != key
  {
    var n := |items| - 1;
    if items[n].text != key {
      var front := items[..n];
      RowIndexLast(front, key);
      assert forall k :: 0 <= k < n ==> front[k] == items[k];
    }
  }

  /** `[Item(t) for t in texts]`. */
  function ItemsOf(texts: seq<string>): (r: seq<Item>)
    ensures |r| == |texts|
    ensures forall k :: 0 <= k < |texts| ==> r[k] == Item(texts[k], None)
  {
    if texts == [] then [] else [Item(texts[0], None)] + ItemsOf(texts[1..])
  }

  /** The cached box's items for a dictionary given as its (key, value) pairs in order. */
  function CacheItemsOf(datas: seq<(string, seq<string>)>): (r: seq<CacheItem>)
    ensures |r| == |datas|
    ensures forall k :: 0 <= k < |datas| ==> r[k] == CacheItem(datas[k].0, datas[k].1, None, false)
  {
    if datas == [] then [] else [CacheItem(datas[0].0, datas[0].1, None, false)] + CacheItemsOf(datas[1..])
  }

  /** The plain multi-selection combo box. Its popup holds one checkbox per item and
      `widgets[i]` is that checkbox itself, so "enabling its input" enables the checkbox. */
  class MSComboBox {
    var items: seq<Item>
    /** Indices of the checked items, in the order they were checked. */
    var selectedItems: seq<int>
    /** The chip bar, as the item index of each chip. */
    var selectedWidgets: seq<int>
    /** The popup's checkboxes, rebuilt each time the popup opens. */
    var widgets: seq<CheckBox>
    var rowSize: int
    /** The placeholder the field currently shows. */
    var placeholderText: string
    /** The placeholder set by the caller (`_placeholderText`), restored when the selection empties. */
    var savedPlaceholder: string
    var readOnly: bool

    ghost predicate Valid()
      reads this
    {
      |widgets| <= |items| && rowSize >= 1 && Ascending(selectedWidgets)
    }

    /** Selection, chip bar and shown placeholder as one value. */
    function Display(): Bar<int>
      reads this
    {
      Bar(selectedItems, selectedWidgets, placeholderText)
    }

    /** A read-only box in sync (Selection.Synced). */
    ghost predicate Synced()
      reads this
    {
      readOnly && Selection.Synced(Display(), savedPlaceholder)
    }

    constructor ()
      ensures Valid()
      ensures items == [] && selectedItems == [] && selectedWidgets == [] && widgets == []
      ensures rowSize == 1 && !readOnly && placeholderText == "" && savedPlaceholder == ""
    {
      items, selectedItems, selectedWidgets, widgets := [], [], [], [];
      rowSize := 1;
      placeholderText, savedPlaceholder := "", "";
      readOnly := false;
    }

    /** The line edit's own `setReadOnly`. */
    method SetReadOnly(value: bool)
      modifies this`readOnly
      ensures readOnly == value
    {
      readOnly := value;
    }

    method SetPlaceholderText(text: string)
      modifies this`placeholderText, this`savedPlaceholder
      ensures placeholderText == text && savedPlaceholder == text
    {
      savedPlaceholder := text;
      placeholderText := text;
    }

    method SetRowSize(size: int)
      requires Valid()
      modifies this`rowSize
      ensures Valid()
      ensures rowSize == if 0 < size <= |items| then size else old(rowSize)
    {
      if size > 0 && size <= |items| {
        rowSize := size;
      }
    }

    method AddItem(text: string, userData: Option<string>)
      requires Valid()
      modifies this`items
      ensures Valid()
      ensures items == old(items) + [Item(text, userData)]
    {
      items := items + [Item(text, userData)];
    }

    method InsertItem(index: int, text: string, userData: Option<string>)
      requires Valid()
      modifies this`items
      ensures Valid()
      ensures items == InsertAt(old(items), index, Item(text, userData))
    {
      items := InsertAt(items, index, Item(text, userData));
    }

    /** Empties the items, the selection and the popup widgets. A read-only box with chips
        then raises TypeError at its first chip (Selection.ClearBar), keeping its chips and
        placeholder; otherwise the chip bar goes when read-only and the saved placeholder
        returns. */
    method Clear() returns (outcome: Outcome)
      requires Valid()
      modifies this`items, this`selectedItems, this`widgets, this`selectedWidgets, this`placeholderText
      ensures Valid()
      ensures items == [] && selectedItems == [] && widgets == []
      ensures Step(outcome, Display()) == ClearBar(old(Display()), readOnly, savedPlaceholder)
      ensures outcome == Raised(TypeError) <==> readOnly && old(selectedWidgets) != []
      ensures outcome == Done && readOnly ==> Synced()
    {
      items := [];
      selectedItems := [];
      widgets := [];
      if readOnly {
        if selectedWidgets != [] {
          return Raised(TypeError);
        }
        selectedWidgets := [];
      }
      placeholderText := savedPlaceholder;
      return Done;
    }

    /** `addItems` clears first, so a clear that raises adds nothing. */
    method AddItems(texts: seq<string>) returns (outcome: Outcome)
      requires Valid()
      modifies this`items, this`selectedItems, this`widgets, this`selectedWidgets, this`placeholderText
      ensures Valid()
      ensures items == (if outcome == Done then ItemsOf(texts) else []) && selectedItems == [] && widgets == []
      ensures Step(outcome, Display()) == ClearBar(old(Display()), readOnly, savedPlaceholder)
      ensures outcome == Raised(TypeError) <==> readOnly && old(selectedWidgets) != []
    {
      outcome := Clear();
      if outcome != Done {
        return;
      }
      for i := 0 to |texts|
        invariant Valid() && widgets == [] && selectedItems == []
        invariant items == ItemsOf(texts[..i])
        invariant selectedWidgets == if readOnly then [] else old(selectedWidgets)
        invariant placeholderText == savedPlaceholder
      {
        AddItem(texts[i], None);
        assert texts[..i + 1] == texts[..i] + [texts[i]];
      }
      assert texts[..|texts|] == texts;
    }

    /** The items' texts in selection order; IndexError when a selected index is not an item's. */
    method SelectedTexts() returns (outcome: Outcome, texts: seq<string>)
      ensures outcome == Done <==> forall k :: 0 <= k < |selectedItems| ==> ValidIndex(|items|, selectedItems[k])
      ensures outcome != Done ==> outcome == Raised(IndexError)
      ensures outcome == Done ==> |texts| == |selectedItems|
      ensures outcome == Done ==> forall k :: 0 <= k < |texts| ==>
        ValidIndex(|items|, selectedItems[k]) && texts[k] == items[Position(|items|, selectedItems[k])].text
    {
      texts := [];
      for k := 0 to |selectedItems|
        invariant |texts| == k
        invariant forall j :: 0 <= j < k ==> ValidIndex(|items|, selectedItems[j])
        invariant forall j :: 0 <= j < k ==> texts[j] == items[Position(|items|, selectedItems[j])].text
      {
        if !ValidIndex(|items|, selectedItems[k]) {
          return Raised(IndexError), texts;
        }
        texts := texts + [items[Position(|items|, selectedItems[k])].text];
      }
      outcome := Done;
    }

    /** `widgets[index][1]` on a checkbox raises TypeError, which `itemData` swallows, so the
        plain box reports no data for any index. */
    function ItemData(index: int): (r: Option<string>)
      ensures r == None
    {
      None
    }

    /** One datum per selected index, in selection order. */
    function ItemDatas(): (r: seq<Option<string>>)
      reads this
      ensures |r| == |selectedItems|
      ensures forall k :: 0 <= k < |r| ==> r[k] == ItemData(selectedItems[k])
    {
      seq(|selectedItems|, k requires 0 <= k < |selectedItems| reads this => ItemData(selectedItems[k]))
    }

    /** `_onItemTextChanged`: the text becomes the item's user data. */
    method OnItemTextChanged(text: string, index: nat) returns (outcome: Outcome)
      requires Valid()
      modifies this`items
      ensures Valid()
      ensures index < |old(items)| ==> outcome == Done && items == old(items)[index := old(items[index]).(userData := Some(text))]
      ensures index >= |old(items)| ==> outcome == Raised(IndexError) && items == old(items)
    {
      if index >= |items| {
        return Raised(IndexError);
      }
      items := items[index := items[index].(userData := Some(text))];
      outcome := Done;
    }

    /** Opening the popup rebuilds one checkbox per item, checked exactly when its index is
        selected. Nothing happens without items. */
    method ShowComboMenu()
      requires Valid()
      modifies this`widgets
      ensures Valid()
      ensures old(items) == [] ==> widgets == old(widgets)
      ensures old(items) != [] ==>
        |widgets| == |items| && (forall i :: 0 <= i < |items| ==> widgets[i] == CheckBox(i in selectedItems, true))
    {
      if items == [] {
        return;
      }
      widgets := [];
      for i := 0 to |items|
        invariant |widgets| == i
        invariant forall j :: 0 <= j < i ==> widgets[j] == CheckBox(j in selectedItems, true)
      {
        widgets := widgets + [CheckBox(i in selectedItems, true)];
      }
    }

    /** `_addDeleteButton`: a chip for `index` goes into the bar at its ascending place. */
    method AddDeleteButton(index: int)
      requires Ascending(selectedWidgets)
      modifies this`selectedWidgets
      ensures selectedWidgets == InsertChip(old(selectedWidgets), index)
      ensures Ascending(selectedWidgets)
    {
      var position := FindInsertPosition(selectedWidgets, index);
      selectedWidgets := selectedWidgets[..position] + [index] + selectedWidgets[position..];
      InsertChipAscending(old(selectedWidgets), index);
    }

    /** `_removeDelButton`: the chip that `findChild` returned leaves the bar. */
    method RemoveDelButton(chip: int)
      requires Ascending(selectedWidgets) && chip in selectedWidgets
      modifies this`selectedWidgets
      ensures selectedWidgets == RemoveFirst(old(selectedWidgets), chip)
      ensures Ascending(selectedWidgets)
    {
      RemoveChipAscending(selectedWidgets, chip);
      selectedWidgets := RemoveFirst(selectedWidgets, chip);
    }

    /** `_onItemChecked`: the slot run after checkbox `index` changed state. */
    method OnItemChecked(index: nat) returns (outcome: Outcome)
      requires Valid()
      modifies this`widgets, this`selectedItems, this`selectedWidgets, this`placeholderText
      ensures Valid()
      ensures index >= |old(widgets)| ==> outcome == Raised(IndexError) && Display() == old(Display()) && widgets == old(widgets)
      ensures index < |old(widgets)| && old(widgets[index].checked) ==>
        outcome == Done && Display() == Check(old(Display()), index, readOnly) &&
        widgets == old(widgets)[index := old(widgets[index]).(enabled := true)]
      ensures index < |old(widgets)| && !old(widgets[index].checked) ==>
        Step(outcome, Display()) == Uncheck(old(Display()), index, readOnly, savedPlaceholder) &&
        widgets == old(widgets)[index := old(widgets[index]).(enabled := false)]
      ensures old(Synced()) ==> Synced()
    {
      if index >= |widgets| {
        return Raised(IndexError);
      }
      if widgets[index].checked {
        outcome := CheckedSlot(index);
      } else {
        outcome := UncheckedSlot(index);
      }
    }

    /** The branch of `_onItemChecked` for a checkbox found checked. */
    method CheckedSlot(index: nat) returns (outcome: Outcome)
      requires Valid() && index < |widgets| && widgets[index].checked
      modifies this`widgets, this`selectedItems, this`selectedWidgets, this`placeholderText
      ensures Valid()
      ensures outcome == Done && Display() == Check(old(Display()), index, readOnly) &&
        widgets == old(widgets)[index := old(widgets[index]).(enabled := true)]
      ensures old(Synced()) ==> Synced()
    {
      ghost var before := Display();
      widgets := widgets[index := widgets[index].(enabled := true)];
      selectedItems := selectedItems + [index];
      if readOnly {
        AddDeleteButton(index);
        if |selectedItems| == 1 {
          placeholderText := "";
        }
        if Selection.Synced(before, savedPlaceholder) {
          CheckKeepsSynced(before, index, savedPlaceholder);
        }
      }
      outcome := Done;
    }

    /** The branch of `_onItemChecked` for a checkbox found unchecked. */
    method UncheckedSlot(index: nat) returns (outcome: Outcome)
      requires Valid() && index < |widgets| && !widgets[index].checked
      modifies this`widgets, this`selectedItems, this`selectedWidgets, this`placeholderText
      ensures Valid()
      ensures Step(outcome, Display()) == Uncheck(old(Display()), index, readOnly, savedPlaceholder) &&
        widgets == old(widgets)[index := old(widgets[index]).(enabled := false)]
      ensures old(Synced()) ==> Synced()
    {
      ghost var before := Display();
      widgets := widgets[index := widgets[index].(enabled := false)];
      if index !in selectedItems {
        return Raised(ValueError);
      }
      selectedItems := RemoveFirst(selectedItems, index);
      if readOnly {
        var found := index in selectedWidgets;
        if found {
          RemoveDelButton(index);
        } else {
          RemoveFirstSpec(selectedWidgets, index);
        }
        if |selectedItems| == 0 {
          placeholderText := savedPlaceholder;
        }
        if Selection.Synced(before, savedPlaceholder) {
          UncheckKeepsSynced(before, index, savedPlaceholder);
        }
      }
      outcome := Done;
    }

    /** `_onDeleteButtonClicked`: the chip for `index` was clicked. */
    method OnDeleteButtonClicked(index: nat) returns (outcome: Outcome)
      requires Valid()
      modifies this`widgets, this`selectedItems, this`selectedWidgets, this`placeholderText
      ensures Valid()
      ensures index >= |old(widgets)| ==> outcome == Raised(IndexError) && Display() == old(Display()) && widgets == old(widgets)
      ensures index < |old(widgets)| ==>
        Step(outcome, Display()) == DeleteChip(old(Display()), index, savedPlaceholder) &&
        widgets == old(widgets)[index := old(widgets[index]).(enabled := false)]
      ensures old(Synced()) ==> Synced()
    {
      if index >= |widgets| {
        return Raised(IndexError);
      }
      ghost var before := Display();
      if readOnly && Selection.Synced(before, savedPlaceholder) {
        DeleteChipKeepsSynced(before, index, savedPlaceholder);
      }
      widgets := widgets[index := widgets[index].(enabled := false)];
      var found := index in selectedWidgets;
      if found {
        RemoveDelButton(index);
        if index !in selectedItems {
          assert DeleteChip(before, index, savedPlaceholder) == Step(Raised(ValueError), Display());
          return Raised(ValueError);
        }
        selectedItems := RemoveFirst(selectedItems, index);
        if |selectedWidgets| == 0 {
          placeholderText := savedPlaceholder;
        }
        assert DeleteChip(before, index, savedPlaceholder) == Step(Done, Display());
      } else {
        if |selectedWidgets| == 0 {
          placeholderText := savedPlaceholder;
        }
        assert DeleteChip(before, index, savedPlaceholder) == Step(Done, Display());
      }
      outcome := Done;
    }

    /** The user clicks checkbox `index` of the open popup. A disabled checkbox ignores the
        click; otherwise it flips and the `stateChanged` slot runs. */
    method ToggleCheckbox(index: nat) returns (outcome: Outcome)
      requires Valid() && index < |widgets|
      modifies this`widgets, this`selectedItems, this`selectedWidgets, this`placeholderText
      ensures Valid()
      ensures !old(widgets[index].enabled) ==> outcome == Done && widgets == old(widgets) && Display() == old(Display())
      ensures old(widgets[index].enabled) ==>
        widgets == old(widgets)[index := CheckBox(!old(widgets[index].checked), !old(widgets[index].checked))]
      ensures old(widgets[index].enabled) && !old(widgets[index].checked) ==>
        outcome == Done && Display() == Check(old(Display()), index, readOnly)
      ensures old(widgets[index].enabled) && old(widgets[index].checked) ==>
        Step(outcome, Display()) == Uncheck(old(Display()), index, readOnly, savedPlaceholder)
      ensures old(Synced()) ==> Synced()
    {
      if !widgets[index].enabled {
        return Done;
      }
      widgets := widgets[index := widgets[index].(checked := !widgets[index].checked)];
      outcome := OnItemChecked(index);
    }
  }

  /** The editable multi-selection combo box: each popup row holds a checkbox and a line edit,
      and checking an item enables its line edit. */
  class MSEComboBox {
    var items: seq<Item>
    var selectedItems: seq<int>
    var selectedWidgets: seq<int>
    var widgets: seq<Row>
    var rowSize: int
    var placeholderText: string
    var savedPlaceholder: string
    var readOnly: bool

    ghost predicate Valid()
      reads this
    {
      |widgets| <= |items| && Ascending(selectedWidgets)
    }

    function Display(): Bar<int>
      reads this
    {
      Bar(selectedItems, selectedWidgets, placeholderText)
    }

    ghost predicate Synced()
      reads this
    {
      readOnly && Selection.Synced(Display(), savedPlaceholder)
    }

    constructor ()
      ensures Valid()
      ensures items == [] && selectedItems == [] && selectedWidgets == [] && widgets == []
      ensures rowSize == 1 && !readOnly && placeholderText == "" && savedPlaceholder == ""
    {
      items, selectedItems, selectedWidgets, widgets := [], [], [], [];
      rowSize := 1;
      placeholderText, savedPlaceholder := "", "";
      readOnly := false;
    }

    method SetReadOnly(value: bool)
      modifies this`readOnly
      ensures readOnly == value
    {
      readOnly := value;
    }

    method SetPlaceholderText(text: string)
      modifies this`placeholderText, this`savedPlaceholder
      ensures placeholderText == text && savedPlaceholder == text
    {
      savedPlaceholder := text;
      placeholderText := text;
    }

    /** Unlike the plain box, any size is accepted, zero and negative ones included. */
    method SetRowSize(size: int)
      modifies this`rowSize
      ensures rowSize == size
    {
      rowSize := size;
    }

    method AddItem(text: string, userData: Option<string>)
      requires Valid()
      modifies this`items
      ensures Valid()
      ensures items == old(items) + [Item(text, userData)]
    {
      items := items + [Item(text, userData)];
    }

    method InsertItem(index: int, text: string, userData: Option<string>)
      requires Valid()
      modifies this`items
      ensures Valid()
      ensures items == InsertAt(old(items), index, Item(text, userData))
    {
      items := InsertAt(items, index, Item(text, userData));
    }

    /** As in the plain box (Selection.ClearBar). */
    method Clear() returns (outcome: Outcome)
      requires Valid()
      modifies this`items, this`selectedItems, this`widgets, this`selectedWidgets, this`placeholderText
      ensures Valid()
      ensures items == [] && selectedItems == [] && widgets == []
      ensures Step(outcome, Display()) == ClearBar(old(Display()), readOnly, savedPlaceholder)
      ensures outcome == Raised(TypeError) <==> readOnly && old(selectedWidgets) != []
      ensures outcome == Done && readOnly ==> Synced()
    {
      items := [];
      selectedItems := [];
      widgets := [];
      if readOnly {
        if selectedWidgets != [] {
          return Raised(TypeError);
        }
        selectedWidgets := [];
      }
      placeholderText := savedPlaceholder;
      return Done;
    }

    /** `addItems` clears first, so a clear that raises adds nothing. */
    method AddItems(texts: seq<string>) returns (outcome: Outcome)
      requires Valid()
      modifies this`items, this`selectedItems, this`widgets, this`selectedWidgets, this`placeholderText
      ensures Valid()
      ensures items == (if outcome == Done then ItemsOf(texts) else []) && selectedItems == [] && widgets == []
      ensures Step(outcome, Display()) == ClearBar(old(Display()), readOnly, savedPlaceholder)
      ensures outcome == Raised(TypeError) <==> readOnly && old(selectedWidgets) != []
    {
      outcome := Clear();
      if outcome != Done {
        return;
      }
      for i := 0 to |texts|
        invariant Valid() && widgets == [] && selectedItems == []
        invariant items == ItemsOf(texts[..i])
        invariant selectedWidgets == if readOnly then [] else old(selectedWidgets)
        invariant placeholderText == savedPlaceholder
      {
        AddItem(texts[i], None);
        assert texts[..i + 1] == texts[..i] + [texts[i]];
      }
      assert texts[..|texts|] == texts;
    }

    /** `widgets[index][1].currentText()` inside a `try`: the line edit offers `text()` and no
        `currentText()`, so the call raises for every row and the caught error leaves None;
        an index outside the rows fails the same way. */
    function ItemData(index: int): (r: Option<string>)
      reads this
      ensures r == None
    {
      None
    }

    /** `[itemData(index) for index in selectedItems]`: one None per selected index. */
    function ItemDatas(): (r: seq<Option<string>>)
      reads this
      ensures |r| == |selectedItems|
      ensures forall k :: 0 <= k < |r| ==> r[k] == ItemData(selectedItems[k]) && r[k] == None
    {
      seq(|selectedItems|, k requires 0 <= k < |selectedItems| reads this => ItemData(selectedItems[k]))
    }

    /** `_onItemTextChanged`: the row's text becomes the item's user data. */
    method OnItemTextChanged(text: string, index: nat) returns (outcome: Outcome)
      requires Valid()
      modifies this`items
      ensures Valid()
      ensures index < |old(items)| ==> outcome == Done && items == old(items)[index := old(items[index]).(userData := Some(text))]
      ensures index >= |old(items)| ==> outcome == Raised(IndexError) && items == old(items)
    {
      if index >= |items| {
        return Raised(IndexError);
      }
      items := items[index := items[index].(userData := Some(text))];
      outcome := Done;
    }

    /** Opening the popup: one row per item, the checkbox checked and the line edit enabled
        exactly when the index is selected. `i % rowSize` raises ZeroDivisionError for a row
        size of 0, after the old rows are dropped. */
    method ShowComboMenu() returns (outcome: Outcome)
      requires Valid()
      modifies this`widgets
      ensures Valid()
      ensures old(items) == [] ==> outcome == Done && widgets == old(widgets)
      ensures old(items) != [] && rowSize == 0 ==> outcome == Raised(ZeroDivisionError) && widgets == []
      ensures old(items) != [] && rowSize != 0 ==>
        outcome == Done && |widgets| == |items| && (forall i :: 0 <= i < |items| ==> widgets[i] == EditRow(items[i], i in selectedItems))
    {
      if items == [] {
        return Done;
      }
      widgets := [];
      if rowSize == 0 {
        return Raised(ZeroDivisionError);
      }
      for i := 0 to |items|
        invariant |widgets| == i
        invariant forall j :: 0 <= j < i ==> widgets[j] == EditRow(items[j], j in selectedItems)
      {
        var selected := i in selectedItems;
        widgets := widgets + [Row(CheckBox(selected, true), Field(selected, FieldText(items[i].userData), false))];
      }
      outcome := Done;
    }

    method AddDeleteButton(index: int)
      requires Ascending(selectedWidgets)
      modifies this`selectedWidgets
      ensures selectedWidgets == InsertChip(old(selectedWidgets), index)
      ensures Ascending(selectedWidgets)
    {
      var position := FindInsertPosition(selectedWidgets, index);
      selectedWidgets := selectedWidgets[..position] + [index] + selectedWidgets[position..];
      InsertChipAscending(old(selectedWidgets), index);
    }

    method RemoveDelButton(chip: int)
      requires Ascending(selectedWidgets) && chip in selectedWidgets
      modifies this`selectedWidgets
      ensures selectedWidgets == RemoveFirst(old(selectedWidgets), chip)
      ensures Ascending(selectedWidgets)
    {
      RemoveChipAscending(selectedWidgets, chip);
      selectedWidgets := RemoveFirst(selectedWidgets, chip);
    }

    method OnItemChecked(index: nat) returns (outcome: Outcome)
      requires Valid()
      modifies this`widgets, this`selectedItems, this`selectedWidgets, this`placeholderText
      ensures Valid()
      ensures index >= |old(widgets)| ==> outcome == Raised(IndexError) && Display() == old(Display()) && widgets == old(widgets)
      ensures index < |old(widgets)| && old(widgets[index].box.checked) ==>
        outcome == Done && Display() == Check(old(Display()), index, readOnly) &&
        widgets == old(widgets)[index := old(widgets[index]).(field := old(widgets[index].field).(enabled := true))]
      ensures index < |old(widgets)| && !old(widgets[index].box.checked) ==>
        Step(outcome, Display()) == Uncheck(old(Display()), index, readOnly, savedPlaceholder) &&
        widgets == old(widgets)[index := old(widgets[index]).(field := old(widgets[index].field).(enabled := false))]
      ensures old(Synced()) ==> Synced()
    {
      if index >= |widgets| {
        return Raised(IndexError);
      }
      if widgets[index].box.checked {
        outcome := CheckedSlot(index);
      } else {
        outcome := UncheckedSlot(index);
      }
    }

    /** The branch of `_onItemChecked` for a row whose checkbox is checked. */
    method CheckedSlot(index: nat) returns (outcome: Outcome)
      requires Valid() && index < |widgets| && widgets[index].box.checked
      modifies this`widgets, this`selectedItems, this`selectedWidgets, this`placeholderText
      ensures Valid()
      ensures outcome == Done && Display() == Check(old(Display()), index, readOnly) &&
        widgets == old(widgets)[index := old(widgets[index]).(field := old(widgets[index].field).(enabled := true))]
      ensures old(Synced()) ==> Synced()
    {
      ghost var before := Display();
      widgets := widgets[index := widgets[index].(field := widgets[index].field.(enabled := true))];
      selectedItems := selectedItems + [index];
      if readOnly {
        AddDeleteButton(index);
        if |selectedItems| == 1 {
          placeholderText := "";
        }
        if Selection.Synced(before, savedPlaceholder) {
          CheckKeepsSynced(before, index, savedPlaceholder);
        }
      }
      outcome := Done;
    }

    /** The branch of `_onItemChecked` for a row whose checkbox is unchecked. */
    method UncheckedSlot(index: nat) returns (outcome: Outcome)
      requires Valid() && index < |widgets| && !widgets[index].box.checked
      modifies this`widgets, this`selectedItems, this`selectedWidgets, this`placeholderText
      ensures Valid()
      ensures Step(outcome, Display()) == Uncheck(old(Display()), index, readOnly, savedPlaceholder) &&
        widgets == old(widgets)[index := old(widgets[index]).(field := old(widgets[index].field).(enabled := false))]
      ensures old(Synced()) ==> Synced()
    {
      ghost var before := Display();
      widgets := widgets[index := widgets[index].(field := widgets[index].field.(enabled := false))];
      if index !in selectedItems {
        return Raised(ValueError);
      }
      selectedItems := RemoveFirst(selectedItems, index);
      if readOnly {
        var found := index in selectedWidgets;
        if found {
          RemoveDelButton(index);
        } else {
          RemoveFirstSpec(selectedWidgets, index);
        }
        if |selectedItems| == 0 {
          placeholderText := savedPlaceholder;
        }
        if Selection.Synced(before, savedPlaceholder) {
          UncheckKeepsSynced(before, index, savedPlaceholder);
        }
      }
      outcome := Done;
    }

    method OnDeleteButtonClicked(index: nat) returns (outcome: Outcome)
      requires Valid()
      modifies this`widgets, this`selectedItems, this`selectedWidgets, this`placeholderText
      ensures Valid()
      ensures index >= |old(widgets)| ==> outcome == Raised(IndexError) && Display() == old(Display()) && widgets == old(widgets)
      ensures index < |old(widgets)| ==>
        Step(outcome, Display()) == DeleteChip(old(Display()), index, savedPlaceholder) &&
        widgets == old(widgets)[index := old(widgets[index]).(field := old(widgets[index].field).(enabled := false))]
      ensures old(Synced()) ==> Synced()
    {
      if index >= |widgets| {
        return Raised(IndexError);
      }
      ghost var before := Display();
      if readOnly && Selection.Synced(before, savedPlaceholder) {
        DeleteChipKeepsSynced(before, index, savedPlaceholder);
      }
      widgets := widgets[index := widgets[index].(field := widgets[index].field.(enabled := false))];
      var found := index in selectedWidgets;
      if found {
        RemoveDelButton(index);
        if index !in selectedItems {
          return Raised(ValueError);
        }
        selectedItems := RemoveFirst(selectedItems, index);
      }
      if |selectedWidgets| == 0 {
        placeholderText := savedPlaceholder;
      }
      outcome := Done;
    }

    /** The user changes the text of line edit `index`. A disabled line edit takes no typing
        and an unchanged text emits no `textChanged`; otherwise the row shows the new text and
        the slot stores it as the item's user data. */
    method EditText(index: nat, text: string) returns (outcome: Outcome)
      requires Valid() && index < |widgets|
      modifies this`widgets, this`items
      ensures Valid()
      ensures !old(widgets[index].field.enabled) || old(widgets[index].field.text) == text ==>
        outcome == Done && widgets == old(widgets) && items == old(items)
      ensures old(widgets[index].field.enabled) && old(widgets[index].field.text) != text ==>
        outcome == Done && widgets == old(widgets)[index := old(widgets[index]).(field := old(widgets[index].field).(text := text))] &&
        items == old(items)[index := old(items[index]).(userData := Some(text))]
    {
      var field := widgets[index].field;
      if !field.enabled || field.text == text {
        return Done;
      }
      widgets := widgets[index := widgets[index].(field := field.(text := text))];
      outcome := OnItemTextChanged(text, index);
    }

    /** The user clicks the checkbox of row `index`; here the checkbox itself is never disabled. */
    method ToggleCheckbox(index: nat) returns (outcome: Outcome)
      requires Valid() && index < |widgets|
      modifies this`widgets, this`selectedItems, this`selectedWidgets, this`placeholderText
      ensures Valid()
      ensures |widgets| == |old(widgets)| && widgets[index].box.checked == !old(widgets[index].box.checked)
      ensures widgets[index].field.enabled == !old(widgets[index].box.checked)
      ensures widgets == old(widgets)[index := old(widgets[index]).(
        box := old(widgets[index].box).(checked := !old(widgets[index].box.checked)),
        field := old(widgets[index].field).(enabled := !old(widgets[index].box.checked)))]
      ensures !old(widgets[index].box.checked) ==> outcome == Done && Display() == Check(old(Display()), index, readOnly)
      ensures old(widgets[index].box.checked) ==>
        Step(outcome, Display()) == Uncheck(old(Display()), index, readOnly, savedPlaceholder)
      ensures old(Synced()) ==> Synced()
    {
      widgets := widgets[index := widgets[index].(box := widgets[index].box.(checked := !widgets[index].box.checked))];
      outcome := OnItemChecked(index);
    }
  }

  /** The cached multi-selection combo box: entries are identified by their text, which keys the
      selection and the popup rows; the chips still carry the row index. The popup's rows are
      kept in popup order in `rows`, each with the key its slots were built with in `rowKeys`;
      `widgets` maps a key to the row stored under it, which is the last row built with that
      text. */
  class MSECComboBox {
    var items: seq<CacheItem>
    /** Texts of the checked entries, in the order they were checked. */
    var selectedItems: seq<string>
    var selectedWidgets: seq<int>
    var rows: seq<Row>
    var rowKeys: seq<string>
    var widgets: map<string, nat>
    var rowSize: int
    var placeholderText: string
    var savedPlaceholder: string
    var readOnly: bool

    ghost predicate Valid()
      reads this
    {
      Ascending(selectedWidgets) && |rowKeys| == |rows| &&
      forall key :: key in widgets ==> widgets[key] < |rows| && rowKeys[widgets[key]] == key
    }

    function Display(): Bar<string>
      reads this
    {
      Bar(selectedItems, selectedWidgets, placeholderText)
    }

    constructor ()
      ensures Valid()
      ensures items == [] && selectedItems == [] && selectedWidgets == [] && widgets == map[]
      ensures rows == [] && rowKeys == []
      ensures rowSize == 1 && !readOnly && placeholderText == "" && savedPlaceholder == ""
    {
      items, selectedItems, selectedWidgets := [], [], [];
      rows, rowKeys := [], [];
      widgets := map[];
      rowSize := 1;
      placeholderText, savedPlaceholder := "", "";
      readOnly := false;
    }

    method SetReadOnly(value: bool)
      modifies this`readOnly
      ensures readOnly == value
    {
      readOnly := value;
    }

    method SetPlaceholderText(text: string)
      modifies this`placeholderText, this`savedPlaceholder
      ensures placeholderText == text && savedPlaceholder == text
    {
      savedPlaceholder := text;
      placeholderText := text;
    }

    method SetRowSize(size: int)
      modifies this`rowSize
      ensures rowSize == size
    {
      rowSize := size;
    }

    method AddItem(text: string, datas: seq<string>, userData: Option<string>)
      modifies this`items
      ensures items == old(items) + [CacheItem(text, datas, userData, false)]
    {
      items := items + [CacheItem(text, datas, userData, false)];
    }

    method InsertItem(index: int, text: string, datas: seq<string>, userData: Option<string>)
      modifies this`items
      ensures items == InsertAt(old(items), index, CacheItem(text, datas, userData, false))
    {
      items := InsertAt(items, index, CacheItem(text, datas, userData, false));
    }

    /** As in the plain box (Selection.ClearBar); the widget map is emptied and rows already
        shown stay where they are. */
    method Clear() returns (outcome: Outcome)
      requires Valid()
      modifies this`items, this`selectedItems, this`widgets, this`selectedWidgets, this`placeholderText
      ensures Valid()
      ensures items == [] && selectedItems == [] && widgets == map[]
      ensures Step(outcome, Display()) == ClearBar(old(Display()), readOnly, savedPlaceholder)
      ensures outcome == Raised(TypeError) <==> readOnly && old(selectedWidgets) != []
    {
      items := [];
      selectedItems := [];
      widgets := map[];
      if readOnly {
        if selectedWidgets != [] {
          return Raised(TypeError);
        }
        selectedWidgets := [];
      }
      placeholderText := savedPlaceholder;
      return Done;
    }

    /** `addItems` takes a dictionary; it is given here as its (key, value) pairs in iteration
        order. It clears first, so a clear that raises adds nothing. */
    method AddItems(datas: seq<(string, seq<string>)>) returns (outcome: Outcome)
      requires Valid()
      modifies this`items, this`selectedItems, this`widgets, this`selectedWidgets, this`placeholderText
      ensures Valid()
      ensures items == (if outcome == Done then CacheItemsOf(datas) else []) && selectedItems == [] && widgets == map[]
      ensures Step(outcome, Display()) == ClearBar(old(Display()), readOnly, savedPlaceholder)
      ensures outcome == Raised(TypeError) <==> readOnly && old(selectedWidgets) != []
    {
      outcome := Clear();
      if outcome != Done {
        return;
      }
      for i := 0 to |datas|
        invariant Valid() && widgets == map[] && selectedItems == []
        invariant items == CacheItemsOf(datas[..i])
        invariant selectedWidgets == if readOnly then [] else old(selectedWidgets)
        invariant placeholderText == savedPlaceholder
      {
        AddItem(datas[i].0, datas[i].1, None);
        assert datas[..i + 1] == datas[..i] + [datas[i]];
      }
      assert datas[..|datas|] == datas;
    }

    /** `widgets[key][1].currentText()`: the text of the row stored under `key`, or None for
        a key without one. */
    function ItemData(key: string): (r: Option<string>)
      requires Valid()
      reads this
      ensures r.Some? <==> key in widgets
      ensures key in widgets ==> r == Some(rows[widgets[key]].field.text)
    {
      if key in widgets then Some(rows[widgets[key]].field.text) else None
    }

    /** `{key: itemData(key) for key in selectedItems}`. */
    function ItemDatas(): (r: map<string, Option<string>>)
      requires Valid()
      reads this
      ensures forall key :: key in r <==> key in selectedItems
      ensures forall key :: key in r ==> r[key] == ItemData(key)
    {
      map key | key in selectedItems :: ItemData(key)
    }

    /** Marks every entry whose text is `key` (the source's loop does not stop at the first). */
    method SetItemReadOnly(key: string, enabled: bool)
      modifies this`items
      ensures |items| == |old(items)|
      ensures forall k :: 0 <= k < |items| ==>
        items[k] == if old(items[k]).text == key then old(items[k]).(readOnly := enabled) else old(items[k])
    {
      for i := 0 to |items|
        invariant |items| == |old(items)|
        invariant forall k :: 0 <= k < i ==>
          items[k] == if old(items[k]).text == key then old(items[k]).(readOnly := enabled) else old(items[k])
        invariant forall k :: i <= k < |items| ==> items[k] == old(items[k])
      {
        if items[i].text == key {
          items := items[i := items[i].(readOnly := enabled)];
        }
      }
    }

    /** `_onItemTextChanged`: the row's text becomes the entry's user data. */
    method OnItemTextChanged(text: string, index: nat, key: string) returns (outcome: Outcome)
      modifies this`items
      ensures index < |old(items)| ==> outcome == Done && items == old(items)[index := old(items[index]).(userData := Some(text))]
      ensures index >= |old(items)| ==> outcome == Raised(IndexError) && items == old(items)
    {
      if index >= |items| {
        return Raised(IndexError);
      }
      items := items[index := items[index].(userData := Some(text))];
      outcome := Done;
    }

    /** Opening the popup builds one row per entry, in order, and stores row `i` under the
        text of entry `i`, so a key names the last row with its text (see RowIndexKeys and
        RowIndexLast). Nothing happens without items. */
    method ShowComboMenu()
      requires Valid()
      modifies this`rows, this`rowKeys, this`widgets
      ensures Valid()
      ensures old(items) == [] ==> rows == old(rows) && rowKeys == old(rowKeys) && widgets == old(widgets)
      ensures old(items) != [] ==>
        |rows| == |items| && |rowKeys| == |items| && widgets == RowIndex(items) &&
        forall i :: 0 <= i < |items| ==> rows[i] == CacheRow(items[i], selectedItems) && rowKeys[i] == items[i].text
    {
      if items == [] {
        return;
      }
      rows, rowKeys := [], [];
      widgets := map[];
      for i := 0 to |items|
        invariant |rows| == i && |rowKeys| == i
        invariant forall j :: 0 <= j < i ==> rows[j] == CacheRow(items[j], selectedItems) && rowKeys[j] == items[j].text
        invariant widgets == RowIndex(items[..i])
      {
        assert items[..i + 1][..i] == items[..i];
        var item := items[i];
        var selected := item.text in selectedItems;
        rows := rows + [Row(CheckBox(selected, true), Field(selected, FieldText(item.userData), item.readOnly))];
        rowKeys := rowKeys + [item.text];
        widgets := widgets[item.text := i];
      }
      assert items[..|items|] == items;
      forall key | key in widgets
        ensures widgets[key] < |rows| && rowKeys[widgets[key]] == key
      {
        RowIndexLast(items, key);
      }
    }

    method AddDeleteButton(index: int)
      requires Ascending(selectedWidgets)
      modifies this`selectedWidgets
      ensures selectedWidgets == InsertChip(old(selectedWidgets), index)
      ensures Ascending(selectedWidgets)
    {
      var position := FindInsertPosition(selectedWidgets, index);
      selectedWidgets := selectedWidgets[..position] + [index] + selectedWidgets[position..];
      InsertChipAscending(old(selectedWidgets), index);
    }

    method RemoveDelButton(chip: int)
      requires Ascending(selectedWidgets) && chip in selectedWidgets
      modifies this`selectedWidgets
      ensures selectedWidgets == RemoveFirst(old(selectedWidgets), chip)
      ensures Ascending(selectedWidgets)
    {
      RemoveChipAscending(selectedWidgets, chip);
      selectedWidgets := RemoveFirst(selectedWidgets, chip);
    }

    /** `_onItemChecked(state, index, key)`: the state is read from, and the field enabled on,
        the row stored under `key`; a missing key raises KeyError before anything changes. */
    method OnItemChecked(index: nat, key: string) returns (outcome: Outcome)
      requires Valid()
      modifies this`rows, this`selectedItems, this`selectedWidgets, this`placeholderText
      ensures Valid()
      ensures key !in widgets ==> outcome == Raised(KeyError) && Display() == old(Display()) && rows == old(rows)
      ensures key in widgets && old(rows[widgets[key]].box.checked) ==>
        outcome == Done && Display() == CacheCheck(old(Display()), index, key, readOnly) &&
        rows == old(rows)[widgets[key] := old(rows[widgets[key]]).(field := old(rows[widgets[key]].field).(enabled := true))]
      ensures key in widgets && !old(rows[widgets[key]].box.checked) ==>
        Step(outcome, Display()) == CacheUncheck(old(Display()), index, key, readOnly, savedPlaceholder) &&
        rows == old(rows)[widgets[key] := old(rows[widgets[key]]).(field := old(rows[widgets[key]].field).(enabled := false))]
    {
      if key !in widgets {
        return Raised(KeyError);
      }
      var row := widgets[key];
      var checked := rows[row].box.checked;
      if checked {
        rows := rows[row := rows[row].(field := rows[row].field.(enabled := true))];
        selectedItems := selectedItems + [key];
        if readOnly {
          AddDeleteButton(index);
          if |selectedItems| == 1 {
            placeholderText := "";
          }
        }
        outcome := Done;
      } else {
        rows := rows[row := rows[row].(field := rows[row].field.(enabled := false))];
        if readOnly {
          var found := index in selectedWidgets;
          if found {
            RemoveDelButton(index);
            if key !in selectedItems {
              return Raised(ValueError);
            }
            selectedItems := RemoveFirst(selectedItems, key);
          }
          if |selectedItems| == 0 {
            placeholderText := savedPlaceholder;
          }
        }
        outcome := Done;
      }
    }

    /** `_onDeleteButtonClicked(index, key)`: disables the field of the row stored under
        `key`. */
    method OnDeleteButtonClicked(index: nat, key: string) returns (outcome: Outcome)
      requires Valid()
      modifies this`rows, this`selectedItems, this`selectedWidgets, this`placeholderText
      ensures Valid()
      ensures key !in widgets ==> outcome == Raised(KeyError) && Display() == old(Display()) && rows == old(rows)
      ensures key in widgets ==>
        Step(outcome, Display()) == CacheDeleteChip(old(Display()), index, key, savedPlaceholder) &&
        rows == old(rows)[widgets[key] := old(rows[widgets[key]]).(field := old(rows[widgets[key]].field).(enabled := false))]
    {
      if key !in widgets {
        return Raised(KeyError);
      }
      var row := widgets[key];
      rows := rows[row := rows[row].(field := rows[row].field.(enabled := false))];
      var found := index in selectedWidgets;
      if found {
        RemoveDelButton(index);
        if key !in selectedItems {
          return Raised(ValueError);
        }
        selectedItems := RemoveFirst(selectedItems, key);
      }
      if |selectedWidgets| == 0 {
        placeholderText := savedPlaceholder;
      }
      outcome := Done;
    }

    /** The user clicks the checkbox of popup row `row`, whose slot carries index `row` and
        key `rowKeys[row]`. When that key stores this very row, the click checks or unchecks
        it. When a later row with the same text is stored under the key, the slot reads and
        changes that other row instead, and the clicked row's field is left as it was. */
    method ToggleCheckbox(row: nat) returns (outcome: Outcome)
      requires Valid() && row < |rows|
      modifies this`rows, this`selectedItems, this`selectedWidgets, this`placeholderText
      ensures Valid()
      ensures |rows| == |old(rows)| && rows[row].box.checked == !old(rows[row].box.checked)
      ensures rowKeys[row] !in widgets ==>
        outcome == Raised(KeyError) && Display() == old(Display()) &&
        rows == old(rows)[row := old(rows[row]).(box := old(rows[row].box).(checked := !old(rows[row].box.checked)))]
      ensures rowKeys[row] in widgets && widgets[rowKeys[row]] == row ==>
        rows == old(rows)[row := old(rows[row]).(
          box := old(rows[row].box).(checked := !old(rows[row].box.checked)),
          field := old(rows[row].field).(enabled := !old(rows[row].box.checked)))] &&
        rows[row].field.enabled == !old(rows[row].box.checked) &&
        (!old(rows[row].box.checked) ==> outcome == Done && Display() == CacheCheck(old(Display()), row, rowKeys[row], readOnly)) &&
        (old(rows[row].box.checked) ==>
          Step(outcome, Display()) == CacheUncheck(old(Display()), row, rowKeys[row], readOnly, savedPlaceholder))
      ensures rowKeys[row] in widgets && widgets[rowKeys[row]] != row ==>
        rows == old(rows)[row := old(rows[row]).(box := old(rows[row].box).(checked := !old(rows[row].box.checked)))]
          [widgets[rowKeys[row]] := old(rows[widgets[rowKeys[row]]]).(
            field := old(rows[widgets[rowKeys[row]]].field).(enabled := old(rows[widgets[rowKeys[row]]].box.checked)))] &&
        rows[row].field == old(rows[row].field) &&
        rows[widgets[rowKeys[row]]].field.enabled == old(rows[widgets[rowKeys[row]]].box.checked) &&
        (old(rows[widgets[rowKeys[row]]].box.checked) ==>
          outcome == Done && Display() == CacheCheck(old(Display()), row, rowKeys[row], readOnly)) &&
        (!old(rows[widgets[rowKeys[row]]].box.checked) ==>
          Step(outcome, Display()) == CacheUncheck(old(Display()), row, rowKeys[row], readOnly, savedPlaceholder))
    {
      rows := rows[row := rows[row].(box := rows[row].box.(checked := !rows[row].box.checked))];
      outcome := OnItemChecked(row, rowKeys[row]);
    }

    /** The user changes the text of popup row `row`. A disabled or read-only field takes no
        typing, and an unchanged text emits no `textChanged`; otherwise the field shows the new
        text and the slot stores it as the user data of entry `row`. */
    method EditText(row: nat, text: string) returns (outcome: Outcome)
      requires Valid() && row < |rows|
      modifies this`rows, this`items
      ensures Valid()
      ensures !old(rows[row].field.enabled) || old(rows[row].field.readOnly) || old(rows[row].field.text) == text ==>
        outcome == Done && rows == old(rows) && items == old(items)
      ensures old(rows[row].field.enabled) && !old(rows[row].field.readOnly) && old(rows[row].field.text) != text ==>
        rows == old(rows)[row := old(rows[row]).(field := old(rows[row].field).(text := text))] &&
        (row < |old(items)| ==> outcome == Done && items == old(items)[row := old(items[row]).(userData := Some(text))]) &&
        (row >= |old(items)| ==> outcome == Raised(IndexError) && items == old(items))
      ensures old(rows[row].field.enabled) && !old(rows[row].field.readOnly) && rowKeys[row] in widgets && widgets[rowKeys[row]] == row ==>
        ItemData(rowKeys[row]) == Some(text)
    {
      var field := rows[row].field;
      if !field.enabled || field.readOnly || field.text == text {
        return Done;
      }
      rows := rows[row := rows[row].(field := field.(text := text))];
      outcome := OnItemTextChanged(text, row, rowKeys[row]);
    }
  }
}
