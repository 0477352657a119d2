# qfluentexpand widget bookkeeping, modelled in Dafny

qfluentexpand extends a Fluent-style widget set for the Qt toolkit. Under its widgets there
is a small amount of real logic: lists, flags and strings that change in well-defined ways.
This project models that logic and proves what it promises:

- the three multi-selection combo boxes. Their state is the item registry, the selection
  list in check order, the bar of delete buttons ("chips") kept in ascending item order, the
  placeholder shown, and the read-only flag (`ComboBox`).
  - The chip bar's naming scheme, ordered insert and removal are in `ChipBar`.
  - What each slot does to the selection, the chips and the placeholder is in `Selection`,
    as functions on values. The classes are proved against these functions.
- the rounded pop-up menu (`Menu`):
  - its action list and the list-view items linked to the actions;
  - the walk up its parent menus;
  - its size arithmetic.
- the recent-files sub-menu, a bounded move-to-front list (`RecentFiles`).
- the read-only path selectors, a two-state machine around a dialog (`Selector`).
- the designer launcher's argument split, search-path extension and tool paths (`Designer`).
- the designer plugin base: tool tip, XML and one-shot initialisation (`Plugin`).

Two shared modules support these. `PyList` states Python's list operations: `remove`,
`index`, `insert` with its index clamping, prefix slices and `split(sep)[-1]`. `Ascii` holds
character classes, case mapping, `str(n)` and `int(s)`. `Wrappers` has `Option` and the raised
exceptions. An `Outcome` is either `Done` or `Raised(e)`, and stands for a Python exception
escaping a method.

Toolkit objects are modelled as follows:
- chips and menu items are numbers;
- checkboxes and line edits are records with `checked`/`enabled` flags and a text;
- `findChild` is a lookup in the chip sequence;
- a dialog's answer is a method parameter.

## Model

| member | source | states |
|---|---|---|
| PyList.IndexOf | qfluentexpand/components/menu/menu.py:194-196 | `s.index(x)` is the position of the first occurrence of x. |
| PyList.RemoveFirst | qfluentexpand/components/combox/combo_box.py:233 | `list.remove(x)` as a value: the list with its first x taken out; an absent x, where the source raises ValueError, leaves it unchanged (the model's callers test membership first). |
| PyList.RemoveFirstSpec | qfluentexpand/components/combox/combo_box.py:233 | `list.remove(x)` drops exactly the element at the first index of x and keeps the rest in order. An absent x leaves the list unchanged; callers first check the ValueError case. |
| PyList.RemoveFirstIndices | qfluentexpand/components/combox/combo_box.py:233 | After `remove`, elements before the first x keep their position and elements after it move down by one. |
| PyList.RemoveFirstLength | qfluentexpand/components/widgets/menu.py:30-31 | `remove` shortens the list by one exactly when the value is present. |
| PyList.RemoveFirstMultiset | qfluentexpand/components/combox/combo_box.py:233 | `remove` takes exactly one copy of the value out of the list's multiset. |
| PyList.RemoveFirstAppended | qfluentexpand/components/combox/combo_box.py:225-233 | Removing a value just appended to a list without it gives the list back. |
| PyList.RemoveFirstAt | qfluentexpand/components/combox/combo_box.py:257 | Removing the first occurrence at k is slicing out position k. |
| PyList.InsertIndex | qfluentexpand/components/combox/combo_box.py:104-106 | `list.insert` clamps its index: a negative index counts from the end, and out-of-range indices go to either end. |
| PyList.Position | qfluentexpand/components/combox/combo_box.py:72-76 | `s[i]` reads position i, or len+i for a negative i, whenever the index is valid. |
| PyList.InsertAtShape | qfluentexpand/components/combox/combo_box.py:104-106 | `insert` places the new element at the clamped index and shifts the rest up by one. |
| PyList.InsertAt | qfluentexpand/components/combox/combo_box.py:104-106 | `list.insert(index, x)` as a value, at the clamped index of InsertIndex. |
| PyList.SlicePrefix | qfluentexpand/components/widgets/menu.py:55 | `s[:n]` with Python's clamping: a negative n counts from the end, and a large n keeps everything. |
| PyList.AfterLast | qfluentexpand/components/combox/combo_box.py:248 | `split(sep)[-1]` is the longest suffix without sep, and it is preceded by sep when shorter than the whole. |
| PyList.AfterLastJoin | qfluentexpand/components/combox/combo_box.py:243-248 | For a separator-free last part, joining with the separator and then splitting gives that part back. |
| PyList.InterleavingContents | qfluentexpand/tools/designer.py:281-295 | A merge of two lists keeps total length and multiset. |
| PyList.InterleavingSubsequences | qfluentexpand/tools/designer.py:281-295 | Each side of a merge keeps its relative order in the merge. |
| PyList.RemoveFirstSubsequence | qfluentexpand/components/widgets/menu.py:30-31 | `remove` keeps the other elements in order. |
| PyList.RemoveFirstDistinct | qfluentexpand/components/widgets/menu.py:30-31 | On a list without repeats, `remove(x)` keeps it repeat-free and removes exactly the value x. |
| PyList.InsertAtDistinct | qfluentexpand/components/menu/menu.py:194-197 | Inserting a new value into a repeat-free list keeps it repeat-free and adds exactly that value. |
| PyList.InsertBeforePlacement | qfluentexpand/components/menu/menu.py:194-197 | `insert(index(before), x)` puts x immediately before the first `before` and keeps everything else in order. |
| Ascii.ToLower | qfluentexpand/plugins/expand/base.py:51 | `lower()` on a character gives no upper-case letter, maps A-Z onto a-z invertibly, and fixes everything else. |
| Ascii.ToUpper | qfluentexpand/plugins/expand/base.py:52 | `upper()` gives no lower-case letter, maps a-z onto A-Z, and fixes everything else. |
| Ascii.LowerAll | qfluentexpand/plugins/expand/base.py:51 | String `lower()` keeps the length and lower-cases each position. |
| Ascii.UpperAll | qfluentexpand/tools/designer.py:97 | String `upper()` keeps the length and upper-cases each position. |
| Ascii.Decimal | qfluentexpand/components/combox/combo_box.py:243 | `str(n)` is a non-empty string of digits. |
| Ascii.ParseDecimal | qfluentexpand/components/combox/combo_box.py:248 | `int(s)` succeeds exactly on a non-empty string of digits. |
| Ascii.ParseDecimalOfDecimal | qfluentexpand/components/combox/combo_box.py:243-248 | `int(str(n)) == n`. |
| Ascii.DecimalInjective | qfluentexpand/components/combox/combo_box.py:243 | Distinct indices have distinct decimal names. |
| ChipBar.ChipNameRoundTrip | qfluentexpand/components/combox/combo_box.py:243-248 | Parsing a chip's object name `DeleteButton_C_<i>` with `split('_')[-1]` and `int` yields i. |
| ChipBar.ChipName | qfluentexpand/components/combox/combo_box.py:243 | A chip's object name, `DeleteButton_C_` followed by the decimal item index. |
| ChipBar.ChipIndex | qfluentexpand/components/combox/combo_box.py:248 | The index read back from an object name: `int` of the text after the last `_`, None where `int` raises. |
| ChipBar.ChipNameInjective | qfluentexpand/components/combox/combo_box.py:235 | Two chips with the same object name are for the same item, which is what the `findChild` lookup by name relies on. |
| ChipBar.InsertPosition | qfluentexpand/components/combox/combo_box.py:245-251 | The insert position lies after every leading chip with index at most the new one, and before the first greater chip. |
| ChipBar.FindInsertPosition | qfluentexpand/components/combox/combo_box.py:245-251 | The scan with its early `break` computes exactly that insert position. |
| ChipBar.InsertChip | qfluentexpand/components/combox/combo_box.py:253-254 | `selectedWidgets.insert(insert_position, chip)` at the position the scan finds. |
| ChipBar.InsertChipAt | qfluentexpand/components/combox/combo_box.py:253-254 | The bar after insertion, position by position: the old chips, with the new one at the insert position. |
| ChipBar.InsertChipAscending | qfluentexpand/components/combox/combo_box.py:241-254 | An ascending chip bar stays ascending after an insert, which adds exactly the one chip. |
| ChipBar.InsertChipMultiset | qfluentexpand/components/combox/combo_box.py:253-254 | An insert adds exactly one chip, on any bar. |
| ChipBar.InsertChipPlacement | qfluentexpand/components/combox/combo_box.py:245-254 | Even on an unsorted bar, the new chip follows the leading chips not greater than it and precedes the next one. |
| ChipBar.RemoveInsertedChip | qfluentexpand/components/combox/combo_box.py:241-259 | Removing a chip just inserted gives the bar back. |
| ChipBar.RemoveChipAscending | qfluentexpand/components/combox/combo_box.py:256-259 | Removing a chip keeps the bar ascending. |
| ChipBar.CheckKeepsMirror | qfluentexpand/components/combox/combo_box.py:225-227 | In read-only mode, checking keeps the selection and the chip bar equal as multisets, and the bar ascending. |
| ChipBar.UncheckKeepsMirror | qfluentexpand/components/combox/combo_box.py:233-237 | A selected index always has a chip to find, and removing both keeps them mirrored and the bar ascending. |
| ChipBar.DeleteKeepsMirror | qfluentexpand/components/combox/combo_box.py:261-267 | A chip found on click is always selected, and removing both keeps them mirrored. |
| ChipBar.CheckUncheckRoundTrip | qfluentexpand/components/combox/combo_box.py:220-239 | Checking an unselected index and unchecking it restores both the selection and the chip bar. |
| Selection.CheckEffect | qfluentexpand/components/combox/combo_box.py:220-229 | Checking appends the index to the selection. In read-only mode it adds exactly one chip, keeps the bar ascending, and clears the placeholder when the selection reaches size one. In editable mode chips and placeholder are untouched. |
| Selection.Check | qfluentexpand/components/combox/combo_box.py:220-229 | The plain box's check slot on selection, chips and placeholder: append the index; when read-only, insert its chip and clear the placeholder on the first selection. |
| Selection.Uncheck | qfluentexpand/components/combox/combo_box.py:230-239 | The uncheck slot: ValueError when the index is not selected; otherwise its first occurrence leaves the selection, its chip leaves the bar when found, and the saved placeholder returns on an empty selection. |
| Selection.DeleteChip | qfluentexpand/components/combox/combo_box.py:261-269 | The chip-click slot: a found chip leaves the bar together with the index (ValueError when the index is not selected); the placeholder returns when the bar is empty. |
| Selection.CacheCheck | qfluentexpand/components/combox/combo_box.py:703-714 | The cached box's check slot: append the key; when read-only, insert the chip for the row index and clear the placeholder on the first selection. |
| Selection.CacheUncheck | qfluentexpand/components/combox/combo_box.py:716-726 | The cached uncheck slot: only a read-only box with the chip found removes chip and key (ValueError for an unselected key); the placeholder returns on an empty selection. |
| Selection.CacheDeleteChip | qfluentexpand/components/combox/combo_box.py:748-757 | The cached chip-click slot, as DeleteChip with the key in the selection. |
| Selection.CheckKeepsSynced | qfluentexpand/components/combox/combo_box.py:220-229 | A read-only box whose chips mirror its selection, are ascending and whose placeholder shows exactly when nothing is selected stays so after a check. |
| Selection.UncheckKeepsSynced | qfluentexpand/components/combox/combo_box.py:230-239 | The same invariant survives an uncheck, including one that raises ValueError. |
| Selection.DeleteChipKeepsSynced | qfluentexpand/components/combox/combo_box.py:261-269 | In a box in sync, a chip click never raises, and the invariant holds after it. |
| Selection.ClearBarBreaksSync | qfluentexpand/components/combox/combo_box.py:129-132 | As written, clearing a read-only box in sync with anything selected raises TypeError and keeps its chips, so the box is no longer in sync. |
| Selection.ClearBarOneChip | qfluentexpand/components/combox/combo_box.py:129-132 | One checked item in a read-only box: the clear raises TypeError and leaves one chip with an empty selection. |
| Selection.ClearBarFixedSynced | qfluentexpand/components/combox/combo_box.py:256-259 | The corrected clear, removing chips with `removeWidget`, empties the selection and shows the saved placeholder. A read-only box loses every chip. It agrees with the code as written exactly when the box is not read-only with chips. |
| Selection.ClearBarFixedKeepsSynced | qfluentexpand/components/combox/combo_box.py:256-259 | The corrected clear leaves a read-only box in sync. |
| Selection.CheckUncheck | qfluentexpand/components/combox/combo_box.py:220-239 | Checking and then unchecking a previously unselected index succeeds and returns selection, chips and placeholder to their prior values. |
| Selection.CacheUncheckKeepsKey | qfluentexpand/components/combox/combo_box.py:703-726 | In the cached box, unchecking drops the key exactly when the box is read-only and the chip is found. Otherwise the key stays selected. |
| Selection.CacheStepsKeepAscending | qfluentexpand/components/combox/combo_box.py:703-757 | The cached box's check, uncheck and chip-click keep the chip bar ascending. |
| Selection.TwoItemRun | qfluentexpand/components/combox/combo_box.py:220-254 | Checking x then a smaller y gives selection [x, y] and chips [y, x]. Unchecking x and then y empties both, and the saved placeholder returns only at the end. |
| ComboBox.ItemsOf | qfluentexpand/components/combox/combo_box.py:99-102 | `addItems` makes one text-only item per text, in order. |
| ComboBox.CacheItemsOf | qfluentexpand/components/combox/combo_box.py:584-587 | The cached `addItems` makes one item per dictionary entry, in order, not read-only. |
| ComboBox.FieldText | qfluentexpand/components/combox/combo_box.py:449-450 | A fresh field shows the user data when there is some, and is empty otherwise. |
| ComboBox.EditRow | qfluentexpand/components/combox/combo_box.py:434-450 | The editable box's row for a new popup: checkbox checked and line edit enabled exactly when selected, both showing the user data. |
| ComboBox.CacheRow | qfluentexpand/components/combox/combo_box.py:641-662 | The cached box's row: selected when its text is selected, showing the user data, read-only as its entry. |
| ComboBox.RowIndex | qfluentexpand/components/combox/combo_box.py:634-676 | `widgets[item.text] = row i` for every entry i in order. |
| ComboBox.RowIndexKeys | qfluentexpand/components/combox/combo_box.py:634-676 | The cached popup's widget dictionary has a key for exactly the entry texts. |
| ComboBox.RowIndexLast | qfluentexpand/components/combox/combo_box.py:634-676 | A key names the row of the last entry with that text; an earlier row with the same text keeps its slots but has no entry. |
| ComboBox.MSComboBox.constructor | qfluentexpand/components/combox/combo_box.py:37-60 | A new box is empty, row size 1, editable, with no placeholder. |
| ComboBox.MSComboBox.SetReadOnly | qfluentexpand/components/combox/combo_box.py:226 | The inherited read-only flag the slots test is set. |
| ComboBox.MSComboBox.SetRowSize | qfluentexpand/components/combox/combo_box.py:65-67 | The row size changes only to a size in 1..len(items). Otherwise nothing changes. |
| ComboBox.MSComboBox.SetPlaceholderText | qfluentexpand/components/combox/combo_box.py:78-80 | The placeholder is shown and saved for later restoring. |
| ComboBox.MSComboBox.AddItem | qfluentexpand/components/combox/combo_box.py:95-97 | The item is appended. |
| ComboBox.MSComboBox.InsertItem | qfluentexpand/components/combox/combo_box.py:104-106 | The item goes where Python's `list.insert` puts it. |
| ComboBox.MSComboBox.Clear | qfluentexpand/components/combox/combo_box.py:122-137 | Items, selection and widgets become empty. The bar follows Selection.ClearBar: TypeError exactly when read-only with chips, the chips and placeholder then kept. Otherwise the chip bar is emptied only when read-only, the saved placeholder returns, and a read-only box is in sync. |
| ComboBox.MSComboBox.AddItems | qfluentexpand/components/combox/combo_box.py:99-102 | The box is cleared as by Clear. When the clear raises, no item is added; otherwise the box then holds exactly the given texts. |
| ComboBox.MSComboBox.SelectedTexts | qfluentexpand/components/combox/combo_box.py:72-76 | Returns the texts of the selected items in selection order. Raises IndexError exactly when a selected index is not a valid item index. |
| ComboBox.MSComboBox.ItemData | qfluentexpand/components/combox/combo_box.py:111-117 | Always None: a checkbox has no second element, so the lookup fails and the error is swallowed. |
| ComboBox.MSComboBox.ItemDatas | qfluentexpand/components/combox/combo_box.py:119-120 | One datum per selected index, in selection order. |
| ComboBox.MSComboBox.OnItemTextChanged | qfluentexpand/components/combox/combo_box.py:217-218 | The text becomes the item's user data. Raises IndexError for an index past the items. |
| ComboBox.MSComboBox.ShowComboMenu | qfluentexpand/components/combox/combo_box.py:161-192 | With items, the popup gets one checkbox per item, checked exactly when its index is selected. With none, nothing happens. |
| ComboBox.MSComboBox.AddDeleteButton | qfluentexpand/components/combox/combo_box.py:241-254 | The chip goes to its ascending place; the bar stays ascending. |
| ComboBox.MSComboBox.RemoveDelButton | qfluentexpand/components/combox/combo_box.py:256-259 | The chip leaves the bar; the bar stays ascending. |
| ComboBox.MSComboBox.OnItemChecked | qfluentexpand/components/combox/combo_box.py:220-239 | Enables or disables the checkbox and applies Selection.Check or Selection.Uncheck to selection, chips and placeholder, including the ValueError path. An index past the widgets raises IndexError and changes nothing. A box in sync stays in sync. |
| ComboBox.MSComboBox.CheckedSlot | qfluentexpand/components/combox/combo_box.py:222-229 | The checked branch: enables the checkbox, applies Selection.Check, and keeps a synced box synced. |
| ComboBox.MSComboBox.UncheckedSlot | qfluentexpand/components/combox/combo_box.py:230-239 | The unchecked branch: disables the checkbox, applies Selection.Uncheck (ValueError for an unselected index), and keeps a synced box synced. |
| ComboBox.MSComboBox.OnDeleteButtonClicked | qfluentexpand/components/combox/combo_box.py:261-269 | Disables the checkbox and applies Selection.DeleteChip: the chip and index go only when the chip is found, and the placeholder returns exactly when the chip bar is empty. A box in sync stays in sync. |
| ComboBox.MSComboBox.ToggleCheckbox | qfluentexpand/components/combox/combo_box.py:188 | A click on an enabled checkbox flips it and runs the slot, which checks or unchecks. A disabled one ignores the click. |
| ComboBox.MSEComboBox.constructor | qfluentexpand/components/combox/combo_box.py:302-325 | A new editable-row box is empty, row size 1, editable, with no placeholder. |
| ComboBox.MSEComboBox.SetReadOnly | qfluentexpand/components/combox/combo_box.py:497 | The inherited read-only flag the slots test is set. |
| ComboBox.MSEComboBox.SetRowSize | qfluentexpand/components/combox/combo_box.py:330-331 | Any size is accepted, unchecked. |
| ComboBox.MSEComboBox.SetPlaceholderText | qfluentexpand/components/combox/combo_box.py:336-338 | The placeholder is shown and saved. |
| ComboBox.MSEComboBox.AddItem | qfluentexpand/components/combox/combo_box.py:353-355 | The item is appended. |
| ComboBox.MSEComboBox.InsertItem | qfluentexpand/components/combox/combo_box.py:362-364 | The item is inserted as `list.insert` does. |
| ComboBox.MSEComboBox.Clear | qfluentexpand/components/combox/combo_box.py:380-395 | Items, selection and rows become empty. The bar follows Selection.ClearBar: TypeError exactly when read-only with chips, the chips and placeholder then kept. Otherwise the chips are emptied only when read-only, the saved placeholder returns, and a read-only box is in sync. |
| ComboBox.MSEComboBox.AddItems | qfluentexpand/components/combox/combo_box.py:357-360 | The box is cleared as by Clear. When the clear raises, no item is added; otherwise the box then holds exactly the given texts. |
| ComboBox.MSEComboBox.ItemData | qfluentexpand/components/combox/combo_box.py:369-375 | Always None: a line edit has no `currentText()`, so the call raises and the caught error leaves None. |
| ComboBox.MSEComboBox.ItemDatas | qfluentexpand/components/combox/combo_box.py:377-378 | One datum per selected index, in selection order, each None. |
| ComboBox.MSEComboBox.OnItemTextChanged | qfluentexpand/components/combox/combo_box.py:488-489 | The text becomes the item's user data. Raises IndexError past the items. |
| ComboBox.MSEComboBox.EditText | qfluentexpand/components/combox/combo_box.py:453 | Typing into an enabled line edit changes its text and, through `textChanged`, the item's user data; a disabled one or an unchanged text changes nothing. |
| ComboBox.MSEComboBox.ShowComboMenu | qfluentexpand/components/combox/combo_box.py:419-486 | With items, builds one row per item: checkbox checked and line edit enabled exactly when selected. A zero row size raises ZeroDivisionError. |
| ComboBox.MSEComboBox.AddDeleteButton | qfluentexpand/components/combox/combo_box.py:512-525 | The chip goes to its ascending place. |
| ComboBox.MSEComboBox.RemoveDelButton | qfluentexpand/components/combox/combo_box.py:527-530 | The chip leaves the bar, which stays ascending. |
| ComboBox.MSEComboBox.OnItemChecked | qfluentexpand/components/combox/combo_box.py:491-510 | Enables or disables the row's line edit and applies Selection.Check or Selection.Uncheck. Raises IndexError past the rows. Keeps a box in sync in sync. |
| ComboBox.MSEComboBox.CheckedSlot | qfluentexpand/components/combox/combo_box.py:493-500 | The checked branch: enables the line edit, applies Selection.Check, and keeps a synced box synced. |
| ComboBox.MSEComboBox.UncheckedSlot | qfluentexpand/components/combox/combo_box.py:501-510 | The unchecked branch: disables the line edit, applies Selection.Uncheck, and keeps a synced box synced. |
| ComboBox.MSEComboBox.OnDeleteButtonClicked | qfluentexpand/components/combox/combo_box.py:532-540 | Applies Selection.DeleteChip and disables the row's line edit. |
| ComboBox.MSEComboBox.ToggleCheckbox | qfluentexpand/components/combox/combo_box.py:491-510 | A click flips the checkbox, sets the line edit's enabled flag to the new checked state, and checks or unchecks. Every other row, and the rest of the clicked row, stay as they were. |
| ComboBox.MSECComboBox.constructor | qfluentexpand/components/combox/combo_box.py:573-578 | A new cached box is empty, row size 1, editable, with no placeholder. |
| ComboBox.MSECComboBox.SetReadOnly | qfluentexpand/components/combox/combo_box.py:710 | The inherited read-only flag the slots test is set. |
| ComboBox.MSECComboBox.SetRowSize | qfluentexpand/components/combox/combo_box.py:330-331 | Inherited unchecked setter: any size is stored. |
| ComboBox.MSECComboBox.SetPlaceholderText | qfluentexpand/components/combox/combo_box.py:336-338 | Inherited: the placeholder is shown and saved. |
| ComboBox.MSECComboBox.AddItem | qfluentexpand/components/combox/combo_box.py:580-582 | The entry with its choices is appended, not read-only. |
| ComboBox.MSECComboBox.InsertItem | qfluentexpand/components/combox/combo_box.py:589-591 | The entry is inserted as `list.insert` does. |
| ComboBox.MSECComboBox.Clear | qfluentexpand/components/combox/combo_box.py:612-627 | Entries, selection and widget dictionary become empty. The bar follows Selection.ClearBar: TypeError exactly when read-only with chips, the chips and placeholder then kept. Otherwise the chips are emptied only when read-only and the saved placeholder returns. |
| ComboBox.MSECComboBox.AddItems | qfluentexpand/components/combox/combo_box.py:584-587 | The box is cleared as by Clear. When the clear raises, no entry is added; otherwise the box then holds one entry per dictionary pair. |
| ComboBox.MSECComboBox.ItemData | qfluentexpand/components/combox/combo_box.py:596-602 | The current text of the row stored under the key, None for a key without a row. |
| ComboBox.MSECComboBox.ItemDatas | qfluentexpand/components/combox/combo_box.py:604-605 | A dictionary over exactly the selected keys, each mapped to its datum. |
| ComboBox.MSECComboBox.SetItemReadOnly | qfluentexpand/components/combox/combo_box.py:607-610 | Every entry with that text gets the flag; the rest and the order are untouched. |
| ComboBox.MSECComboBox.OnItemTextChanged | qfluentexpand/components/combox/combo_box.py:700-701 | The text becomes the entry's user data. Raises IndexError past the entries. |
| ComboBox.MSECComboBox.EditText | qfluentexpand/components/combox/combo_box.py:665 | Typing into an enabled, editable field changes its text and the user data of entry `row`; when the key stores that row, `itemData(key)` then returns the typed text. |
| ComboBox.MSECComboBox.ShowComboMenu | qfluentexpand/components/combox/combo_box.py:628-698 | With entries, one row per entry in order (CacheRow), each with its entry's text as key, and the dictionary is RowIndex of the entries. With none, nothing happens. |
| ComboBox.MSECComboBox.AddDeleteButton | qfluentexpand/components/combox/combo_box.py:728-741 | The chip goes to its ascending place. |
| ComboBox.MSECComboBox.RemoveDelButton | qfluentexpand/components/combox/combo_box.py:743-746 | The chip leaves the bar, which stays ascending. |
| ComboBox.MSECComboBox.OnItemChecked | qfluentexpand/components/combox/combo_box.py:703-726 | A key without a row raises KeyError and changes nothing. Otherwise the state of the row stored under the key decides: CacheCheck and that row's field enabled, or CacheUncheck and it disabled. |
| ComboBox.MSECComboBox.OnDeleteButtonClicked | qfluentexpand/components/combox/combo_box.py:748-757 | A key without a row raises KeyError. Otherwise applies CacheDeleteChip and disables the field of the row stored under the key. |
| ComboBox.MSECComboBox.ToggleCheckbox | qfluentexpand/components/combox/combo_box.py:664 | A click flips the clicked row's checkbox and runs its slot. When the key stores the clicked row, that row is checked or unchecked; when it stores a later row with the same text, the slot reads and changes that row and the clicked row's field stays as it was; with the dictionary cleared it raises KeyError. On each path `rows` is given in full: besides the flipped checkbox, only the field of the row the slot reads changes. |
| Menu.RoundMenu.constructor | qfluentexpand/components/menu/menu.py:37-58 | A new menu has no actions, items or parent, item height 28, and is hidden. |
| Menu.RoundMenu.SetItemHeight | qfluentexpand/components/menu/menu.py:87-93 | Setting the current height changes nothing. Another height is stored and passed to the view. |
| Menu.RoundMenu.SetParentMenu | qfluentexpand/components/menu/menu.py:104-107 | The menu is a sub-menu exactly when it is given a parent. |
| Menu.RoundMenu.AdjustSize | qfluentexpand/components/menu/menu.py:109-113 | Width is view width + left + right margin; height is view height + top + bottom margin. |
| Menu.RoundMenu.CreateActionItem | qfluentexpand/components/menu/menu.py:189-211 | Without `before` the action is appended. With a `before` in the list it goes immediately before it. A `before` not in the list raises ValueError and changes nothing. |
| Menu.RoundMenu.AddAction | qfluentexpand/components/menu/menu.py:133-143 | The action goes to the end of the list, and its new item to the end of the view. The menu is then resized to the view plus its margins. |
| Menu.RoundMenu.InsertAction | qfluentexpand/components/menu/menu.py:258-270 | A no-op when `before` is absent or has no item. A no-op path keeps the size. Otherwise the action and its item go immediately before `before` and its row, and the menu is resized to the view plus its margins. |
| Menu.RoundMenu.RemoveAction | qfluentexpand/components/menu/menu.py:288-309 | An absent action changes nothing. Otherwise its first occurrence goes and the rest keep their order. Its item's row also goes when it has an item. |
| Menu.RoundMenu.Clear | qfluentexpand/components/menu/menu.py:121-124 | Removing from the back leaves no actions and drops exactly the rows of their items; the kept rows stay in order, and each dropped item forgets its action. |
| Menu.RoundMenu.CloseParentMenu | qfluentexpand/components/menu/menu.py:421-425 | This menu and every menu up its parent chain are closed. |
| Menu.RoundMenu.OnItemClicked | qfluentexpand/components/menu/menu.py:403-419 | The action triggers exactly when the item's action is in the list and enabled, and is selectable if the item has a widget. A trigger hides the menu, and for a sub-menu closes the chain. Otherwise nothing changes. |
| Menu.RemoveKeyValues | qfluentexpand/components/menu/menu.py:296 | Clearing the item of one action with an injective action-to-item link drops exactly that item. |
| Menu.KeptLinks | qfluentexpand/components/menu/menu.py:288-302 | After a removal, every other linked action is still listed and its item is still a row. |
| Menu.ClickTriggers | qfluentexpand/components/menu/menu.py:403-414 | When a click reaches `action.trigger()`: the item's action is listed and enabled, and is selectable when the item shows a widget. |
| RecentFiles.EntryFor | qfluentexpand/components/widgets/menu.py:40-44 | An entry is labelled by the basename, or by the full path when the basename is empty, and its status tip is the path. |
| RecentFiles.Basename | qfluentexpand/components/widgets/menu.py:40 | `os.path.basename`: the text after the last '/'. |
| RecentFiles.MenuEntries | qfluentexpand/components/widgets/menu.py:37-49 | One entry per file in list order; an empty list gives the single "None" entry. |
| RecentFiles.FileEntries | qfluentexpand/components/widgets/menu.py:39-46 | One entry per path, in list order. |
| RecentFiles.MenuPathsRoundTrip | qfluentexpand/components/widgets/menu.py:37-49 | The status tips of the menu are exactly the list, in order. |
| RecentFiles.FilePathsRoundTrip | qfluentexpand/components/widgets/menu.py:39-46 | The status tips of the per-path entries are the paths, in order. |
| RecentFiles.AddFileFront | qfluentexpand/components/widgets/menu.py:29-32 | After `addFile(p)` with room for one file, p comes first. |
| RecentFiles.AddedFile | qfluentexpand/components/widgets/menu.py:29-34 | `addFile` on the list: first occurrence taken out, path put first, last entry popped when over the maximum. |
| RecentFiles.AddFileOnce | qfluentexpand/components/widgets/menu.py:29-32 | A path present at most once before is present exactly once after. |
| RecentFiles.AddFileDistinct | qfluentexpand/components/widgets/menu.py:29-34 | A repeat-free list stays repeat-free. |
| RecentFiles.AddFileBound | qfluentexpand/components/widgets/menu.py:22-34 | A list within the maximum stays within it. |
| RecentFiles.AddFileKeepsOrder | qfluentexpand/components/widgets/menu.py:30-34 | The other files keep their relative order, and at most the last of them is dropped. |
| RecentFiles.SetFilesKeepsFirst | qfluentexpand/components/widgets/menu.py:54-56 | `files[:max_count]` keeps exactly the first max_count files, in order. |
| RecentFiles.ListSubMenu.constructor | qfluentexpand/components/widgets/menu.py:22-27 | The list is kept as given, untruncated, and the menu shows it. |
| RecentFiles.ListSubMenu.UpdateMenu | qfluentexpand/components/widgets/menu.py:37-49 | The menu shows MenuEntries of the list. |
| RecentFiles.ListSubMenu.AddFile | qfluentexpand/components/widgets/menu.py:29-35 | The list becomes the move-to-front result, and the menu shows it. |
| RecentFiles.ListSubMenu.GetRecentFiles | qfluentexpand/components/widgets/menu.py:51-52 | Returns the list. |
| RecentFiles.ListSubMenu.SetRecentFiles | qfluentexpand/components/widgets/menu.py:54-56 | The list becomes the first max_count files, and the menu shows it. |
| Selector.FilePathSelector.constructor | qfluentexpand/components/line/selector.py:17-28 | A new selector is read-only and empty, with file types "*", state false and the arrow icon. |
| Selector.FilePathSelector.SetFileTypes | qfluentexpand/components/line/selector.py:30-31 | Stores the file-type filter. |
| Selector.FilePathSelector.SetText | qfluentexpand/components/line/selector.py:33-40 | State is true exactly for a non-empty text, and the icon is Close exactly when the state is true. |
| Selector.FilePathSelector.ToggleSelect | qfluentexpand/components/line/selector.py:42-58 | With the state set, clears the text and resets state and icon. With it unset, an empty dialog answer changes nothing and a path is shown with state set. A failing dialog still sets the state. |
| Selector.FolderPathSelector.constructor | qfluentexpand/components/line/selector.py:64-73 | A new folder selector is read-only and empty. |
| Selector.FolderPathSelector.ToggleSelect | qfluentexpand/components/line/selector.py:75-84 | The folder chosen becomes the text. An empty answer or a failing dialog leaves it unchanged. |
| Designer.BundleName | qfluentexpand/tools/designer.py:97 | The binary with its first character upper-cased and the rest unchanged. |
| Designer.PathSep | qfluentexpand/tools/designer.py:154-155 | `os.pathsep`: ';' on Windows, ':' elsewhere. |
| Designer.UiToolBinary | qfluentexpand/tools/designer.py:93-98 | The binary itself off macOS, the executable inside its app bundle on macOS. |
| Designer.UiToolBinaryShape | qfluentexpand/tools/designer.py:93-98 | Off macOS the binary is unchanged. On macOS the path starts with the bundle name, and for a binary without '/' its last component is the bundle name. |
| Designer.RccArgsShape | qfluentexpand/tools/designer.py:113-119 | The user arguments come last, unchanged. `-g python` is prefixed exactly when `--binary` is absent. |
| Designer.RccArgs | qfluentexpand/tools/designer.py:113-119 | `rcc`'s arguments: `-g python` unless `--binary` is given, then the user's. |
| Designer.UicArgs | qfluentexpand/tools/designer.py:109-110 | `uic`'s arguments: always `-g python`, then the user's. |
| Designer.ToolPath | qfluentexpand/tools/designer.py:60-67 | A tool wanted from `libexec` is taken from `Qt/libexec` except on Windows. |
| Designer.Partition | qfluentexpand/tools/designer.py:281-295 | The split of the command line: a plugin flag takes the next token with it, every other token is unknown. |
| Designer.PartitionArgs | qfluentexpand/tools/designer.py:281-295 | The while loop computes the partition; its decreasing measure shows it ends. |
| Designer.PartitionInterleaves | qfluentexpand/tools/designer.py:281-295 | The command line is a merge of known and unknown arguments, each in order. |
| Designer.PartitionKeepsTokens | qfluentexpand/tools/designer.py:281-295 | Every token lands in exactly one list: lengths add up, multisets add up, and each list is a subsequence of the command line. |
| Designer.PartitionUnknownHasNoFlag | qfluentexpand/tools/designer.py:286-295 | No `-p`/`--plugin` is left among the unknown arguments. |
| Designer.PartitionKnownPairs | qfluentexpand/tools/designer.py:286-291 | Known arguments are flag/value pairs. An odd count means the command line ended with a lone flag. |
| Designer.ExtendedValueSplit | qfluentexpand/tools/designer.py:150-158 | With a non-empty old value, the result is new+sep+old when prepending and old+sep+new otherwise. Splitting at the last separator gives the appended value back. |
| Designer.ExtendedValue | qfluentexpand/tools/designer.py:150-158 | The new value of the variable: the given value alone when unset or empty, otherwise joined before or after the old one. |
| Designer.Environment.constructor | qfluentexpand/tools/designer.py:150-158 | The environment starts as given. |
| Designer.Environment.ExtendPathVar | qfluentexpand/tools/designer.py:150-158 | Only the named variable changes, to the extended value. A missing or empty old value is replaced by the new value. |
| Plugin.ToolTip | qfluentexpand/plugins/expand/base.py:50-52 | Defined exactly for a non-empty name; `name[0]` raises otherwise. |
| Plugin.WhatsThis | qfluentexpand/plugins/expand/base.py:54-55 | Always the tool tip. |
| Plugin.ToolTipLength | qfluentexpand/plugins/expand/base.py:50-52 | The tool tip is as long as the name plus the number of upper-case letters after position 0. |
| Plugin.ToolTipCase | qfluentexpand/plugins/expand/base.py:50-52 | The first character is the name's first character lowered and then upper-cased. No later character is upper case. |
| Plugin.SpacedRoundTrip | qfluentexpand/plugins/expand/base.py:50-52 | The rewrite only inserts spaces: removing them from the spaced name of a name without spaces gives the name back. |
| Plugin.Spaced | qfluentexpand/plugins/expand/base.py:24 | `re.sub(r'(?<!^)(?=[A-Z])', ' ', name)`: a space before every upper-case letter except at the start. |
| Plugin.ToolTipContent | qfluentexpand/plugins/expand/base.py:50-52 | Without the inserted spaces, the tool tip is the name with its first character upper-cased and the rest lower-cased. |
| Plugin.SpacedSpaces | qfluentexpand/plugins/expand/base.py:24 | Each inserted space stands right before an upper-case letter, never first or last, and every upper-case letter after the first position has a space right before it. |
| Plugin.ToolTipSpaces | qfluentexpand/plugins/expand/base.py:50-52 | Lower-casing and upper-casing the first letter move no space: the tool tip is as long as the spaced name and has its spaces at exactly the same positions. |
| Plugin.DomXmlInjective | qfluentexpand/plugins/expand/base.py:60-61 | The XML names its widget: different names give different XML. |
| Plugin.DomXml | qfluentexpand/plugins/expand/base.py:60-61 | The XML names the widget class and the object after the plugin's name. |
| Plugin.IconPath | qfluentexpand/plugins/expand/base.py:41-42 | The icon's resource path for a name. |
| Plugin.InitializeOnce | qfluentexpand/plugins/expand/base.py:26-36 | After `initialize` the plugin is initialised, and a second call changes nothing. Without a Factory, no factory is made or registered. On the first call with one, exactly one factory is made and registered. |
| Plugin.Initialized | qfluentexpand/plugins/expand/base.py:26-36 | The state after `initialize`: unchanged when already initialised; otherwise initialised, and with a Factory one new factory made and registered. |
| Plugin.PluginBase.constructor | qfluentexpand/plugins/expand/base.py:20-24 | A new plugin is uninitialised, with no factory. |
| Plugin.PluginBase.Initialize | qfluentexpand/plugins/expand/base.py:26-36 | The state becomes the one InitializeOnce describes. |
| Plugin.PluginBase.IsInitialized | qfluentexpand/plugins/expand/base.py:38-39 | Returns the flag. |
| Plugin.PluginBase.Base | qfluentexpand/plugins/expand/base.py:44-45 | The base class itself is named "PluginBase" and starts uninitialised. |
| Plugin.PluginBase.GroupName | qfluentexpand/plugins/expand/base.py:47-48 | The designer group "Fluent-Widgets-Expand". |
| Plugin.PluginBase.IsContainer | qfluentexpand/plugins/expand/base.py:57-58 | No plugin's widget is a container. |
| Plugin.PluginBase.IncludeFileName | qfluentexpand/plugins/expand/base.py:63-67 | The package "qfluentexpand". |

## Left out

- Geometry, painting, shadows, style sheets, icons and animations of every widget are toolkit rendering. This includes the popup placement in `_showComboMenu` and the font-metric widths in the menu.
- The combo boxes' `_onReturnPressed`, `_onComboTextChanged`, `_onClearButtonClicked`, `eventFilter`, `_toggleComboMenu`, `_closeComboMenu`, `setCompleterMenu` and `currentText` are left out. They depend on inherited base-class methods that are not part of this model.
- `removeItem` is left out: its body is `pass`.
- `ComboBox.MSComboBox.ItemData`: a raised error other than the failed lookup is not distinguished; every failure gives None.
- `ComboBox.MSEComboBox.ItemData`: the result rests on the toolkit's `LineEdit` offering no `currentText()`. The file's own line-edit subclasses add one returning `text()` (combo_box.py:69 and 333), which they would not need if the base had it. Were the base to have it, `itemData(i)` would be the text of row i.
- `ComboBox.MSECComboBox.EditText` models typing only. Picking one of the entry's choices from the drop-down list, which also changes the text of a read-only field, is not modelled, since the rows do not carry the choices.
- `ComboBox.MSECComboBox.ShowComboMenu` replaces `rows` with the new popup's rows. Slots of an earlier popup's rows, which the toolkit may already have destroyed, are not modelled.
- `findChild` is modelled over the chips still in the bar. A chip already scheduled by `deleteLater` is not modelled as still findable.
- `addWidget`, `removeWidget`, `addMenu`, `insertMenu`, `addSeparator`, `addActions`, `insertActions`, `setDefaultAction`, `_onActionChanged`, `exec`, `adjustPosition` and the sub-menu show logic of the menu are left out. They are toolkit display code.
- The view's row of an item (`view.row`) is its position in `rows`; the toolkit's list model is otherwise not modelled.
- `Menu.RoundMenu`: the link from an action to its item is kept per menu in `itemOf`, and the link back in `dataOf`. In the source the first is the action's own `item` property (menu.py:209 and 294-296), shared by every menu the action is added to. Adding one action to two menus, where the second menu overwrites the property the first one reads, is not modelled.
- Menu.RoundMenu.CloseParentMenu / Menu.RoundMenu.OnItemClicked: the parent chain is passed as a ghost sequence and must end in a menu without a parent. A cyclic chain is excluded: on one, the `while menu` loop of `_closeParentMenu` (menu.py:421-425) never ends.
- RecentFiles.ListSubMenu.constructor: the source's shared mutable default list, which aliases across instances, is not modelled. Each menu owns its list.
- RecentFiles.Basename: POSIX `basename` only (the text after the last '/'); Windows separators are not modelled.
- The file and folder dialogs are not modelled; their answer is a parameter. An exception from them is the `Failed` answer, and its message printing is left out.
- Ascii.ToLower / Ascii.ToUpper / Ascii.LowerAll / Ascii.UpperAll apply ASCII-only case mapping. Python's Unicode case mapping is not modelled.
- Ascii.ParseDecimal: `int()` is modelled on ASCII decimal digits only. Signs, surrounding whitespace, underscores and other Unicode digits are not accepted.
- `qt_tool_wrapper`'s subprocess call, its prints and its exit are process I/O. Only the tool path choice is kept, as `Designer.ToolPath`.
- The argument parser and the plugin-path handling in `main` are left out, as are the `designer()` environment preloading per platform and the other tool wrappers. They are OS and library I/O.
- `_extend_path_var`'s print is left out.
- The plugin's `icon()` is kept only as its resource path (`Plugin.IconPath`); the QIcon wrapper is toolkit code.
- The factory object is a number supplied by the caller, and the extension manager is the `registered` list.
- The plugin's `name()` and `Factory` are constructor parameters, standing for what a subclass overrides. The registration files and the concrete plugin subclasses are not part of this model.
- Plugin.ToolTip is stated by lemmas over any name rather than on concrete names such as "FilePathSelector". The three-item popup walk-through is stated only on values, as Selection.TwoItemRun.
- Concurrency and the toolkit's signal delivery order are not modelled: each slot runs to completion when its signal fires.
- ComboBox.MSComboBox.Clear / ComboBox.MSEComboBox.Clear / ComboBox.MSECComboBox.Clear: the TypeError rests on PySide6's `QLayout.removeItem` accepting only a `QLayoutItem`, which a `PushButton` chip is not. The chip's `deleteLater` and the toolkit's own error message are not modelled.

## Findings

| source | as written | input that shows it | evidently intended | confidence | as-written member | corrected member |
|---|---|---|---|---|---|---|
| qfluentexpand/components/combox/combo_box.py:129-132 | `clear()` of a read-only box passes each chip to `hBoxLayout.removeItem`, which takes a layout item, so the first chip raises TypeError after items and selection are already empty; the same loop is at lines 388-390 and 620-622, and `addItems` calls `clear()` first | a read-only box with one item checked (selection [0], one chip), then `clear()` or `addItems([...])` | remove each chip with `removeWidget`, as `_removeDelButton` does at line 258, so that the chips go and the saved placeholder returns | not executed | Selection.ClearBarBreaksSync | Selection.ClearBarFixedKeepsSynced |
