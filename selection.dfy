/** The selection/display synchroniser of the multi-selection combo boxes, on values: the
    selection list, the chip bar and the placeholder the field shows. Each function is what one
    slot does to those three; the combo-box classes apply them to their fields. */
module Selection {
  import opened Wrappers
  import opened PyList
  import opened ChipBar

  /** Selection list (indices or keys, in check order), chip bar (item indices) and the
      placeholder currently shown. */
  datatype Bar<K> = Bar(selected: seq<K>, chips: seq<int>, shown: string)

  /** What a slot did and the bar it left (a slot that raises leaves its partial changes). */
  datatype Step<K> = Step(outcome: Outcome, bar: Bar<K>)

  /** The placeholder a read-only box shows for a given selection: the saved one while nothing
      is selected, none while anything is. */
  function ShownPlaceholder<K>(selected: seq<K>, saved: string): string
  {
    if selected == [] then saved else ""
  }

  /** A read-only index-keyed box in sync: chips mirror the selection, are ascending, and the
      placeholder shows exactly while nothing is selected. */
  ghost predicate Synced(b: Bar<int>, saved: string)
  {
    Mirrored(b.selected, b.chips) && Ascending(b.chips) && b.shown == ShownPlaceholder(b.selected, saved)
  }

  /** `_onItemChecked` of the plain and editable boxes, for a checkbox that became checked. */
  function Check(b: Bar<int>, index: int, readOnly: bool): Bar<int>
  {
    var selected := b.selected + [index];
    if readOnly then Bar(selected, InsertChip(b.chips, index), if |selected| == 1 then "" else b.shown)
    else b.(selected := selected)
  }

  /** `_onItemChecked` of the plain and editable boxes, for a checkbox that became unchecked:
      `selectedItems.remove` raises ValueError for an index not selected; in read-only mode the
      chip found by name is removed and the saved placeholder returns once nothing is selected. */
  function Uncheck(b: Bar<int>, index: int, readOnly: bool, saved: string): Step<int>
  {
    if index !in b.selected then Step(Raised(ValueError), b)
    else
      var selected := RemoveFirst(b.selected, index);
      if readOnly then Step(Done, Bar(selected, RemoveFirst(b.chips, index), if selected == [] then saved else b.shown))
      else Step(Done, b.(selected := selected))
  }

  /** `_onDeleteButtonClicked` of the plain and editable boxes: a chip that is found goes, and
      its index leaves the selection (ValueError when it is not selected, after the chip has
      gone); the saved placeholder returns when the chip bar is empty. */
  function DeleteChip(b: Bar<int>, index: int, saved: string): Step<int>
  {
    if index in b.chips then
      var chips := RemoveFirst(b.chips, index);
      if index !in b.selected then Step(Raised(ValueError), b.(chips := chips))
      else Step(Done, Bar(RemoveFirst(b.selected, index), chips, if chips == [] then saved else b.shown))
    else Step(Done, b.(shown := if b.chips == [] then saved else b.shown))
  }

  /** `clear()` of all three boxes, on the bar, as written: the selection empties; a read-only
      box then hands its first chip to `QLayout.removeItem`, which takes a layout item and not
      a widget, so it raises TypeError with the chips and the placeholder untouched. A box
      without chips, or an editable one, keeps its chips only when editable and gets the saved
      placeholder back. */
  function ClearBar<K>(b: Bar<K>, readOnly: bool, saved: string): Step<K>
  {
    if readOnly && b.chips != [] then Step(Raised(TypeError), b.(selected := []))
    else Step(Done, Bar([], if readOnly then [] else b.chips, saved))
  }

  /** `clear()` as evidently intended, each chip taken out with `removeWidget` as
      `_removeDelButton` does: it never raises, and a read-only box loses all its chips. */
  function ClearBarFixed<K>(b: Bar<K>, readOnly: bool, saved: string): Bar<K>
  {
    Bar([], if readOnly then [] else b.chips, saved)
  }

  /** As written, clearing a read-only box in sync that has anything selected raises and leaves
      it out of sync: its chips stay while its selection is empty. */
  lemma ClearBarBreaksSync(b: Bar<int>, saved: string)
    requires Synced(b, saved) && b.selected != []
    ensures ClearBar(b, true, saved).outcome == Raised(TypeError)
    ensures ClearBar(b, true, saved).bar.chips == b.chips
    ensures !Synced(ClearBar(b, true, saved).bar, saved)
  {
    assert |b.chips| == |multiset(b.chips)| == |multiset(b.selected)| == |b.selected|;
    assert multiset(ClearBar(b, true, saved).bar.selected) == multiset{};
  }

  /** A concrete instance: one item checked in a read-only box with placeholder "p". */
  lemma ClearBarOneChip()
    ensures Synced(Bar([0], [0], ""), "p")
    ensures ClearBar(Bar([0], [0], ""), true, "p") == Step(Raised(TypeError), Bar([], [0], ""))
    ensures !Synced(Bar([], [0], ""), "p")
  {
    assert multiset([0]) != multiset([]) by { assert 0 in multiset([0]); }
  }

  /** The corrected clear leaves a read-only box in sync and empty; it agrees with the code as
      written on every box except a read-only one with chips. */
  lemma ClearBarFixedSynced<K>(b: Bar<K>, readOnly: bool, saved: string)
    ensures ClearBarFixed(b, readOnly, saved).selected == []
    ensures ClearBarFixed(b, readOnly, saved).shown == saved
    ensures ClearBarFixed(b, readOnly, saved).chips == (if readOnly then [] else b.chips)
    ensures readOnly ==> ClearBarFixed(b, readOnly, saved).chips == []
    ensures ClearBar(b, readOnly, saved) == Step(Done, ClearBarFixed(b, readOnly, saved)) <==> !(readOnly && b.chips != [])
  {
  }

  /** The corrected clear of a read-only index-keyed box is in sync. */
  lemma ClearBarFixedKeepsSynced(b: Bar<int>, saved: string)
    ensures Synced(ClearBarFixed(b, true, saved), saved)
  {
  }

  /** Checking an unselected index appends it to the selection; in read-only mode it adds one
      chip at its ascending place, and the placeholder goes exactly when the selection reaches
      one element. */
  lemma CheckEffect(b: Bar<int>, index: int, readOnly: bool)
    requires Ascending(b.chips)
    ensures Check(b, index, readOnly).selected == b.selected + [index]
    ensures readOnly ==> multiset(Check(b, index, readOnly).chips) == multiset(b.chips) + multiset{index}
    ensures Ascending(Check(b, index, readOnly).chips)
    ensures readOnly ==> (Check(b, index, readOnly).shown == "" <==> |b.selected| == 0 || b.shown == "")
    ensures !readOnly ==> Check(b, index, readOnly).chips == b.chips && Check(b, index, readOnly).shown == b.shown
  {
    InsertChipAscending(b.chips, index);
  }

  /** A read-only box stays in sync through checking. */
  lemma CheckKeepsSynced(b: Bar<int>, index: int, saved: string)
    requires Synced(b, saved)
    ensures Synced(Check(b, index, true), saved)
  {
    InsertChipAscending(b.chips, index);
  }

  /** A read-only box stays in sync through unchecking, whether or not it raises. */
  lemma UncheckKeepsSynced(b: Bar<int>, index: int, saved: string)
    requires Synced(b, saved)
    ensures Synced(Uncheck(b, index, true, saved).bar, saved)
  {
    if index in b.selected {
      UncheckKeepsMirror(b.selected, b.chips, index);
    }
  }

  /** A read-only box stays in sync through a chip click, and the click never raises there. */
  lemma DeleteChipKeepsSynced(b: Bar<int>, index: int, saved: string)
    requires Synced(b, saved)
    ensures DeleteChip(b, index, saved).outcome == Done
    ensures Synced(DeleteChip(b, index, saved).bar, saved)
  {
    if index in b.chips {
      DeleteKeepsMirror(b.selected, b.chips, index);
      RemoveFirstMultiset(b.chips, index);
      RemoveFirstMultiset(b.selected, index);
      assert RemoveFirst(b.chips, index) == [] <==> RemoveFirst(b.selected, index) == [] by {
        assert |RemoveFirst(b.chips, index)| == |multiset(RemoveFirst(b.chips, index))|;
        assert |RemoveFirst(b.selected, index)| == |multiset(RemoveFirst(b.selected, index))|;
      }
    } else {
      assert b.chips == [] <==> b.selected == [] by {
        assert |b.chips| == |multiset(b.chips)| && |b.selected| == |multiset(b.selected)|;
      }
    }
  }

  /** Checking a previously unselected index and then unchecking it gives back the selection
      and the chip bar; a box in sync also gets its placeholder back. */
  lemma CheckUncheck(b: Bar<int>, index: int, readOnly: bool, saved: string)
    requires index !in b.selected
    requires readOnly ==> Synced(b, saved)
    ensures Uncheck(Check(b, index, readOnly), index, readOnly, saved).outcome == Done
    ensures Uncheck(Check(b, index, readOnly), index, readOnly, saved).bar == b
  {
    RemoveFirstAppended(b.selected, index);
    if readOnly {
      CheckUncheckRoundTrip(b.selected, b.chips, index);
    }
  }

  /** `_onItemChecked` of the cached box, for a checkbox that became checked: the key is
      appended and, read-only, a chip named after the row's index is added. */
  function CacheCheck(b: Bar<string>, index: int, key: string, readOnly: bool): Bar<string>
  {
    var selected := b.selected + [key];
    if readOnly then Bar(selected, InsertChip(b.chips, index), if |selected| == 1 then "" else b.shown)
    else b.(selected := selected)
  }

  /** `_onItemChecked` of the cached box, for a checkbox that became unchecked: only a
      read-only box whose chip for `index` is found drops the key; an editable box keeps the
      key selected. */
  function CacheUncheck(b: Bar<string>, index: int, key: string, readOnly: bool, saved: string): Step<string>
  {
    if !readOnly then Step(Done, b)
    else if index in b.chips then
      var chips := RemoveFirst(b.chips, index);
      if key !in b.selected then Step(Raised(ValueError), b.(chips := chips))
      else
        var selected := RemoveFirst(b.selected, key);
        Step(Done, Bar(selected, chips, if selected == [] then saved else b.shown))
    else Step(Done, b.(shown := if b.selected == [] then saved else b.shown))
  }

  /** `_onDeleteButtonClicked` of the cached box. */
  function CacheDeleteChip(b: Bar<string>, index: int, key: string, saved: string): Step<string>
  {
    if index in b.chips then
      var chips := RemoveFirst(b.chips, index);
      if key !in b.selected then Step(Raised(ValueError), b.(chips := chips))
      else Step(Done, Bar(RemoveFirst(b.selected, key), chips, if chips == [] then saved else b.shown))
    else Step(Done, b.(shown := if b.chips == [] then saved else b.shown))
  }

  /** In the cached box the key leaves the selection on unchecking exactly when the box is
      read-only and the chip is found (and the key was selected); otherwise it stays. */
  lemma CacheUncheckKeepsKey(b: Bar<string>, index: int, key: string, readOnly: bool, saved: string)
    requires key in b.selected
    ensures var s := CacheUncheck(b, index, key, readOnly, saved);
      s.outcome == Done &&
      (s.bar.selected == RemoveFirst(b.selected, key) <==> readOnly && index in b.chips) &&
      (!(readOnly && index in b.chips) ==> s.bar.selected == b.selected)
  {
    RemoveFirstSpec(b.selected, key);
    RemoveFirstLength(b.selected, key);
  }

  /** Both cached-box slots keep the chip bar ascending. */
  lemma CacheStepsKeepAscending(b: Bar<string>, index: int, key: string, readOnly: bool, saved: string)
    requires Ascending(b.chips)
    ensures Ascending(CacheCheck(b, index, key, readOnly).chips)
    ensures Ascending(CacheUncheck(b, index, key, readOnly, saved).bar.chips)
    ensures Ascending(CacheDeleteChip(b, index, key, saved).bar.chips)
  {
    InsertChipAscending(b.chips, index);
    RemoveChipAscending(b.chips, index);
  }

  /** Two items `x` and a smaller `y` of a read-only box with placeholder `saved`: checking
      `x`, then `y`, then unchecking `x` and `y`. The selection keeps check order, the chips
      stay ascending, and the placeholder returns only at the end. */
  lemma TwoItemRun(x: int, y: int, saved: string)
    requires y < x
    ensures Check(Bar([], [], saved), x, true) == Bar([x], [x], "")
    ensures Check(Bar([x], [x], ""), y, true) == Bar([x, y], [y, x], "")
    ensures Uncheck(Bar([x, y], [y, x], ""), x, true, saved) == Step(Done, Bar([y], [y], ""))
    ensures Uncheck(Bar([y], [y], ""), y, true, saved) == Step(Done, Bar([], [], saved))
  {
    assert InsertPosition([x], y) == 0;
    assert [x, y][1..] == [y];
    assert RemoveFirst([x, y], x) == [y];
    assert [y, x][1..] == [x];
    assert RemoveFirst([x], x) == [];
    assert RemoveFirst([y, x], x) == [y];
  }
}
