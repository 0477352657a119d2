/** The bar of delete buttons ("chips") that a read-only multi-selection combo box shows in its
    field, one per selected item. A chip is named "DeleteButton_C_" followed by the item's index
    and the index is read back from the name; the model keeps each chip as that index. */
module ChipBar {
  import opened Wrappers
  import opened PyList
  import opened Ascii

  const ChipPrefix := "DeleteButton_C_"

  /** The object name of the chip for item `index`. */
  function ChipName(index: nat): string
  {
    ChipPrefix + Decimal(index)
  }

  /** `int(name.split('_')[-1])`, None where `int` raises ValueError. */
  function ChipIndex(name: string): Option<nat>
  {
    ParseDecimal(AfterLast(name, '_'))
  }

  /** Reading a chip's name back yields the index it was named after, so keeping the index is
      the same as keeping the name. */
  lemma ChipNameRoundTrip(index: nat)
    ensures ChipIndex(ChipName(index)) == Some(index)
  {
    var d := Decimal(index);
    var name := ChipName(index);
    assert forall k :: 0 <= k < |d| ==> d[k] != '_';
    var r := AfterLast(name, '_');
    assert forall k :: |ChipPrefix| <= k < |name| ==> name[k] == d[k - |ChipPrefix|];
    assert name[|ChipPrefix| - 1] == '_';
    assert forall k :: 0 <= k < |r| ==> r[k] == name[|name| - |r| + k];
    assert |r| == |d|;
    assert r == d;
    ParseDecimalOfDecimal(index);
  }

  /** Chips with the same name belong to the same item (what `findChild` by name relies on). */
  lemma ChipNameInjective(i: nat, j: nat)
    requires ChipName(i) == ChipName(j)
    ensures i == j
  {
    ChipNameRoundTrip(i);
    ChipNameRoundTrip(j);
  }

  /** The chips are in ascending order of item index. */
  predicate Ascending(chips: seq<int>)
  {
    forall i, j :: 0 <= i < j < |chips| ==> chips[i] <= chips[j]
  }

  /** Where a new chip for `index` goes: after every leading chip whose index is at most `index`,
      before the first one that is greater. */
  function InsertPosition(chips: seq<int>, index: int): (p: nat)
    ensures p <= |chips|
    ensures forall k :: 0 <= k < p ==> chips[k] <= index
    ensures p < |chips| ==> chips[p] > index
  {
    if chips == [] || chips[0] > index then 0 else 1 + InsertPosition(chips[1..], index)
  }

  /** The scan `_addDeleteButton` runs over the chip bar to find the insert position. */
  method FindInsertPosition(chips: seq<int>, index: int) returns (p: nat)
    ensures p == InsertPosition(chips, index)
  {
    p := 0;
    var i := 0;
    while i < |chips|
      invariant i <= |chips| && p == i
      invariant forall k :: 0 <= k < i ==> chips[k] <= index
    {
      var current := chips[i];
      if current > index {
        break;
      }
      p := i + 1;
      i := i + 1;
    }
  }

  /** The chip bar after a chip for `index` is inserted. */
  function InsertChip(chips: seq<int>, index: int): seq<int>
  {
    var p := InsertPosition(chips, index);
    chips[..p] + [index] + chips[p..]
  }

  /** Where each chip of the new bar comes from. */
  lemma InsertChipAt(chips: seq<int>, index: int)
    ensures var p := InsertPosition(chips, index);
      var r := InsertChip(chips, index);
      |r| == |chips| + 1 &&
      forall k :: 0 <= k < |r| ==> r[k] == (if k < p then chips[k] else if k == p then index else chips[k - 1])
  {
  }

  /** Inserting keeps an ascending bar ascending, and adds exactly the one chip. */
  lemma InsertChipAscending(chips: seq<int>, index: int)
    requires Ascending(chips)
    ensures Ascending(InsertChip(chips, index))
    ensures multiset(InsertChip(chips, index)) == multiset(chips) + multiset{index}
  {
    var p := InsertPosition(chips, index);
    var r := InsertChip(chips, index);
    InsertChipAt(chips, index);
    forall i, j | 0 <= i < j < |r|
      ensures r[i] <= r[j]
    {
      if i < p && p < j {
        assert r[i] <= index < r[j];
      }
    }
    InsertChipMultiset(chips, index);
  }

  lemma InsertChipMultiset(chips: seq<int>, index: int)
    ensures multiset(InsertChip(chips, index)) == multiset(chips) + multiset{index}
  {
    var p := InsertPosition(chips, index);
    assert chips == chips[..p] + chips[p..];
    assert multiset(InsertChip(chips, index)) == multiset(chips[..p]) + multiset{index} + multiset(chips[p..]);
  }

  /** Even on an unsorted bar the new chip lands after every chip with a smaller or equal index
      that comes before the first greater one. */
  lemma InsertChipPlacement(chips: seq<int>, index: int)
    ensures var p := InsertPosition(chips, index);
      InsertChip(chips, index)[p] == index &&
      (forall k :: 0 <= k < p ==> InsertChip(chips, index)[k] <= index) &&
      (p + 1 < |chips| + 1 ==> InsertChip(chips, index)[p + 1] > index)
  {
  }

  /** Removing the chip again gives the bar back, on any bar not already showing `index`. */
  lemma RemoveInsertedChip(chips: seq<int>, index: int)
    requires index !in chips
    ensures RemoveFirst(InsertChip(chips, index), index) == chips
  {
    var p := InsertPosition(chips, index);
    var r := InsertChip(chips, index);
    assert r[..p] == chips[..p];
    assert index !in r[..p];
    RemoveFirstAt(r, p);
    assert r[p + 1..] == chips[p..];
    assert chips == chips[..p] + chips[p..];
  }

  /** Removing a chip keeps the bar ascending. */
  lemma RemoveChipAscending(chips: seq<int>, index: int)
    requires Ascending(chips)
    ensures Ascending(RemoveFirst(chips, index))
  {
    RemoveFirstSpec(chips, index);
    if index in chips {
      var k := IndexOf(chips, index);
      var r := RemoveFirst(chips, index);
      RemoveFirstIndices(chips, index);
      forall i, j | 0 <= i < j < |r|
        ensures r[i] <= r[j]
      {
        var i' := if i < k then i else i + 1;
        var j' := if j < k then j else j + 1;
        assert r[i] == chips[i'] && r[j] == chips[j'] && i' < j';
      }
    }
  }

  /** Read-only mode keeps the selection list and the chip bar as the same multiset. */
  predicate Mirrored(selected: seq<int>, chips: seq<int>)
  {
    multiset(selected) == multiset(chips)
  }

  /** Checking an item: its index is appended to the selection and its chip inserted. */
  lemma CheckKeepsMirror(selected: seq<int>, chips: seq<int>, index: int)
    requires Mirrored(selected, chips) && Ascending(chips)
    ensures Mirrored(selected + [index], InsertChip(chips, index))
    ensures Ascending(InsertChip(chips, index))
  {
    InsertChipAscending(chips, index);
  }

  /** Unchecking an item that is selected: its chip is there to be found, and removing both
      keeps them mirrored. */
  lemma UncheckKeepsMirror(selected: seq<int>, chips: seq<int>, index: int)
    requires Mirrored(selected, chips) && Ascending(chips) && index in selected
    ensures index in chips
    ensures Mirrored(RemoveFirst(selected, index), RemoveFirst(chips, index))
    ensures Ascending(RemoveFirst(chips, index))
  {
    assert multiset(selected)[index] > 0;
    RemoveFirstMultiset(selected, index);
    RemoveFirstMultiset(chips, index);
    RemoveChipAscending(chips, index);
  }

  /** Deleting a chip that is there: the index is selected too, and removing both keeps them
      mirrored. */
  lemma DeleteKeepsMirror(selected: seq<int>, chips: seq<int>, index: int)
    requires Mirrored(selected, chips) && Ascending(chips) && index in chips
    ensures index in selected
    ensures Mirrored(RemoveFirst(selected, index), RemoveFirst(chips, index))
    ensures Ascending(RemoveFirst(chips, index))
  {
    assert multiset(chips)[index] > 0;
    assert multiset(selected)[index] > 0;
    UncheckKeepsMirror(selected, chips, index);
  }

  /** Checking an unselected item and unchecking it again restores both lists. */
  lemma CheckUncheckRoundTrip(selected: seq<int>, chips: seq<int>, index: int)
    requires Mirrored(selected, chips) && index !in selected
    ensures RemoveFirst(selected + [index], index) == selected
    ensures RemoveFirst(InsertChip(chips, index), index) == chips
  {
    assert multiset(selected)[index] == 0;
    assert index !in chips by {
      assert multiset(chips)[index] == 0;
    }
    RemoveFirstAppended(selected, index);
    RemoveInsertedChip(chips, index);
  }
}
