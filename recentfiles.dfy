/** The "recent files" sub-menu: a move-to-front list of paths, bounded by a maximum count,
    shown as one menu entry per path. */
module RecentFiles {
  import opened Wrappers
  import opened PyList

  /** A menu entry: the text shown and the status tip (the path the entry opens, none for the
      placeholder entry). */
  datatype Entry = Entry(text: string, path: Option<string>)

  /** `os.path.basename` on a POSIX path: the text after the last '/'. */
  function Basename(path: string): string
  {
    AfterLast(path, '/')
  }

  /** The entry for one path: labelled by its basename, or by the whole path when the basename
      is empty. */
  function EntryFor(path: string): (e: Entry)
    ensures e.path == Some(path)
    ensures e.text == path <==> Basename(path) == "" || Basename(path) == path
    ensures '/' in e.text ==> e.text == path
  {
    var name := Basename(path);
    Entry(if name != "" then name else path, Some(path))
  }

  /** What `updateMenu` shows for a list of paths: one entry per path in order, or a single
      "None" entry for an empty list. */
  function MenuEntries(files: seq<string>): (r: seq<Entry>)
    ensures files == [] ==> r == [Entry("None", None)]
    ensures files != [] ==> |r| == |files| && forall k :: 0 <= k < |files| ==> r[k] == EntryFor(files[k])
  {
    if files == [] then [Entry("None", None)] else FileEntries(files)
  }

  function FileEntries(files: seq<string>): (r: seq<Entry>)
    ensures |r| == |files| && forall k :: 0 <= k < |files| ==> r[k] == EntryFor(files[k])
  {
    if files == [] then [] else [EntryFor(files[0])] + FileEntries(files[1..])
  }

  /** The status tips of a menu: the paths its entries open. */
  function Paths(entries: seq<Entry>): seq<string>
  {
    if entries == [] then []
    else if entries[0].path.Some? then [entries[0].path.value] + Paths(entries[1..])
    else Paths(entries[1..])
  }

  /** The menu loses no path and adds none: its status tips are the list, in order. */
  lemma {:induction false} MenuPathsRoundTrip(files: seq<string>)
    ensures Paths(MenuEntries(files)) == files
  {
    if files != [] {
      FilePathsRoundTrip(files);
    }
  }

  lemma {:induction false} FilePathsRoundTrip(files: seq<string>)
    ensures Paths(FileEntries(files)) == files
  {
    if files != [] {
      FilePathsRoundTrip(files[1..]);
      assert files == [files[0]] + files[1..];
    }
  }

  /** `addFile(path)` on the list: a present `path` is taken out (its first occurrence), it is
      put at the front, and one entry is dropped from the end when the list is then longer
      than the maximum. */
  function AddedFile(files: seq<string>, path: string, maxCount: int): seq<string>
  {
    var moved := [path] + RemoveFirst(files, path);
    if |moved| > maxCount then moved[..|moved| - 1] else moved
  }

  /** With room for at least one file, the added path comes first. */
  lemma AddFileFront(files: seq<string>, path: string, maxCount: int)
    requires maxCount >= 1
    ensures AddedFile(files, path, maxCount) != [] && AddedFile(files, path, maxCount)[0] == path
  {
  }

  /** With room for at least one file, a path present at most once before is present exactly
      once after. */
  lemma AddFileOnce(files: seq<string>, path: string, maxCount: int)
    requires maxCount >= 1 && multiset(files)[path] <= 1
    ensures multiset(AddedFile(files, path, maxCount))[path] == 1
  {
    var rest := RemoveFirst(files, path);
    var moved := [path] + rest;
    RemoveFirstMultiset(files, path);
    assert multiset(rest)[path] == 0;
    assert path !in rest;
    assert multiset(moved) == multiset{path} + multiset(rest);
    if |moved| > maxCount {
      var n := |moved|;
      var last := moved[n - 1];
      assert last == rest[n - 2];
      assert last != path;
      assert moved == moved[..n - 1] + [last];
      assert multiset(moved) == multiset(moved[..n - 1]) + multiset{last};
      assert multiset(moved[..n - 1])[path] == multiset(moved)[path];
    }
  }

  /** A list without repeats stays without repeats. */
  lemma AddFileDistinct(files: seq<string>, path: string, maxCount: int)
    requires Distinct(files)
    ensures Distinct(AddedFile(files, path, maxCount))
  {
    RemoveFirstDistinct(files, path);
    var rest := RemoveFirst(files, path);
    var moved := [path] + rest;
    assert path !in rest;
    forall i, j | 0 <= i < j < |moved|
      ensures moved[i] != moved[j]
    {
      assert moved[j] == rest[j - 1];
      if i > 0 {
        assert moved[i] == rest[i - 1];
      }
    }
    var r := AddedFile(files, path, maxCount);
    assert forall i :: 0 <= i < |r| ==> r[i] == moved[i];
  }

  /** A list within the bound stays within it; the constructor does not truncate, so a
      longer list is not brought back under the bound. */
  lemma AddFileBound(files: seq<string>, path: string, maxCount: int)
    requires |files| <= maxCount
    ensures |AddedFile(files, path, maxCount)| <= maxCount
  {
    RemoveFirstLength(files, path);
  }

  /** The other files keep their relative order, and only the last of them may be dropped:
      after the added path come the files without it, cut by at most one at the end. */
  lemma AddFileKeepsOrder(files: seq<string>, path: string, maxCount: int)
    requires maxCount >= 1
    ensures var r := AddedFile(files, path, maxCount);
      var rest := RemoveFirst(files, path);
      r[1..] == rest[..|r| - 1] && |rest| - 1 <= |r| - 1 <= |rest| && Subsequence(r[1..], files)
  {
    var r := AddedFile(files, path, maxCount);
    var rest := RemoveFirst(files, path);
    RemoveFirstSubsequence(files, path);
    assert r[1..] == rest[..|r| - 1];
    SubsequencePrefix(rest, files, |r| - 1);
  }

  /** `files[:maxCount]`, for the non-negative counts a caller means: the first `maxCount`
      files, in order. */
  lemma SetFilesKeepsFirst(files: seq<string>, maxCount: int)
    requires maxCount >= 0
    ensures var r := SlicePrefix(files, maxCount);
      |r| == (if |files| <= maxCount then |files| else maxCount) && r == files[..|r|]
  {
  }

  class ListSubMenu {
    var recentFiles: seq<string>
    var maxCount: int
    /** The entries of the menu, as its text and status tip. */
    var entries: seq<Entry>

    /** The menu shows the list. */
    ghost predicate Valid()
      reads this
    {
      entries == MenuEntries(recentFiles)
    }

    /** The given list is kept as it is, without truncation. */
    constructor (files: seq<string>, maxCount: int)
      ensures Valid()
      ensures recentFiles == files && this.maxCount == maxCount
    {
      recentFiles := files;
      this.maxCount := maxCount;
      new;
      UpdateMenu();
    }

    /** `updateMenu`: clears the menu and adds one entry per file, or the "None" entry. */
    method UpdateMenu()
      modifies this`entries
      ensures Valid()
    {
      var files := recentFiles;
      var shown: seq<Entry> := [];
      for i := 0 to |files|
        invariant |shown| == i
        invariant forall k :: 0 <= k < i ==> shown[k] == EntryFor(files[k])
      {
        shown := shown + [EntryFor(files[i])];
      }
      if files == [] {
        shown := [Entry("None", None)];
      } else {
        ghost var expected := MenuEntries(files);
        assert |expected| == |shown|;
        assert forall k :: 0 <= k < |shown| ==> shown[k] == expected[k];
      }
      entries := shown;
    }

    method AddFile(path: string)
      modifies this`recentFiles, this`entries
      ensures recentFiles == AddedFile(old(recentFiles), path, maxCount)
      ensures Valid()
    {
      if path in recentFiles {
        recentFiles := RemoveFirst(recentFiles, path);
      } else {
        RemoveFirstSpec(recentFiles, path);
      }
      recentFiles := [path] + recentFiles;
      if |recentFiles| > maxCount {
        recentFiles := recentFiles[..|recentFiles| - 1];
      }
      UpdateMenu();
    }

    method GetRecentFiles() returns (files: seq<string>)
      ensures files == recentFiles
    {
      files := recentFiles;
    }

    method SetRecentFiles(files: seq<string>)
      modifies this`recentFiles, this`entries
      ensures recentFiles == SlicePrefix(files, maxCount)
      ensures Valid()
    {
      recentFiles := SlicePrefix(files, maxCount);
      UpdateMenu();
    }
  }
}
