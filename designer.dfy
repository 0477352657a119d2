/** The launcher for the UI designer and the other toolkit tools: how it splits its command
    line, how it extends search-path variables, and the tool paths and arguments it builds.
    Running the tools, the environment preloading per platform and the command-line parser
    belong to the operating system and the Python library. */
module Designer {
  import opened Wrappers
  import opened PyList
  import opened Ascii

  /** The value of `sys.platform` the launcher tests. */
  datatype Platform = Win32 | Darwin | Linux | OtherPlatform

  /** `os.pathsep`. */
  function PathSep(platform: Platform): char
  {
    if platform == Win32 then ';' else ':'
  }

  /** `ui_tool_binary`: the binary itself, except on macOS, where it lies inside an app
      bundle named after the binary with its first character upper-cased. */
  function UiToolBinary(platform: Platform, binary: string): string
  {
    if platform != Darwin then binary
    else
      var name := BundleName(binary);
      name + ".app/Contents/MacOS/" + name
  }

  /** `binary[0:1].upper() + binary[1:]`. */
  function BundleName(binary: string): (name: string)
    ensures |name| == |binary|
    ensures binary != [] ==> name[0] == ToUpper(binary[0]) && name[1..] == binary[1..]
  {
    UpperAll(binary[..if binary == [] then 0 else 1]) + binary[if binary == [] then 0 else 1..]
  }

  /** Off macOS the binary is used as given. On macOS the path starts with the bundle name,
      and for a binary without '/' its last component, the executable, is the bundle name
      again. */
  lemma UiToolBinaryShape(platform: Platform, binary: string)
    ensures platform != Darwin ==> UiToolBinary(platform, binary) == binary
    ensures platform == Darwin ==> UiToolBinary(platform, binary)[..|binary|] == BundleName(binary)
    ensures platform == Darwin && '/' !in binary ==>
      AfterLast(UiToolBinary(platform, binary), '/') == BundleName(binary)
  {
    if platform == Darwin {
      var name := BundleName(binary);
      var r := UiToolBinary(platform, binary);
      assert r[..|name|] == name;
      if '/' !in binary {
        assert forall k :: 1 <= k < |name| ==> name[k] == binary[k];
        assert name != [] ==> name[0] == ToUpper(binary[0]) && binary[0] in binary;
        assert '/' !in name;
        assert r == (name + ".app/Contents/MacOS") + ['/'] + name;
        AfterLastJoin(name + ".app/Contents/MacOS", '/', name);
      }
    }
  }

  /** The arguments `rcc` passes on: `-g python` first unless the user asked for `--binary`,
      then the user's arguments unchanged. */
  function RccArgs(userArgs: seq<string>): seq<string>
  {
    (if "--binary" !in userArgs then ["-g", "python"] else []) + userArgs
  }

  /** The arguments `uic` passes on: always `-g python`, then the user's. */
  function UicArgs(userArgs: seq<string>): seq<string>
  {
    ["-g", "python"] + userArgs
  }

  /** The user's arguments come last and unchanged, and the generator option is added exactly
      when `--binary` is absent. */
  lemma RccArgsShape(userArgs: seq<string>)
    ensures var r := RccArgs(userArgs);
      |r| >= |userArgs| && r[|r| - |userArgs|..] == userArgs &&
      ("--binary" in r <==> "--binary" in userArgs) &&
      (|r| == |userArgs| + 2 <==> "--binary" !in userArgs) &&
      ("--binary" !in userArgs ==> r[..2] == ["-g", "python"]) &&
      ("--binary" in userArgs ==> r == userArgs)
  {
    var r := RccArgs(userArgs);
    if "--binary" !in userArgs {
      assert r == ["-g", "python"] + userArgs;
      assert forall k :: 0 <= k < |r| ==> r[k] == (if k == 0 then "-g" else if k == 1 then "python" else userArgs[k - 2]);
    }
  }

  /** The program a tool is started from, as path components below the toolkit directory:
      tools wanted from `libexec` are there except on Windows. */
  function ToolPath(platform: Platform, tool: string, libexec: bool): seq<string>
  {
    if libexec && platform != Win32 then ["Qt", "libexec", tool] else [tool]
  }

  /** The tokens that select a plugin directory. */
  predicate IsPluginFlag(token: string)
  {
    token == "-p" || token == "--plugin"
  }

  /** The split `main` makes of its arguments: a plugin flag goes to the known arguments with
      the token after it (alone when it is the last token); every other token goes to the
      unknown arguments. */
  function Partition(argv: seq<string>): (seq<string>, seq<string>)
    decreases |argv|
  {
    if argv == [] then ([], [])
    else if IsPluginFlag(argv[0]) then
      if |argv| >= 2 then
        var rest := Partition(argv[2..]);
        ([argv[0], argv[1]] + rest.0, rest.1)
      else ([argv[0]], [])
    else
      var rest := Partition(argv[1..]);
      (rest.0, [argv[0]] + rest.1)
  }

  /** The loop of `main` that builds `known_args` and `unknown_args`. */
  method PartitionArgs(argv: seq<string>) returns (known: seq<string>, unknown: seq<string>)
    ensures known == Partition(argv).0 && unknown == Partition(argv).1
  {
    known, unknown := [], [];
    var i := 0;
    assert argv[0..] == argv;
    while i < |argv|
      invariant i <= |argv|
      invariant Partition(argv).0 == known + Partition(argv[i..]).0
      invariant Partition(argv).1 == unknown + Partition(argv[i..]).1
      decreases |argv| - i
    {
      ghost var rest := argv[i..];
      assert rest[0] == argv[i];
      if argv[i] == "-p" || argv[i] == "--plugin" {
        if i + 1 < |argv| {
          assert rest[1] == argv[i + 1];
          assert rest[2..] == argv[i + 2..];
          assert Partition(rest) == ([argv[i], argv[i + 1]] + Partition(argv[i + 2..]).0, Partition(argv[i + 2..]).1);
          known := known + [argv[i], argv[i + 1]];
          i := i + 2;
        } else {
          assert argv[i + 1..] == [];
          assert Partition(rest) == ([argv[i]], []);
          known := known + [argv[i]];
          i := i + 1;
        }
      } else {
        assert rest[1..] == argv[i + 1..];
        assert Partition(rest) == (Partition(argv[i + 1..]).0, [argv[i]] + Partition(argv[i + 1..]).1);
        unknown := unknown + [argv[i]];
        i := i + 1;
      }
    }
  }

  /** Every token lands in exactly one of the two lists, each list keeping the order of the
      command line. */
  lemma {:induction false} PartitionInterleaves(argv: seq<string>)
    ensures Interleaving(Partition(argv).0, Partition(argv).1, argv)
    decreases |argv|
  {
    if argv != [] {
      var (known, unknown) := Partition(argv);
      if IsPluginFlag(argv[0]) {
        if |argv| >= 2 {
          PartitionInterleaves(argv[2..]);
          assert known[1..] == [argv[1]] + Partition(argv[2..]).0;
          assert known[2..] == Partition(argv[2..]).0;
          assert argv[1..][1..] == argv[2..];
          assert Interleaving(known[1..], unknown, argv[1..]);
        } else {
          assert known[1..] == [] && unknown == [] && argv[1..] == [];
        }
      } else {
        PartitionInterleaves(argv[1..]);
        assert unknown[1..] == Partition(argv[1..]).1;
      }
    }
  }

  /** So no token is lost or invented, the total length is kept, and each list is the
      command line with the other list's tokens deleted. */
  lemma PartitionKeepsTokens(argv: seq<string>)
    ensures |Partition(argv).0| + |Partition(argv).1| == |argv|
    ensures multiset(Partition(argv).0) + multiset(Partition(argv).1) == multiset(argv)
    ensures Subsequence(Partition(argv).0, argv) && Subsequence(Partition(argv).1, argv)
  {
    PartitionInterleaves(argv);
    InterleavingContents(Partition(argv).0, Partition(argv).1, argv);
    InterleavingSubsequences(Partition(argv).0, Partition(argv).1, argv);
  }

  /** No plugin flag is left among the unknown arguments. */
  lemma {:induction false} PartitionUnknownHasNoFlag(argv: seq<string>)
    ensures forall k :: 0 <= k < |Partition(argv).1| ==> !IsPluginFlag(Partition(argv).1[k])
    decreases |argv|
  {
    if argv != [] {
      if IsPluginFlag(argv[0]) {
        if |argv| >= 2 {
          PartitionUnknownHasNoFlag(argv[2..]);
        }
      } else {
        PartitionUnknownHasNoFlag(argv[1..]);
      }
    }
  }

  /** The known arguments are flag-value pairs: every even position holds a plugin flag, and
      only a flag that ended the command line can stand alone at the end. */
  lemma {:induction false} PartitionKnownPairs(argv: seq<string>)
    ensures forall k :: 0 <= k < |Partition(argv).0| && k % 2 == 0 ==> IsPluginFlag(Partition(argv).0[k])
    ensures |Partition(argv).0| % 2 == 1 ==> argv != [] && IsPluginFlag(argv[|argv| - 1])
    decreases |argv|
  {
    if argv != [] && IsPluginFlag(argv[0]) && |argv| >= 2 {
      var rest := Partition(argv[2..]).0;
      PartitionKnownPairs(argv[2..]);
      var known := Partition(argv).0;
      assert forall k :: 2 <= k < |known| ==> known[k] == rest[k - 2];
      assert |rest| % 2 == 1 ==> argv[2..][|argv[2..]| - 1] == argv[|argv| - 1];
    } else if argv != [] && !IsPluginFlag(argv[0]) {
      PartitionKnownPairs(argv[1..]);
      assert argv[1..] != [] ==> argv[1..][|argv[1..]| - 1] == argv[|argv| - 1];
    }
  }

  /** `_extend_path_var` on the variable's old value (None when unset): a missing or empty
      value is replaced, another one gets the new value in front of it or behind it, joined
      by the path separator. */
  function ExtendedValue(current: Option<string>, value: string, prepend: bool, sep: char): string
  {
    if current.Some? && current.value != "" then
      if prepend then value + [sep] + current.value else current.value + [sep] + value
    else value
  }

  /** Splitting the result again at the separator gives the new value back as its first
      entry when prepended and as its last when appended (for a value without separators),
      and the current value as the rest. */
  lemma ExtendedValueSplit(current: Option<string>, value: string, prepend: bool, sep: char)
    requires current.Some? && current.value != ""
    ensures var r := ExtendedValue(current, value, prepend, sep);
      |r| == |value| + 1 + |current.value| &&
      (prepend ==> r[..|value|] == value && r[|value|] == sep && r[|value| + 1..] == current.value) &&
      (!prepend ==> r[..|current.value|] == current.value && r[|current.value|] == sep && r[|current.value| + 1..] == value)
    ensures !prepend && sep !in value ==> AfterLast(ExtendedValue(current, value, prepend, sep), sep) == value
  {
    var r := ExtendedValue(current, value, prepend, sep);
    if !prepend {
      assert r == current.value + [sep] + value;
      assert r[|current.value| + 1..] == value;
      if sep !in value {
        AfterLastJoin(current.value, sep, value);
      }
    }
  }

  /** The process environment (`os.environ`). */
  class Environment {
    var vars: map<string, string>

    constructor (initial: map<string, string>)
      ensures vars == initial
    {
      vars := initial;
    }

    /** `_extend_path_var(name, value, prepend)`; nothing else is touched. */
    method ExtendPathVar(name: string, value: string, prepend: bool, platform: Platform)
      modifies this`vars
      ensures vars == old(vars)[name := ExtendedValue(if name in old(vars) then Some(old(vars)[name]) else None, value, prepend, PathSep(platform))]
    {
      var current := if name in vars then Some(vars[name]) else None;
      var extended: string;
      if current.Some? && current.value != "" {
        if prepend {
          extended := value + [PathSep(platform)] + current.value;
        } else {
          extended := current.value + [PathSep(platform)] + value;
        }
      } else {
        extended := value;
      }
      vars := vars[name := extended];
    }
  }
}
