/** What every designer plugin of the widget library reports about its widget (tool tip, XML,
    group, include file) and its one-shot initialisation. `re.sub(r'(?<!^)(?=[A-Z])', ' ', …)`
    is written out as the function Spaced. */
module Plugin {
  import opened Wrappers
  import opened Ascii

  const Group := "Fluent-Widgets-Expand"
  const IncludeFile := "qfluentexpand"
  const BaseName := "PluginBase"

  /** A space before every upper-case ASCII letter except at position 0. */
  function Spaced(name: string): string
  {
    if name == [] then [] else [name[0]] + SpacedTail(name[1..])
  }

  /** A space before every upper-case ASCII letter. */
  function SpacedTail(s: string): string
  {
    if s == [] then []
    else (if IsUpper(s[0]) then [' ', s[0]] else [s[0]]) + SpacedTail(s[1..])
  }

  /** The number of upper-case ASCII letters. */
  function UpperCount(s: string): nat
  {
    if s == [] then 0 else (if IsUpper(s[0]) then 1 else 0) + UpperCount(s[1..])
  }

  /** `s` without its spaces. */
  function RemoveSpaces(s: string): string
  {
    if s == [] then [] else (if s[0] == ' ' then [] else [s[0]]) + RemoveSpaces(s[1..])
  }

  /** `toolTip`: the name spaced, lower-cased, and then its first character upper-cased;
      an empty name makes `name[0]` raise IndexError, here None. */
  function ToolTip(name: string): (r: Option<string>)
    ensures r.Some? <==> name != []
  {
    if name == [] then None
    else
      var low := LowerAll(Spaced(name));
      Some([ToUpper(low[0])] + low[1..])
  }

  /** `whatsThis` is the tool tip. */
  function WhatsThis(name: string): (r: Option<string>)
    ensures r == ToolTip(name)
  {
    ToolTip(name)
  }

  lemma {:induction false} SpacedTailLength(s: string)
    ensures |SpacedTail(s)| == |s| + UpperCount(s)
  {
    if s != [] {
      SpacedTailLength(s[1..]);
    }
  }

  /** The tool tip is one character longer than the name for each upper-case letter after the
      first character. */
  lemma ToolTipLength(name: string)
    requires name != []
    ensures |ToolTip(name).value| == |name| + UpperCount(name[1..])
  {
    SpacedTailLength(name[1..]);
  }

  /** The tool tip starts with the name's first character upper-cased, and no other
      character of it is upper case. */
  lemma ToolTipCase(name: string)
    requires name != []
    ensures ToolTip(name).value[0] == ToUpper(ToLower(name[0]))
    ensures forall k :: 1 <= k < |ToolTip(name).value| ==> !IsUpper(ToolTip(name).value[k])
  {
    var low := LowerAll(Spaced(name));
    assert Spaced(name)[0] == name[0];
  }

  lemma {:induction false} RemoveSpacesAppend(a: string, b: string)
    ensures RemoveSpaces(a + b) == RemoveSpaces(a) + RemoveSpaces(b)
  {
    if a != [] {
      RemoveSpacesAppend(a[1..], b);
      assert (a + b)[0] == a[0];
      assert (a + b)[1..] == a[1..] + b;
    } else {
      assert a + b == b;
    }
  }

  lemma {:induction false} RemoveSpacesSpacedTail(s: string)
    ensures RemoveSpaces(SpacedTail(s)) == RemoveSpaces(s)
  {
    if s != [] {
      var head := if IsUpper(s[0]) then [' ', s[0]] else [s[0]];
      RemoveSpacesAppend(head, SpacedTail(s[1..]));
      RemoveSpacesSpacedTail(s[1..]);
      assert RemoveSpaces(head) == RemoveSpaces([s[0]]);
      RemoveSpacesAppend([s[0]], s[1..]);
      assert s == [s[0]] + s[1..];
    }
  }

  /** Only spaces are inserted: taking the spaces out again gives the name back, for a name
      without spaces of its own. */
  lemma SpacedRoundTrip(name: string)
    requires ' ' !in name
    ensures RemoveSpaces(Spaced(name)) == name
  {
    if name != [] {
      RemoveSpacesAppend([name[0]], SpacedTail(name[1..]));
      RemoveSpacesSpacedTail(name[1..]);
      NoSpaces(name[1..]);
      assert name == [name[0]] + name[1..];
    }
  }

  lemma {:induction false} NoSpaces(s: string)
    requires ' ' !in s
    ensures RemoveSpaces(s) == s
  {
    if s != [] {
      assert s[0] in s;
      assert forall c :: c in s[1..] ==> c in s;
      NoSpaces(s[1..]);
      assert s == [s[0]] + s[1..];
    }
  }

  /** Lower-casing neither makes nor removes a space. */
  lemma {:induction false} RemoveSpacesLowerAll(s: string)
    ensures RemoveSpaces(LowerAll(s)) == LowerAll(RemoveSpaces(s))
  {
    if s != [] {
      assert LowerAll(s)[1..] == LowerAll(s[1..]);
      RemoveSpacesLowerAll(s[1..]);
      if s[0] != ' ' {
        assert LowerAll([s[0]] + RemoveSpaces(s[1..])) == [ToLower(s[0])] + LowerAll(RemoveSpaces(s[1..]));
      }
    }
  }

  /** What the tool tip says: taking out the inserted spaces leaves the name with its first
      character upper-cased and every other character lower-cased. */
  lemma ToolTipContent(name: string)
    requires name != [] && ' ' !in name
    ensures RemoveSpaces(ToolTip(name).value) == [ToUpper(ToLower(name[0]))] + LowerAll(name[1..])
  {
    var tail := name[1..];
    var low := LowerAll(Spaced(name));
    assert low[1..] == LowerAll(SpacedTail(tail));
    assert name[0] in name;
    assert ToUpper(low[0]) != ' ';
    assert ToolTip(name).value == [ToUpper(low[0])] + low[1..];
    RemoveSpacesAppend([ToUpper(low[0])], low[1..]);
    RemoveSpacesLowerAll(SpacedTail(tail));
    RemoveSpacesSpacedTail(tail);
    assert forall c :: c in tail ==> c in name;
    NoSpaces(tail);
  }

  /** Every space in `r` stands right before an upper-case letter. */
  predicate SpaceBeforeUpper(r: string)
  {
    forall k :: 0 <= k < |r| && r[k] == ' ' ==> k + 1 < |r| && IsUpper(r[k + 1])
  }

  /** Every upper-case letter in `r` stands right after a space. */
  predicate UpperAfterSpace(r: string)
  {
    forall k :: 0 <= k < |r| && IsUpper(r[k]) ==> 0 < k && r[k - 1] == ' '
  }

  /** One step of SpacedTail keeps both placement properties. */
  lemma SpacedHead(c: char, rest: string)
    requires c != ' ' && SpaceBeforeUpper(rest) && UpperAfterSpace(rest)
    ensures var head := if IsUpper(c) then [' ', c] else [c];
      SpaceBeforeUpper(head + rest) && UpperAfterSpace(head + rest)
  {
    var head := if IsUpper(c) then [' ', c] else [c];
    var r := head + rest;
    var n := |head|;
    assert forall k :: n <= k < |r| ==> r[k] == rest[k - n];
    forall k | 0 <= k < |r| && r[k] == ' '
      ensures k + 1 < |r| && IsUpper(r[k + 1])
    {
      if k >= n {
        assert rest[k - n] == ' ';
      }
    }
    forall k | 0 <= k < |r| && IsUpper(r[k])
      ensures 0 < k && r[k - 1] == ' '
    {
      if k >= n {
        assert IsUpper(rest[k - n]);
      }
    }
  }

  /** In `SpacedTail` of a text without spaces, every space comes right before an upper-case
      letter, and every upper-case letter right after a space. */
  lemma {:induction false} SpacedTailSpaces(s: string)
    requires ' ' !in s
    ensures SpaceBeforeUpper(SpacedTail(s)) && UpperAfterSpace(SpacedTail(s))
  {
    if s != [] {
      assert s[0] in s;
      assert forall c :: c in s[1..] ==> c in s;
      SpacedTailSpaces(s[1..]);
      SpacedHead(s[0], SpacedTail(s[1..]));
    }
  }

  /** Where the spaces go: a space of the uppercase-spaced name stands right before an
      upper-case letter and never first, and each upper-case letter after the first position
      has a space right before it. */
  lemma SpacedSpaces(name: string)
    requires name != [] && ' ' !in name
    ensures forall k :: 0 <= k < |Spaced(name)| && Spaced(name)[k] == ' ' ==>
      0 < k < |Spaced(name)| - 1 && IsUpper(Spaced(name)[k + 1])
    ensures forall k :: 1 <= k < |Spaced(name)| && IsUpper(Spaced(name)[k]) ==> Spaced(name)[k - 1] == ' '
  {
    assert name[0] in name;
    assert forall c :: c in name[1..] ==> c in name;
    SpacedTailSpaces(name[1..]);
    FirstThenTail(name[0], SpacedTail(name[1..]));
  }

  /** A first character other than a space, before a text with both placement properties. */
  lemma FirstThenTail(c: char, tail: string)
    requires c != ' ' && SpaceBeforeUpper(tail) && UpperAfterSpace(tail)
    ensures forall k :: 0 <= k < |[c] + tail| && ([c] + tail)[k] == ' ' ==>
      0 < k < |[c] + tail| - 1 && IsUpper(([c] + tail)[k + 1])
    ensures forall k :: 1 <= k < |[c] + tail| && IsUpper(([c] + tail)[k]) ==> ([c] + tail)[k - 1] == ' '
  {
    var s := [c] + tail;
    assert forall k :: 1 <= k < |s| ==> s[k] == tail[k - 1];
    forall k | 0 <= k < |s| && s[k] == ' '
      ensures 0 < k < |s| - 1 && IsUpper(s[k + 1])
    {
      assert tail[k - 1] == ' ';
    }
    forall k | 1 <= k < |s| && IsUpper(s[k])
      ensures s[k - 1] == ' '
    {
      assert IsUpper(tail[k - 1]);
    }
  }

  /** The tool tip has its spaces at exactly the positions of the spaced name's, so the
      placement SpacedSpaces states carries over to it. */
  lemma ToolTipSpaces(name: string)
    requires name != [] && ' ' !in name
    ensures |ToolTip(name).value| == |Spaced(name)|
    ensures forall k :: 0 <= k < |Spaced(name)| ==> (ToolTip(name).value[k] == ' ' <==> Spaced(name)[k] == ' ')
  {
    assert name[0] in name;
  }

  /** `domXml`. */
  function DomXml(name: string): string
  {
    "<widget class=\"" + name + "\" name=\"" + name + "\"></widget>"
  }

  /** Different names give different XML, and the name can be read back after the opening
      `<widget class="`. */
  lemma DomXmlInjective(a: string, b: string)
    requires DomXml(a) == DomXml(b)
    ensures a == b
  {
    var open := "<widget class=\"";
    assert |DomXml(a)| == 2 * |a| + 34;
    assert |a| == |b|;
    assert DomXml(a)[|open|..|open| + |a|] == a;
    assert DomXml(b)[|open|..|open| + |b|] == b;
  }

  /** `icon(name)`: the resource path of a widget's image. */
  function IconPath(name: string): string
  {
    ":/qfluentexpand/images/controls/" + name + ".png"
  }

  /** Initialisation state: the flag, the factory made (a number for the object) and the
      factories registered with the editor's extension manager, in order. */
  datatype InitState = InitState(initialized: bool, factory: Option<nat>, registered: seq<nat>)

  /** `initialize`: only the first call does anything; it sets the flag and, when the plugin
      has a factory class, makes the factory `made` and registers it. */
  function Initialized(s: InitState, hasFactory: bool, made: nat): InitState
  {
    if s.initialized then s
    else if !hasFactory then s.(initialized := true)
    else InitState(true, Some(made), s.registered + [made])
  }

  /** After any call the plugin is initialised; a second call changes nothing, whatever
      factory it would make; and without a factory class none is made or registered. */
  lemma InitializeOnce(s: InitState, hasFactory: bool, made: nat, again: nat)
    ensures Initialized(s, hasFactory, made).initialized
    ensures Initialized(Initialized(s, hasFactory, made), hasFactory, again) == Initialized(s, hasFactory, made)
    ensures !hasFactory ==>
      Initialized(s, hasFactory, made).factory == s.factory &&
      Initialized(s, hasFactory, made).registered == s.registered
    ensures !s.initialized && hasFactory ==>
      Initialized(s, hasFactory, made).factory == Some(made) &&
      Initialized(s, hasFactory, made).registered == s.registered + [made]
  {
  }

  class PluginBase {
    /** `name()`, which every concrete plugin overrides. */
    var name: string
    /** Whether the class attribute `Factory` is set. */
    var hasFactory: bool
    var initialized: bool
    var factory: Option<nat>
    /** Registrations made with the extension manager. */
    var registered: seq<nat>

    function State(): InitState
      reads this
    {
      InitState(initialized, factory, registered)
    }

    constructor (name: string, hasFactory: bool)
      ensures this.name == name && this.hasFactory == hasFactory
      ensures !initialized && factory == None && registered == []
    {
      this.name := name;
      this.hasFactory := hasFactory;
      initialized := false;
      factory := None;
      registered := [];
    }

    /** The base class itself, whose `name()` is its own class name. */
    constructor Base(hasFactory: bool)
      ensures name == BaseName && this.hasFactory == hasFactory
      ensures !initialized && factory == None && registered == []
    {
      name := BaseName;
      this.hasFactory := hasFactory;
      initialized := false;
      factory := None;
      registered := [];
    }

    /** `initialize(editor)`; `made` is the factory object the factory class would build. */
    method Initialize(made: nat)
      modifies this`initialized, this`factory, this`registered
      ensures State() == Initialized(old(State()), hasFactory, made)
    {
      if initialized {
        return;
      }
      initialized := true;
      if !hasFactory {
        return;
      }
      factory := Some(made);
      registered := registered + [made];
    }

    method IsInitialized() returns (r: bool)
      ensures r == initialized
    {
      r := initialized;
    }

    /** `group()`: every plugin of the library is listed under the same designer group. */
    method GroupName() returns (r: string)
      ensures r == Group
    {
      r := Group;
    }

    /** `includeFile()`: the package the designer imports the widget from. */
    method IncludeFileName() returns (r: string)
      ensures r == IncludeFile
    {
      r := IncludeFile;
    }

    /** `isContainer()`: no plugin's widget holds child widgets in the designer. */
    method IsContainer() returns (r: bool)
      ensures !r
    {
      r := false;
    }
  }
}
