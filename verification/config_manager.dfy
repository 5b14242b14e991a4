/**
 * The settings file fin.ini: SaveConfig writes one `key=value` line per
 * setting, and LoadConfig reads the lines back with std::getline, starting
 * from the defaults.  The file's text is a value here (`None` when the
 * file cannot be opened).  The float `zoom` is a `real`, and how operator<<
 * prints it and how std::stof reads it back are parameters.
 */
module ConfigManager {
  import opened Strings

  datatype AppConfig = AppConfig(
    lastDirectory: string,
    zoom: real,
    windowWidth: Int32,
    windowHeight: Int32,
    openFiles: seq<string>,
    activeTabIndex: Int32,
    theme: Int32,
    autocompleteEnabled: bool,
    autoClosingBrackets: bool,
    smartIndentEnabled: bool,
    showSettingsWindow: bool)

  /** A default-constructed AppConfig: the member initialisers. */
  function Defaults(): AppConfig {
    AppConfig("", 1.0, 1280, 720, [], -1, 0, true, true, true, false)
  }

  /** What LoadConfig starts from before it reads the file. */
  function Initial(): AppConfig {
    Defaults().(lastDirectory := ".", activeTabIndex := -1)
  }

  /** The settings a line of fin.ini can name. */
  datatype Key = Dir | Zoom | Width | Height | ActiveTab | Theme | Ac | Brackets | Indent | File

  function KeyName(k: Key): string {
    match k
    case Dir => "dir"
    case Zoom => "zoom"
    case Width => "width"
    case Height => "height"
    case ActiveTab => "activeTab"
    case Theme => "theme"
    case Ac => "ac"
    case Brackets => "brackets"
    case Indent => "indent"
    case File => "file"
  }

  /** The keys LoadConfig knows; a line with any other key is skipped. */
  ghost const Keys: set<string> := set k: Key :: KeyName(k)

  /** Each key's setting; the names differ, so the table answers as LoadConfig's chain of comparisons does. */
  const KeyTable: map<string, Key> := map["dir" := Dir, "zoom" := Zoom, "width" := Width, "height" := Height,
    "activeTab" := ActiveTab, "theme" := Theme, "ac" := Ac, "brackets" := Brackets, "indent" := Indent, "file" := File]

  /** A `key=value` line. */
  function Line(k: Key, value: string): string {
    KeyName(k) + "=" + value
  }

  // ---------------------------------------------------------------------
  // Saving

  function BoolText(b: bool): (r: string)
    ensures r == "1" <==> b
  {
    if b then "1" else "0"
  }

  /** The paths SaveConfig writes: the non-empty ones, in their order. */
  function NonEmpty(paths: seq<string>): (r: seq<string>)
    ensures |r| <= |paths|
    ensures forall i :: 0 <= i < |r| ==> r[i] != [] && r[i] in paths
    ensures forall p :: p in paths && p != [] ==> p in r
    ensures multiset(r) == multiset(paths)[[] := 0]
    decreases |paths|
  {
    if paths == [] then []
    else
      assert paths == [paths[0]] + paths[1..];
      if paths[0] == [] then NonEmpty(paths[1..])
      else [paths[0]] + NonEmpty(paths[1..])
  }

  /**
   * The paths are filtered one by one, each kept exactly when it is
   * non-empty: order and repetitions are kept.
   */
  lemma {:induction false} NonEmptyAppend(a: seq<string>, b: seq<string>)
    ensures NonEmpty(a + b) == NonEmpty(a) + NonEmpty(b)
    ensures forall p :: NonEmpty([p]) == if p == [] then [] else [p]
    decreases |a|
  {
    forall p: string
      ensures NonEmpty([p]) == if p == [] then [] else [p]
    {
      assert [p][1..] == [];
    }
    if a != [] {
      assert (a + b)[0] == a[0];
      assert (a + b)[1..] == a[1..] + b;
      NonEmptyAppend(a[1..], b);
    } else {
      assert a + b == b;
    }
  }

  /** Without empty paths, every path is written, in order. */
  lemma {:induction false} NonEmptyKeepsAll(paths: seq<string>)
    requires forall i :: 0 <= i < |paths| ==> paths[i] != []
    ensures NonEmpty(paths) == paths
    decreases |paths|
  {
    if paths != [] {
      NonEmptyKeepsAll(paths[1..]);
      assert paths == [paths[0]] + paths[1..];
    }
  }

  function FileLines(paths: seq<string>): seq<string> {
    seq(|paths|, i requires 0 <= i < |paths| => Line(File, paths[i]))
  }

  /** The lines SaveConfig writes, in order; each goes out followed by "\n". */
  function SaveConfig(config: AppConfig, showZoom: real -> string): (r: seq<string>)
    ensures |r| == 9 + |NonEmpty(config.openFiles)|
  {
    ScalarLines(config, showZoom) + FileLines(NonEmpty(config.openFiles))
  }

  function ScalarLines(config: AppConfig, showZoom: real -> string): seq<string> {
    [Line(Dir, config.lastDirectory),
     Line(Zoom, showZoom(config.zoom)),
     Line(Width, IntToString(config.windowWidth)),
     Line(Height, IntToString(config.windowHeight)),
     Line(ActiveTab, IntToString(config.activeTabIndex)),
     Line(Theme, IntToString(config.theme)),
     Line(Ac, BoolText(config.autocompleteEnabled)),
     Line(Brackets, BoolText(config.autoClosingBrackets)),
     Line(Indent, BoolText(config.smartIndentEnabled))]
  }

  /** The text of fin.ini after SaveConfig. */
  function SavedText(config: AppConfig, showZoom: real -> string): string {
    Terminated(SaveConfig(config, showZoom))
  }

  // ---------------------------------------------------------------------
  // Loading

  /** The setting `key` names, if any: the one whose name it is. */
  function KeyOf(key: string): (r: Option<Key>)
    ensures r.Some? ==> KeyName(r.value) == key
    ensures r.None? <==> key !in Keys
  {
    if key in KeyTable then Some(KeyTable[key]) else None
  }

  /**
   * One setting read: `value` stored in the setting `k`.  `None` is the
   * exception std::stoi or std::stof throws on a value that is not a
   * number, which nothing catches.  A switch is on exactly when its value
   * is "1", and a path is appended to the open files.
   */
  function Set(c: AppConfig, k: Key, value: string, stof: string -> Option<real>): (r: Option<AppConfig>)
    ensures k in {Width, Height, ActiveTab, Theme} ==> (r.None? <==> Stoi(value).None?)
    ensures k == Zoom ==> (r.None? <==> stof(value).None?)
    ensures k in {Dir, Ac, Brackets, Indent, File} ==> r.Some?
    ensures k == Ac ==> r.Some? && (r.value.autocompleteEnabled <==> value == "1")
    ensures k == Brackets ==> r.Some? && (r.value.autoClosingBrackets <==> value == "1")
    ensures k == Indent ==> r.Some? && (r.value.smartIndentEnabled <==> value == "1")
    ensures k == File ==> r.Some? && r.value.openFiles == c.openFiles + [value]
  {
    match k
    case Dir => Some(c.(lastDirectory := value))
    case Zoom => (match stof(value) case None => None case Some(z) => Some(c.(zoom := z)))
    case Width => (match Stoi(value) case None => None case Some(n) => Some(c.(windowWidth := n)))
    case Height => (match Stoi(value) case None => None case Some(n) => Some(c.(windowHeight := n)))
    case ActiveTab => (match Stoi(value) case None => None case Some(n) => Some(c.(activeTabIndex := n)))
    case Theme => (match Stoi(value) case None => None case Some(n) => Some(c.(theme := n)))
    case Ac => Some(c.(autocompleteEnabled := value == "1"))
    case Brackets => Some(c.(autoClosingBrackets := value == "1"))
    case Indent => Some(c.(smartIndentEnabled := value == "1"))
    case File => Some(c.(openFiles := c.openFiles + [value]))
  }

  /** One line read: split at its first '='; a line without one is skipped. */
  function ApplyLine(c: AppConfig, line: string, stof: string -> Option<real>): (r: Option<AppConfig>)
    ensures '=' !in line ==> r == Some(c)
  {
    match IndexOfChar(line, '=', 0)
    case None => Some(c)
    case Some(sep) =>
      match KeyOf(line[..sep])
      case None => Some(c)
      case Some(k) => Set(c, k, line[sep + 1..], stof)
  }

  /** The lines read in order, each on the settings the ones before it left. */
  function ApplyLines(c: AppConfig, lines: seq<string>, stof: string -> Option<real>): Option<AppConfig>
    decreases |lines|, 1
  {
    if lines == [] then Some(c) else ApplyRest(ApplyLine(c, lines[0], stof), lines[1..], stof)
  }

  /** The remaining lines read after one line, unless reading it threw. */
  function ApplyRest(r: Option<AppConfig>, lines: seq<string>, stof: string -> Option<real>): Option<AppConfig>
    decreases |lines| + 1, 0
  {
    match r
    case None => None
    case Some(d) => ApplyLines(d, lines, stof)
  }

  /** What LoadConfig returns for the file's text, or `None` for an exception. */
  function Load(file: Option<string>, stof: string -> Option<real>): (r: Option<AppConfig>)
    ensures file == None || file == Some("") ==> r == Some(Initial())
  {
    match file
    case None => Some(Initial())
    case Some(text) => ApplyLines(Initial(), GetLines(text), stof)
  }

  /** LoadConfig: the getline loop over the file's text. */
  method LoadConfig(file: Option<string>, stof: string -> Option<real>) returns (r: Option<AppConfig>)
    ensures r == Load(file, stof)
  {
    var config := Initial();
    if file.None? {
      return Some(config);
    }
    var rest := file.value;
    while rest != []
      invariant Load(file, stof) == ApplyLines(config, GetLines(rest), stof)
      decreases |rest|
    {
      var line: string;
      ghost var before := rest;
      match IndexOfChar(rest, '\n', 0) {
        case None =>
          line := rest;
          rest := [];
        case Some(i) =>
          line := rest[..i];
          rest := rest[i + 1..];
      }
      assert GetLines(before) == [line] + GetLines(rest);
      ApplyLinesStep(config, line, GetLines(rest), stof);
      var next := ApplyLine(config, line, stof);
      if next.None? {
        return None;
      }
      config := next.value;
    }
    r := Some(config);
  }

  // ---------------------------------------------------------------------
  // Properties

  lemma {:induction false} ApplyLinesStep(c: AppConfig, line: string, lines: seq<string>, stof: string -> Option<real>)
    ensures ApplyLines(c, [line] + lines, stof) ==
      match ApplyLine(c, line, stof)
      case None => None
      case Some(d) => ApplyLines(d, lines, stof)
  {
    assert ([line] + lines)[0] == line && ([line] + lines)[1..] == lines;
  }

  /** Reading `a` and then `b` is reading `a + b`. */
  lemma {:induction false} ApplyLinesAppend(c: AppConfig, a: seq<string>, b: seq<string>, stof: string -> Option<real>)
    ensures ApplyLines(c, a + b, stof) ==
      match ApplyLines(c, a, stof)
      case None => None
      case Some(d) => ApplyLines(d, b, stof)
    decreases |a|
  {
    if a == [] {
      assert a + b == b;
    } else {
      assert a + b == [a[0]] + (a[1..] + b);
      ApplyLinesStep(c, a[0], a[1..] + b, stof);
      assert a == [a[0]] + a[1..];
      ApplyLinesStep(c, a[0], a[1..], stof);
      match ApplyLine(c, a[0], stof)
      case None =>
      case Some(d) => ApplyLinesAppend(d, a[1..], b, stof);
    }
  }

  /**
   * A line is split at its first '=': the key is what comes before it, and
   * the value is everything after it, further '=' included; a key LoadConfig
   * does not know leaves the settings as they were.
   */
  lemma {:induction false} KeyValueLine(c: AppConfig, key: string, value: string, stof: string -> Option<real>)
    requires '=' !in key
    ensures ApplyLine(c, key + "=" + value, stof) ==
      match KeyOf(key)
      case None => Some(c)
      case Some(k) => Set(c, k, value, stof)
  {
    var line := key + "=" + value;
    assert line[|key|] == '=';
    assert forall j :: 0 <= j < |key| ==> line[j] == key[j];
    assert IndexOfChar(line, '=', 0) == Some(|key|);
    assert line[..|key|] == key && line[|key| + 1..] == value;
  }

  /** Every key names its own setting and holds no '='. */
  lemma {:induction false} KeyOfName(k: Key)
    ensures KeyOf(KeyName(k)) == Some(k) && '=' !in KeyName(k)
  {
    match k
    case Dir =>
    case Zoom =>
    case Width =>
    case Height =>
    case ActiveTab =>
    case Theme =>
    case Ac =>
    case Brackets =>
    case Indent =>
    case File =>
  }

  /** A line written for setting `k` is read back into setting `k`. */
  lemma {:induction false} LineBack(c: AppConfig, k: Key, value: string, stof: string -> Option<real>)
    ensures ApplyLine(c, Line(k, value), stof) == Set(c, k, value, stof)
  {
    KeyOfName(k);
    KeyValueLine(c, KeyName(k), value, stof);
  }

  /**
   * For every setting but the open files the last line wins: a second line
   * for the same setting gives what that line alone would have given.
   */
  lemma {:induction false} LastValueWins(c: AppConfig, k: Key, v1: string, v2: string, stof: string -> Option<real>)
    requires k != File
    requires ApplyLine(c, Line(k, v1), stof).Some?
    ensures ApplyLines(c, [Line(k, v1), Line(k, v2)], stof) == ApplyLines(c, [Line(k, v2)], stof)
  {
    var d := ApplyLine(c, Line(k, v1), stof).value;
    LineBack(c, k, v1, stof);
    LineBack(d, k, v2, stof);
    LineBack(c, k, v2, stof);
    ApplyLinesStep(c, Line(k, v1), [Line(k, v2)], stof);
    ApplyLinesStep(d, Line(k, v2), [], stof);
    ApplyLinesStep(c, Line(k, v2), [], stof);
  }

  /** Every "file=" line appends its path, in the order of the lines. */
  lemma {:induction false} FilesAppend(c: AppConfig, paths: seq<string>, stof: string -> Option<real>)
    ensures ApplyLines(c, FileLines(paths), stof) == Some(c.(openFiles := c.openFiles + paths))
    decreases |paths|
  {
    if paths == [] {
      assert c.openFiles + paths == c.openFiles;
    } else {
      var d := c.(openFiles := c.openFiles + [paths[0]]);
      FileLinesCons(paths);
      LineBack(c, File, paths[0], stof);
      ReadFirst(c, FileLines(paths), d, stof);
      FilesAppend(d, paths[1..], stof);
      assert d.openFiles + paths[1..] == c.openFiles + paths;
    }
  }

  lemma {:induction false} FileLinesCons(paths: seq<string>)
    requires paths != []
    ensures FileLines(paths)[0] == Line(File, paths[0]) && FileLines(paths)[1..] == FileLines(paths[1..])
  {
  }

  /** The first line read into `d` leaves the others to be read from `d`. */
  lemma {:induction false} ReadFirst(c: AppConfig, lines: seq<string>, d: AppConfig, stof: string -> Option<real>)
    requires lines != [] && ApplyLine(c, lines[0], stof) == Some(d)
    ensures ApplyLines(c, lines, stof) == ApplyLines(d, lines[1..], stof)
  {
  }

  /** A line read into `d` leaves the lines after it to be read from `d`. */
  lemma {:induction false} ReadAt(c: AppConfig, lines: seq<string>, i: nat, d: AppConfig, stof: string -> Option<real>)
    requires i < |lines| && ApplyLine(c, lines[i], stof) == Some(d)
    ensures ApplyLines(c, lines[i..], stof) == ApplyLines(d, lines[i + 1..], stof)
  {
    assert lines[i..][0] == lines[i] && lines[i..][1..] == lines[i + 1..];
  }

  /** Four lines each of which turns one configuration into the next read the first into the last. */
  lemma {:induction false} ReadFour(lines: seq<string>, i: nat, a: AppConfig, b: AppConfig, c: AppConfig,
      d: AppConfig, e: AppConfig, stof: string -> Option<real>)
    requires i + 4 <= |lines|
    requires ApplyLine(a, lines[i], stof) == Some(b) && ApplyLine(b, lines[i + 1], stof) == Some(c)
    requires ApplyLine(c, lines[i + 2], stof) == Some(d) && ApplyLine(d, lines[i + 3], stof) == Some(e)
    ensures ApplyLines(a, lines[i..], stof) == ApplyLines(e, lines[i + 4..], stof)
  {
    ReadAt(a, lines, i, b, stof);
    ReadAt(b, lines, i + 1, c, stof);
    ReadAt(c, lines, i + 2, d, stof);
    ReadAt(d, lines, i + 3, e, stof);
  }

  /** Each scalar line SaveConfig writes reads back into its own setting. */
  lemma {:induction false} ScalarsRoundTrip(config: AppConfig, showZoom: real -> string, stof: string -> Option<real>)
    requires stof(showZoom(config.zoom)).Some?
    ensures ApplyLines(Initial(), ScalarLines(config, showZoom), stof) ==
      Some(Initial().(lastDirectory := config.lastDirectory, zoom := stof(showZoom(config.zoom)).value,
        windowWidth := config.windowWidth, windowHeight := config.windowHeight,
        activeTabIndex := config.activeTabIndex, theme := config.theme,
        autocompleteEnabled := config.autocompleteEnabled, autoClosingBrackets := config.autoClosingBrackets,
        smartIndentEnabled := config.smartIndentEnabled))
  {
    var lines := ScalarLines(config, showZoom);
    var c0 := Initial();
    var c1 := c0.(lastDirectory := config.lastDirectory);
    var c2 := c1.(zoom := stof(showZoom(config.zoom)).value);
    var c3 := c2.(windowWidth := config.windowWidth);
    var c4 := c3.(windowHeight := config.windowHeight);
    var c5 := c4.(activeTabIndex := config.activeTabIndex);
    var c6 := c5.(theme := config.theme);
    var c7 := c6.(autocompleteEnabled := config.autocompleteEnabled);
    var c8 := c7.(autoClosingBrackets := config.autoClosingBrackets);
    var c9 := c8.(smartIndentEnabled := config.smartIndentEnabled);
    ReadScalars(config, showZoom, stof, c0, c1, c2, c3, c4, c5, c6, c7, c8, c9);
    ReadFour(lines, 0, c0, c1, c2, c3, c4, stof);
    ReadFour(lines, 4, c4, c5, c6, c7, c8, stof);
    ReadAt(c8, lines, 8, c9, stof);
    assert lines[0..] == lines && lines[9..] == [];
  }

  /** Line by line: each scalar line turns one setting into the saved value. */
  lemma {:induction false} ReadScalars(config: AppConfig, showZoom: real -> string, stof: string -> Option<real>,
      c0: AppConfig, c1: AppConfig, c2: AppConfig, c3: AppConfig, c4: AppConfig,
      c5: AppConfig, c6: AppConfig, c7: AppConfig, c8: AppConfig, c9: AppConfig)
    requires stof(showZoom(config.zoom)).Some?
    requires c1 == c0.(lastDirectory := config.lastDirectory)
    requires c2 == c1.(zoom := stof(showZoom(config.zoom)).value)
    requires c3 == c2.(windowWidth := config.windowWidth)
    requires c4 == c3.(windowHeight := config.windowHeight)
    requires c5 == c4.(activeTabIndex := config.activeTabIndex)
    requires c6 == c5.(theme := config.theme)
    requires c7 == c6.(autocompleteEnabled := config.autocompleteEnabled)
    requires c8 == c7.(autoClosingBrackets := config.autoClosingBrackets)
    requires c9 == c8.(smartIndentEnabled := config.smartIndentEnabled)
    ensures var lines := ScalarLines(config, showZoom);
      ApplyLine(c0, lines[0], stof) == Some(c1) && ApplyLine(c1, lines[1], stof) == Some(c2) &&
      ApplyLine(c2, lines[2], stof) == Some(c3) && ApplyLine(c3, lines[3], stof) == Some(c4) &&
      ApplyLine(c4, lines[4], stof) == Some(c5) && ApplyLine(c5, lines[5], stof) == Some(c6) &&
      ApplyLine(c6, lines[6], stof) == Some(c7) && ApplyLine(c7, lines[7], stof) == Some(c8) &&
      ApplyLine(c8, lines[8], stof) == Some(c9)
  {
    ReadDir(c0, config.lastDirectory, stof);
    ReadZoom(c1, showZoom(config.zoom), stof);
    ReadInt(c2, Width, config.windowWidth, stof);
    ReadInt(c3, Height, config.windowHeight, stof);
    ReadInt(c4, ActiveTab, config.activeTabIndex, stof);
    ReadInt(c5, Theme, config.theme, stof);
    ReadBool(c6, Ac, config.autocompleteEnabled, stof);
    ReadBool(c7, Brackets, config.autoClosingBrackets, stof);
    ReadBool(c8, Indent, config.smartIndentEnabled, stof);
  }

  lemma {:induction false} ReadDir(c: AppConfig, value: string, stof: string -> Option<real>)
    ensures ApplyLine(c, Line(Dir, value), stof) == Some(c.(lastDirectory := value))
  {
    LineBack(c, Dir, value, stof);
  }

  lemma {:induction false} ReadZoom(c: AppConfig, value: string, stof: string -> Option<real>)
    requires stof(value).Some?
    ensures ApplyLine(c, Line(Zoom, value), stof) == Some(c.(zoom := stof(value).value))
  {
    LineBack(c, Zoom, value, stof);
  }

  /** A number IntToString printed reads back as that number. */
  lemma {:induction false} ReadInt(c: AppConfig, k: Key, n: Int32, stof: string -> Option<real>)
    requires k in {Width, Height, ActiveTab, Theme}
    ensures ApplyLine(c, Line(k, IntToString(n)), stof) == Some(
      match k
      case Width => c.(windowWidth := n)
      case Height => c.(windowHeight := n)
      case ActiveTab => c.(activeTabIndex := n)
      case _ => c.(theme := n))
  {
    StoiOfIntToString(n);
    LineBack(c, k, IntToString(n), stof);
  }

  /** A switch BoolText printed reads back as the same switch. */
  lemma {:induction false} ReadBool(c: AppConfig, k: Key, b: bool, stof: string -> Option<real>)
    requires k in {Ac, Brackets, Indent}
    ensures ApplyLine(c, Line(k, BoolText(b)), stof) == Some(
      match k
      case Ac => c.(autocompleteEnabled := b)
      case Brackets => c.(autoClosingBrackets := b)
      case _ => c.(smartIndentEnabled := b))
  {
    LineBack(c, k, BoolText(b), stof);
  }

  /**
   * Loading what SaveConfig wrote gives the settings back, as long as no
   * string holds a newline: the open files without the empty paths, the
   * zoom as std::stof reads its printed form, and the settings window
   * closed, since it is not saved.
   */
  lemma {:induction false} SaveLoadRoundTrip(config: AppConfig, showZoom: real -> string, stof: string -> Option<real>)
    requires '\n' !in config.lastDirectory && '\n' !in showZoom(config.zoom)
    requires forall i :: 0 <= i < |config.openFiles| ==> '\n' !in config.openFiles[i]
    requires stof(showZoom(config.zoom)).Some?
    ensures Load(Some(SavedText(config, showZoom)), stof) ==
      Some(config.(zoom := stof(showZoom(config.zoom)).value, openFiles := NonEmpty(config.openFiles),
        showSettingsWindow := false))
  {
    var scalars := ScalarLines(config, showZoom);
    var paths := NonEmpty(config.openFiles);
    var lines := SaveConfig(config, showZoom);
    NoNewlineInSaved(config, showZoom);
    GetLinesOfTerminated(lines);
    ApplyLinesAppend(Initial(), scalars, FileLines(paths), stof);
    ScalarsRoundTrip(config, showZoom, stof);
    var c9 := ApplyLines(Initial(), scalars, stof).value;
    FilesAppend(c9, paths, stof);
    assert [] + paths == paths;
  }

  /** No line SaveConfig writes holds a newline when no saved string does. */
  lemma {:induction false} NoNewlineInSaved(config: AppConfig, showZoom: real -> string)
    requires '\n' !in config.lastDirectory && '\n' !in showZoom(config.zoom)
    requires forall i :: 0 <= i < |config.openFiles| ==> '\n' !in config.openFiles[i]
    ensures var lines := SaveConfig(config, showZoom);
      forall i :: 0 <= i < |lines| ==> '\n' !in lines[i]
  {
    var lines := SaveConfig(config, showZoom);
    var paths := NonEmpty(config.openFiles);
    NoNewlineInScalars(config, showZoom);
    forall i | 9 <= i < |lines| ensures '\n' !in lines[i] {
      var p := paths[i - 9];
      assert p in config.openFiles;
      NoNewlineInLine(File, p);
      assert lines[i] == Line(File, p);
    }
  }

  lemma {:induction false} NoNewlineInScalars(config: AppConfig, showZoom: real -> string)
    requires '\n' !in config.lastDirectory && '\n' !in showZoom(config.zoom)
    ensures var lines := ScalarLines(config, showZoom);
      forall i :: 0 <= i < 9 ==> '\n' !in lines[i]
  {
    NoNewlineInNumber(config.windowWidth);
    NoNewlineInNumber(config.windowHeight);
    NoNewlineInNumber(config.activeTabIndex);
    NoNewlineInNumber(config.theme);
    NoNewlineInLine(Dir, config.lastDirectory);
    NoNewlineInLine(Zoom, showZoom(config.zoom));
    NoNewlineInLine(Width, IntToString(config.windowWidth));
    NoNewlineInLine(Height, IntToString(config.windowHeight));
    NoNewlineInLine(ActiveTab, IntToString(config.activeTabIndex));
    NoNewlineInLine(Theme, IntToString(config.theme));
    NoNewlineInLine(Ac, BoolText(config.autocompleteEnabled));
    NoNewlineInLine(Brackets, BoolText(config.autoClosingBrackets));
    NoNewlineInLine(Indent, BoolText(config.smartIndentEnabled));
  }

  lemma {:induction false} NoNewlineInLine(k: Key, value: string)
    requires '\n' !in value
    ensures '\n' !in Line(k, value)
  {
    match k
    case Dir =>
    case Zoom =>
    case Width =>
    case Height =>
    case ActiveTab =>
    case Theme =>
    case Ac =>
    case Brackets =>
    case Indent =>
    case File =>
  }

  lemma {:induction false} NoNewlineInNumber(n: int)
    ensures '\n' !in IntToString(n)
  {
    var d := if n < 0 then NatToString(-n) else NatToString(n);
    assert forall j :: 0 <= j < |d| ==> IsDigit(d[j]);
    assert IntToString(n) == if n < 0 then "-" + d else d;
  }
}
