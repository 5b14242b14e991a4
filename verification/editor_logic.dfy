/**
 * The bracket auto-close and smart-indent logic that runs around the
 * rendering of an editor tab.  Before rendering, typed opening brackets and
 * quotes get their closing partner inserted after the cursor, and a
 * Backspace between such a fresh pair schedules the closer for deletion;
 * after rendering, the scheduled closer goes, and an Enter after a line
 * ending in `{` opens an indented block.  The file-level statics that carry
 * state from one frame to the next are the fields of `RenderStatics`.
 */
module EditorLogic {
  import opened Strings
  import opened TextEditorWidget
  import opened Autocomplete

  // ---------------------------------------------------------------------
  // Characters

  /** The closing partner that typing an opening character inserts, if any. */
  function Closer(c: char): (r: Option<char>)
    ensures r.Some? <==> c == '(' || c == '[' || c == '"' || c == '\''
    ensures r.Some? ==> IsClosing(r.value)
  {
    if c == '(' then Some(')')
    else if c == '[' then Some(']')
    else if c == '"' then Some('"')
    else if c == '\'' then Some('\'')
    else None
  }

  predicate IsClosing(c: char) {
    c == ')' || c == ']' || c == '"' || c == '\''
  }

  /** An opener directly followed by its own closer: "()", "[]", "\"\"" or "''". */
  predicate IsPair(left: char, right: char) {
    Closer(left) == Some(right)
  }

  /** A pair whose opener ends right before column `col` and whose closer starts there. */
  predicate PairAround(line: string, col: nat) {
    0 < col < |line| && IsPair(line[col - 1], line[col])
  }

  /** The characters `find_first_not_of` / `find_last_not_of` skip when looking for content. */
  predicate IsBlankChar(c: char) {
    c == ' ' || c == '\t' || c == '\r' || c == '\n'
  }

  predicate IsIndentChar(c: char) {
    c == ' ' || c == '\t'
  }

  /** The last character that is not blank. */
  function LastNotBlank(s: string): (r: Option<nat>)
    ensures r.Some? ==> r.value < |s| && !IsBlankChar(s[r.value]) &&
                        (forall j :: r.value < j < |s| ==> IsBlankChar(s[j]))
    ensures r.None? ==> forall j :: 0 <= j < |s| ==> IsBlankChar(s[j])
    decreases |s|
  {
    if s == [] then None
    else if !IsBlankChar(s[|s| - 1]) then Some(|s| - 1)
    else LastNotBlank(s[..|s| - 1])
  }

  /** The first character that is not blank. */
  function FirstNotBlank(s: string): (r: Option<nat>)
    ensures r.Some? ==> r.value < |s| && !IsBlankChar(s[r.value]) &&
                        (forall j :: 0 <= j < r.value ==> IsBlankChar(s[j]))
    ensures r.None? ==> forall j :: 0 <= j < |s| ==> IsBlankChar(s[j])
    decreases |s|
  {
    if s == [] then None
    else if !IsBlankChar(s[0]) then Some(0)
    else match FirstNotBlank(s[1..])
      case None => None
      case Some(k) => Some(k + 1)
  }

  /** The leading spaces and tabs of a line: the longest prefix made of them. */
  function Indent(s: string): (r: string)
    ensures |r| <= |s| && r == s[..|r|]
    ensures forall j :: 0 <= j < |r| ==> IsIndentChar(r[j])
    ensures |r| < |s| ==> !IsIndentChar(s[|r|])
    decreases |s|
  {
    if s != [] && IsIndentChar(s[0]) then [s[0]] + Indent(s[1..]) else []
  }

  /** A prefix of spaces and tabs followed by neither is the indent. */
  lemma {:induction false} IndentUnique(s: string, r: string)
    requires |r| <= |s| && r == s[..|r|]
    requires forall j :: 0 <= j < |r| ==> IsIndentChar(r[j])
    requires |r| < |s| ==> !IsIndentChar(s[|r|])
    ensures r == Indent(s)
    decreases |s|
  {
    if r != [] {
      assert IsIndentChar(s[0]);
      IndentUnique(s[1..], r[1..]);
    }
  }

  // ---------------------------------------------------------------------
  // The closers a run of typed characters leaves after the cursor

  /**
   * Every opener typed inserts its closer at the cursor, in front of the
   * closers of the earlier ones: the closers stand in reverse typing order.
   */
  function Closers(typed: seq<char>): string
    decreases |typed|
  {
    if typed == [] then []
    else
      var rest := Closers(typed[..|typed| - 1]);
      match Closer(typed[|typed| - 1])
      case Some(k) => [k] + rest
      case None => rest
  }

  /** Typing `p` and then `q` leaves the closers of `q` in front of those of `p`. */
  lemma {:induction false} ClosersAppend(p: seq<char>, q: seq<char>)
    ensures Closers(p + q) == Closers(q) + Closers(p)
    decreases |q|
  {
    if q == [] {
      assert p + q == p;
    } else {
      var q' := q[..|q| - 1];
      assert (p + q)[..|p + q| - 1] == p + q';
      assert (p + q)[|p + q| - 1] == q[|q| - 1];
      ClosersAppend(p, q');
    }
  }

  /** Only closing characters are inserted, one per opener typed, and none when no opener is typed. */
  lemma {:induction false} ClosersAreClosing(typed: seq<char>)
    ensures |Closers(typed)| <= |typed|
    ensures forall j :: 0 <= j < |Closers(typed)| ==> IsClosing(Closers(typed)[j])
    ensures Closers(typed) == [] <==> forall i :: 0 <= i < |typed| ==> Closer(typed[i]).None?
    decreases |typed|
  {
    if typed != [] {
      var init := typed[..|typed| - 1];
      ClosersAreClosing(init);
      assert forall i :: 0 <= i < |init| ==> typed[i] == init[i];
    }
  }

  /** The closers of one more typed character. */
  lemma {:induction false} ClosersStep(typed: seq<char>, n: nat)
    requires n < |typed|
    ensures Closers(typed[..n + 1]) ==
      match Closer(typed[n]) case Some(k) => [k] + Closers(typed[..n]) case None => Closers(typed[..n])
  {
    assert typed[..n + 1][..n] == typed[..n];
  }

  /** A closer typed in at column `col` of a line that already holds `c` there. */
  lemma {:induction false} CloserGoesFirst(line: string, col: nat, c: string, k: char)
    requires col <= |line|
    ensures var l := line[..col] + c + line[col..];
      l[..col] + [k] + l[col..] == line[..col] + ([k] + c) + line[col..]
  {
    var l := line[..col] + c + line[col..];
    assert l[..col] == line[..col];
    assert l[col..] == c + line[col..];
  }

  // ---------------------------------------------------------------------
  // The file-level statics

  class RenderStatics {
    var wasAutoClosed: bool
    var lastPos: Coord
    var shouldDeleteClosing: bool
    var deleteAtLine: int
    var deleteAtColumn: int

    constructor ()
      ensures !wasAutoClosed && lastPos == Coord(0, 0)
      ensures !shouldDeleteClosing && deleteAtLine == -1 && deleteAtColumn == -1
    {
      wasAutoClosed := false;
      lastPos := Coord(0, 0);
      shouldDeleteClosing := false;
      deleteAtLine := -1;
      deleteAtColumn := -1;
    }
  }

  /** The widget keeps the cursor column inside its line whenever the line exists. */
  predicate ColumnInLine(editor: TextEditor)
    reads editor
  {
    editor.cursor.line < |editor.lines| ==> editor.cursor.col <= |editor.lines[editor.cursor.line]|
  }

  // ---------------------------------------------------------------------
  // Before rendering

  /**
   * The bookkeeping block: the auto-close flag survives only while the
   * cursor stays where the closer was inserted, and any Backspace without a
   * selection ends it, scheduling the closer's deletion when the cursor
   * still sits inside the fresh pair.
   */
  method TrackBackspace(editor: TextEditor, g: RenderStatics, backspace: bool)
    requires editor.cursor.line < |editor.lines|
    modifies g`wasAutoClosed, g`shouldDeleteClosing, g`deleteAtLine, g`deleteAtColumn
    ensures var pos := editor.cursor;
      var stillThere := old(g.wasAutoClosed) && pos == g.lastPos;
      var backs := backspace && !editor.HasSelection();
      var schedule := backs && stillThere && PairAround(editor.lines[pos.line], pos.col);
      g.wasAutoClosed == (stillThere && !backs) &&
      g.shouldDeleteClosing == (old(g.shouldDeleteClosing) || schedule) &&
      (if schedule then g.deleteAtLine == pos.line && g.deleteAtColumn == pos.col - 1
       else g.deleteAtLine == old(g.deleteAtLine) && g.deleteAtColumn == old(g.deleteAtColumn))
  {
    var pos := editor.cursor;
    if g.wasAutoClosed {
      if pos.line != g.lastPos.line || pos.col != g.lastPos.col {
        g.wasAutoClosed := false;
      }
    }
    if backspace && !editor.HasSelection() {
      if g.wasAutoClosed {
        var line := editor.lines[pos.line];
        if pos.col > 0 && pos.col < |line| {
          var charLeft := line[pos.col - 1];
          var charRight := line[pos.col];
          var isPair := (charLeft == '(' && charRight == ')') ||
                        (charLeft == '[' && charRight == ']') ||
                        (charLeft == '"' && charRight == '"') ||
                        (charLeft == '\'' && charRight == '\'');
          if isPair {
            g.shouldDeleteClosing := true;
            g.deleteAtLine := pos.line;
            g.deleteAtColumn := pos.col - 1;
          }
        }
      }
      g.wasAutoClosed := false;
    }
  }

  /**
   * The auto-close loop over the characters typed this frame: each opener
   * gets its closer inserted at the cursor, which stays put, and marks the
   * place right behind that closer; any other character clears the flag.
   */
  method AutoCloseQueue(editor: TextEditor, g: RenderStatics, typed: seq<char>)
    requires editor.Valid() && editor.CursorInText()
    modifies editor`lines, editor`cursor, editor`selStart, editor`selEnd, g`wasAutoClosed, g`lastPos
    ensures editor.Valid() && editor.cursor == old(editor.cursor)
    ensures var pos := old(editor.cursor);
      var line := old(editor.lines)[pos.line];
      editor.lines == old(editor.lines)[pos.line := line[..pos.col] + Closers(typed) + line[pos.col..]]
    ensures g.wasAutoClosed == if typed == [] then old(g.wasAutoClosed) else Closer(typed[|typed| - 1]).Some?
    ensures var behind := Coord(old(editor.cursor).line, old(editor.cursor).col + 1);
      if Closers(typed) == [] then
        g.lastPos == old(g.lastPos) && editor.selStart == old(editor.selStart) && editor.selEnd == old(editor.selEnd)
      else g.lastPos == behind && editor.selStart == behind && editor.selEnd == behind
  {
    ghost var pos := editor.cursor;
    ghost var lines0 := editor.lines;
    ghost var line := lines0[pos.line];
    var n := 0;
    assert Closers(typed[..0]) == [] by { assert typed[..0] == []; }
    assert line[..pos.col] + [] + line[pos.col..] == line;
    assert lines0[pos.line := line] == lines0;
    while n < |typed|
      invariant 0 <= n <= |typed|
      invariant editor.Valid() && editor.cursor == pos
      invariant editor.lines == lines0[pos.line := line[..pos.col] + Closers(typed[..n]) + line[pos.col..]]
      invariant g.wasAutoClosed == if n == 0 then old(g.wasAutoClosed) else Closer(typed[n - 1]).Some?
      invariant if Closers(typed[..n]) == [] then
          g.lastPos == old(g.lastPos) && editor.selStart == old(editor.selStart) && editor.selEnd == old(editor.selEnd)
        else g.lastPos == Coord(pos.line, pos.col + 1) && editor.selStart == g.lastPos && editor.selEnd == g.lastPos
    {
      var c := typed[n];
      var closingChar := Closer(c);
      ClosersStep(typed, n);
      if closingChar.Some? {
        CloserGoesFirst(line, pos.col, Closers(typed[..n]), closingChar.value);
        InsertOnOneLine(editor.lines, editor.cursor, [closingChar.value]);
        editor.InsertText([closingChar.value]);
        var p := editor.cursor;
        if p.col > 0 {
          editor.SetCursorPosition(Coord(p.line, p.col - 1));
          g.wasAutoClosed := true;
          g.lastPos := p;
        }
      } else {
        g.wasAutoClosed := false;
      }
      n := n + 1;
    }
    assert typed[..n] == typed;
  }

  /**
   * HandlePreRenderLogic: nothing happens when the cursor is on no line;
   * otherwise the bookkeeping runs, and with auto-closing on, the closers of
   * the typed openers go in after the cursor.
   */
  method HandlePreRenderLogic(editor: TextEditor, g: RenderStatics, autoClosingBrackets: bool,
                              backspace: bool, typed: seq<char>)
    requires editor.Valid() && ColumnInLine(editor)
    modifies editor`lines, editor`cursor, editor`selStart, editor`selEnd, g
    ensures editor.Valid() && editor.cursor == old(editor.cursor)
    ensures old(editor.cursor.line) >= |old(editor.lines)| ==>
      editor.lines == old(editor.lines) && editor.selStart == old(editor.selStart) &&
      editor.selEnd == old(editor.selEnd) && unchanged(g)
    ensures old(editor.cursor.line) < |old(editor.lines)| ==>
      var pos := old(editor.cursor);
      var line := old(editor.lines)[pos.line];
      var stillThere := old(g.wasAutoClosed) && pos == old(g.lastPos);
      var backs := backspace && !old(editor.HasSelection());
      var schedule := backs && stillThere && PairAround(line, pos.col);
      var closing := if autoClosingBrackets then typed else [];
      editor.lines == old(editor.lines)[pos.line := line[..pos.col] + Closers(closing) + line[pos.col..]] &&
      g.shouldDeleteClosing == (old(g.shouldDeleteClosing) || schedule) &&
      (if schedule then g.deleteAtLine == pos.line && g.deleteAtColumn == pos.col - 1
       else g.deleteAtLine == old(g.deleteAtLine) && g.deleteAtColumn == old(g.deleteAtColumn)) &&
      g.wasAutoClosed == (if closing == [] then stillThere && !backs else Closer(closing[|closing| - 1]).Some?) &&
      g.lastPos == (if Closers(closing) == [] then old(g.lastPos) else Coord(pos.line, pos.col + 1)) &&
      if Closers(closing) == [] then
        editor.selStart == old(editor.selStart) && editor.selEnd == old(editor.selEnd)
      else
        editor.selStart == Coord(pos.line, pos.col + 1) && editor.selEnd == Coord(pos.line, pos.col + 1)
  {
    var pos := editor.cursor;
    if pos.line >= |editor.lines| {
      return;
    }
    ghost var line := editor.lines[pos.line];
    TrackBackspace(editor, g, backspace);
    if autoClosingBrackets && |typed| > 0 {
      AutoCloseQueue(editor, g, typed);
    } else {
      assert Closers([]) == [];
      assert line[..pos.col] + [] + line[pos.col..] == line;
      assert editor.lines[pos.line := line] == editor.lines;
    }
  }

  // ---------------------------------------------------------------------
  // After rendering

  /** The scheduled deletion happens when the cursor is at the scheduled place, in front of a closing character. */
  predicate DeletesCloser(lines: seq<string>, pos: Coord, scheduled: bool, atLine: int, atCol: int) {
    scheduled && pos.line == atLine && pos.col == atCol &&
    pos.line < |lines| && pos.col < |lines[pos.line]| && IsClosing(lines[pos.line][pos.col])
  }

  /** A line without its character at `col`. */
  function RemoveAt(line: string, col: nat): (r: string)
    requires col < |line|
    ensures |r| == |line| - 1
    ensures line == r[..col] + [line[col]] + r[col..]
  {
    var r := line[..col] + line[col + 1..];
    assert r[..col] == line[..col] && r[col..] == line[col + 1..];
    r
  }

  /** The deletion block: the flag is always cleared, and the closer after the cursor goes when the schedule still holds. */
  method DeleteScheduledCloser(editor: TextEditor, g: RenderStatics)
    requires editor.Valid()
    modifies editor`lines, editor`cursor, editor`selStart, editor`selEnd, g`shouldDeleteClosing
    ensures editor.Valid() && !g.shouldDeleteClosing && editor.cursor == old(editor.cursor)
    ensures var pos := old(editor.cursor);
      if DeletesCloser(old(editor.lines), pos, old(g.shouldDeleteClosing), g.deleteAtLine, g.deleteAtColumn) then
        editor.lines == old(editor.lines)[pos.line := RemoveAt(old(editor.lines)[pos.line], pos.col)] &&
        editor.selStart == pos && editor.selEnd == pos
      else
        editor.lines == old(editor.lines) && editor.selStart == old(editor.selStart) && editor.selEnd == old(editor.selEnd)
  {
    var pos := editor.cursor;
    if g.shouldDeleteClosing {
      g.shouldDeleteClosing := false;
      if pos.line == g.deleteAtLine && pos.col == g.deleteAtColumn {
        if pos.line < |editor.lines| {
          var line := editor.lines[pos.line];
          if pos.col < |line| {
            var c := line[pos.col];
            if c == ')' || c == ']' || c == '"' || c == '\'' {
              editor.SetSelection(Coord(pos.line, pos.col), Coord(pos.line, pos.col + 1));
              editor.Delete();
            }
          }
        }
      }
    }
  }

  /** Smart indent applies: enabled, below the first line, after a line ending in `{`, on a blank line. */
  predicate OpensBlock(lines: seq<string>, pos: Coord, smartIndent: Option<bool>) {
    smartIndent == Some(true) && 0 < pos.line < |lines| &&
    (var last := LastNotBlank(lines[pos.line - 1]); last.Some? && lines[pos.line - 1][last.value] == '{') &&
    FirstNotBlank(lines[pos.line]).None?
  }

  /** The block smart indent opens: the indented body line, then the closing brace on a line of its own. */
  function BlockText(indent: string): string {
    indent + "    " + "\n" + indent + "}"
  }

  /**
   * The Enter block: an Enter the popup consumed only clears that flag;
   * otherwise, when smart indent applies, the indented block goes in at the
   * cursor and the cursor goes to the end of the indented body line.
   */
  method SmartIndent(editor: TextEditor, ac: AutocompleteState?, enter: bool, smartIndent: Option<bool>)
    requires editor.Valid() && ColumnInLine(editor)
    modifies editor`lines, editor`cursor, editor`selStart, editor`selEnd, (if ac != null then {ac} else {})`justConsumedEnter
    ensures editor.Valid()
    ensures var pos := old(editor.cursor);
      var consumed := enter && ac != null && old(ac.justConsumedEnter);
      var fires := enter && !consumed && OpensBlock(old(editor.lines), pos, smartIndent);
      (ac != null ==> ac.justConsumedEnter == (old(ac.justConsumedEnter) && !consumed)) &&
      if fires then
        var indent := Indent(old(editor.lines)[pos.line - 1]);
        var cur := old(editor.lines)[pos.line];
        editor.lines == old(editor.lines)[..pos.line] +
          [cur[..pos.col] + indent + "    ", indent + "}" + cur[pos.col..]] + old(editor.lines)[pos.line + 1..] &&
        editor.cursor == Coord(pos.line, |indent| + 4) &&
        editor.selStart == Coord(pos.line + 1, |indent| + 1) && editor.selEnd == editor.selStart
      else
        editor.lines == old(editor.lines) && editor.cursor == pos &&
        editor.selStart == old(editor.selStart) && editor.selEnd == old(editor.selEnd)
  {
    var pos := editor.cursor;
    if enter {
      if ac != null && ac.justConsumedEnter {
        ac.justConsumedEnter := false;
        return;
      }
      if smartIndent.None? {
        return;
      }
      if !smartIndent.value {
        return;
      }
      if pos.line <= 0 || pos.line >= |editor.lines| {
        return;
      }
      var prevLine := editor.lines[pos.line - 1];
      var lastChar := LastNotBlank(prevLine);
      if lastChar.Some? && prevLine[lastChar.value] == '{' {
        var indent := LeadingIndent(prevLine);
        var currentLine := editor.lines[pos.line];
        var firstChar := FirstNotBlank(currentLine);
        if firstChar.None? {
          OpenBlock(editor, indent);
        }
      }
    }
  }

  /** The `for` loop that collects the leading spaces and tabs of a line. */
  method LeadingIndent(s: string) returns (indent: string)
    ensures indent == Indent(s)
  {
    indent := [];
    var i := 0;
    while i < |s| && IsIndentChar(s[i])
      invariant 0 <= i <= |s| && indent == s[..i]
      invariant forall j :: 0 <= j < i ==> IsIndentChar(s[j])
    {
      indent := indent + [s[i]];
      i := i + 1;
    }
    IndentUnique(s, indent);
  }

  /** The edit that opens the block: select the blank line, type nothing, type the block, step back to the body line. */
  method OpenBlock(editor: TextEditor, indent: string)
    requires editor.Valid() && editor.CursorInText()
    requires forall j :: 0 <= j < |indent| ==> IsIndentChar(indent[j])
    modifies editor`lines, editor`cursor, editor`selStart, editor`selEnd
    ensures editor.Valid()
    ensures var pos := old(editor.cursor);
      var cur := old(editor.lines)[pos.line];
      editor.lines == old(editor.lines)[..pos.line] +
        [cur[..pos.col] + indent + "    ", indent + "}" + cur[pos.col..]] + old(editor.lines)[pos.line + 1..] &&
      editor.cursor == Coord(pos.line, |indent| + 4) &&
      editor.selStart == Coord(pos.line + 1, |indent| + 1) && editor.selEnd == editor.selStart
  {
    var pos := editor.cursor;
    ghost var lines0 := editor.lines;
    var currentLine := editor.lines[pos.line];
    editor.SetSelection(Coord(pos.line, 0), Coord(pos.line, |currentLine|));
    InsertOnOneLine(editor.lines, editor.cursor, "");
    assert currentLine[..pos.col] + "" + currentLine[pos.col..] == currentLine;
    assert lines0[pos.line := currentLine] == lines0;
    editor.InsertText("");
    assert '\n' !in indent + "    " && '\n' !in indent + "}";
    InsertTwoLines(editor.lines, editor.cursor, indent + "    ", indent + "}");
    assert BlockText(indent) == (indent + "    ") + "\n" + (indent + "}");
    editor.InsertText(BlockText(indent));
    assert currentLine[..pos.col] + (indent + "    ") == currentLine[..pos.col] + indent + "    ";
    var newPos := editor.cursor;
    if newPos.line > 0 {
      editor.SetCursorPosition(Coord(newPos.line - 1, |indent| + 4));
    }
  }

  /**
   * HandlePostRenderLogic: the deletion block, then the Enter block, both
   * at the cursor position taken at the start.
   */
  method HandlePostRenderLogic(editor: TextEditor, g: RenderStatics, ac: AutocompleteState?,
                               enter: bool, smartIndent: Option<bool>)
    requires editor.Valid() && ColumnInLine(editor)
    modifies editor`lines, editor`cursor, editor`selStart, editor`selEnd, g`shouldDeleteClosing, (if ac != null then {ac} else {})`justConsumedEnter
    ensures editor.Valid() && !g.shouldDeleteClosing
    ensures var pos := old(editor.cursor);
      var deleted := DeletesCloser(old(editor.lines), pos, old(g.shouldDeleteClosing), g.deleteAtLine, g.deleteAtColumn);
      var lines1 := if deleted then old(editor.lines)[pos.line := RemoveAt(old(editor.lines)[pos.line], pos.col)]
                    else old(editor.lines);
      var consumed := enter && ac != null && old(ac.justConsumedEnter);
      var fires := enter && !consumed && OpensBlock(lines1, pos, smartIndent);
      (ac != null ==> ac.justConsumedEnter == (old(ac.justConsumedEnter) && !consumed)) &&
      if fires then
        var indent := Indent(lines1[pos.line - 1]);
        var cur := lines1[pos.line];
        editor.lines == lines1[..pos.line] + [cur[..pos.col] + indent + "    ", indent + "}" + cur[pos.col..]] +
          lines1[pos.line + 1..] &&
        editor.cursor == Coord(pos.line, |indent| + 4) &&
        editor.selStart == Coord(pos.line + 1, |indent| + 1) && editor.selEnd == editor.selStart
      else
        editor.lines == lines1 && editor.cursor == pos &&
        editor.selStart == (if deleted then pos else old(editor.selStart)) &&
        editor.selEnd == (if deleted then pos else old(editor.selEnd))
  {
    DeleteScheduledCloser(editor, g);
    SmartIndent(editor, ac, enter, smartIndent);
  }

  // ---------------------------------------------------------------------
  // Properties across the frames

  /**
   * An opener typed at `col` with its closer inserted, then Backspace with
   * the cursor behind the opener: the pair is recognised there, and removing
   * the opener and then the scheduled closer gives the line back.
   */
  lemma {:induction false} PairDeletionRestoresLine(line: string, col: nat, c: char)
    requires col <= |line| && Closer(c).Some?
    ensures var typed := line[..col] + [c, Closer(c).value] + line[col..];
      PairAround(typed, col + 1) &&
      RemoveAt(RemoveAt(typed, col), col) == line
  {
    var typed := line[..col] + [c, Closer(c).value] + line[col..];
    assert typed[col] == c && typed[col + 1] == Closer(c).value;
    var once := RemoveAt(typed, col);
    assert once == line[..col] + [Closer(c).value] + line[col..] by {
      assert typed[..col] == line[..col];
      assert typed[col + 1..] == [Closer(c).value] + line[col..];
    }
    var twice := RemoveAt(once, col);
    assert twice == line by {
      assert once[..col] == line[..col];
      assert once[col + 1..] == line[col..];
      assert line == line[..col] + line[col..];
    }
  }

  /**
   * On an empty current line the block replaces that line outright: the
   * body line indented four more than the line with `{`, then the brace at
   * that line's indent.
   */
  lemma {:induction false} BlockOnEmptyLine(lines: seq<string>, line: nat, col: nat, indent: string)
    requires line < |lines| && lines[line] == "" && col <= |lines[line]|
    ensures var cur := lines[line];
      lines[..line] + [cur[..col] + indent + "    ", indent + "}" + cur[col..]] + lines[line + 1..] ==
      lines[..line] + [indent + "    ", indent + "}"] + lines[line + 1..]
  {
    var cur := lines[line];
    assert cur[..col] + indent + "    " == indent + "    " by { assert cur[..col] == []; }
    assert indent + "}" + cur[col..] == indent + "}" by { assert cur[col..] == []; }
  }
}
