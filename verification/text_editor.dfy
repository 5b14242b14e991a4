/**
 * The part of the ImGui TextEditor widget that the editor's logic drives:
 * the text as lines, the cursor, the selection and the keyboard flag.  The
 * widget itself is not part of this model; each call the logic makes gets a
 * small contract.  Columns are character indices into a line.
 */
module TextEditorWidget {
  import opened Strings

  datatype Coord = Coord(line: nat, col: nat)

  /** The widget's ordering of coordinates: by line, then by column. */
  predicate Less(a: Coord, b: Coord) {
    a.line < b.line || (a.line == b.line && a.col < b.col)
  }

  /** The pieces of `s` between newlines: one more piece than there are newlines. */
  function Split(s: string): (r: seq<string>)
    ensures |r| >= 1
    ensures forall i :: 0 <= i < |r| ==> '\n' !in r[i]
    decreases |s|
  {
    match IndexOfChar(s, '\n', 0)
    case None => [s]
    case Some(k) => [s[..k]] + Split(s[k + 1..])
  }

  /** The pieces put back together with a newline between neighbours. */
  function Join(pieces: seq<string>): string
    requires |pieces| >= 1
  {
    if |pieces| == 1 then pieces[0] else pieces[0] + "\n" + Join(pieces[1..])
  }

  /** Splitting at the newlines and joining again gives the text back. */
  lemma {:induction false} JoinSplit(s: string)
    ensures Join(Split(s)) == s
    decreases |s|
  {
    match IndexOfChar(s, '\n', 0)
    case None =>
    case Some(k) =>
      var rest := Split(s[k + 1..]);
      var pieces := [s[..k]] + rest;
      assert Split(s) == pieces;
      assert pieces[1..] == rest;
      calc {
        Join(pieces);
        s[..k] + "\n" + Join(rest);
        { JoinSplit(s[k + 1..]); }
        s[..k] + "\n" + s[k + 1..];
        { assert s == s[..k] + [s[k]] + s[k + 1..]; }
        s;
      }
  }

  /** Text without a newline is one piece. */
  lemma {:induction false} SplitWithoutNewline(s: string)
    requires '\n' !in s
    ensures Split(s) == [s]
  {
    assert IndexOfChar(s, '\n', 0) == None;
  }

  /** The first newline of `a + "\n" + b`, when `a` has none, ends the first piece. */
  lemma {:induction false} SplitAtFirstNewline(a: string, b: string)
    requires '\n' !in a
    ensures Split(a + "\n" + b) == [a] + Split(b)
  {
    var s := a + "\n" + b;
    assert s[|a|] == '\n';
    assert forall j :: 0 <= j < |a| ==> s[j] == a[j];
    assert IndexOfChar(s, '\n', 0) == Some(|a|);
    assert s[..|a|] == a && s[|a| + 1..] == b;
  }

  /** Where the cursor ends after `text` is typed at `at`. */
  function After(at: Coord, text: string): (c: Coord)
    ensures '\n' !in text ==> c == Coord(at.line, at.col + |text|)
  {
    var pieces := Split(text);
    if |pieces| == 1 then
      SplitFirst(text);
      Coord(at.line, at.col + |text|)
    else Coord(at.line + |pieces| - 1, |pieces[|pieces| - 1]|)
  }

  /** The single piece of text without newlines is the text itself. */
  lemma {:induction false} SplitFirst(s: string)
    ensures |Split(s)| == 1 <==> '\n' !in s
    ensures |Split(s)| == 1 ==> Split(s) == [s]
  {
    match IndexOfChar(s, '\n', 0)
    case None =>
    case Some(k) =>
      assert |Split(s)| == 1 + |Split(s[k + 1..])|;
  }

  /** The lines after `text` is typed at `at`: the line there is cut and the pieces go in between. */
  function Inserted(lines: seq<string>, at: Coord, text: string): (r: seq<string>)
    requires at.line < |lines| && at.col <= |lines[at.line]|
  {
    var line := lines[at.line];
    lines[..at.line] + Split(line[..at.col] + text + line[at.col..]) + lines[at.line + 1..]
  }

  class TextEditor {
    var lines: seq<string>
    var cursor: Coord
    var selStart: Coord
    var selEnd: Coord
    var handleKeyboardInputs: bool

    /** The widget always holds at least one line, and no line holds a newline. */
    ghost predicate Valid()
      reads this
    {
      |lines| >= 1 && forall i :: 0 <= i < |lines| ==> '\n' !in lines[i]
    }

    constructor (text: string)
      ensures Valid() && lines == Split(text)
      ensures cursor == Coord(0, 0) && selStart == cursor && selEnd == cursor && handleKeyboardInputs
    {
      lines := Split(text);
      cursor := Coord(0, 0);
      selStart := Coord(0, 0);
      selEnd := Coord(0, 0);
      handleKeyboardInputs := true;
    }

    /** The widget keeps its cursor inside the text: on a line, at most one past its last character. */
    predicate CursorInText()
      reads this
    {
      cursor.line < |lines| && cursor.col <= |lines[cursor.line]|
    }

    predicate HasSelection()
      reads this
    {
      Less(selStart, selEnd)
    }

    /** SetSelection: the two ends are stored in order. */
    method SetSelection(a: Coord, b: Coord)
      modifies this`selStart, this`selEnd
      ensures if Less(b, a) then selStart == b && selEnd == a else selStart == a && selEnd == b
    {
      if Less(b, a) {
        selStart, selEnd := b, a;
      } else {
        selStart, selEnd := a, b;
      }
    }

    method SetCursorPosition(c: Coord)
      modifies this`cursor
      ensures cursor == c
    {
      cursor := c;
    }

    method SetHandleKeyboardInputs(on: bool)
      modifies this`handleKeyboardInputs
      ensures handleKeyboardInputs == on
    {
      handleKeyboardInputs := on;
    }

    /**
     * InsertText: the text goes in at the cursor (a selection is not
     * replaced), the cursor ends behind it and the selection collapses there.
     */
    method InsertText(text: string)
      requires Valid() && CursorInText()
      modifies this`lines, this`cursor, this`selStart, this`selEnd
      ensures Valid()
      ensures lines == Inserted(old(lines), old(cursor), text)
      ensures cursor == After(old(cursor), text) && selStart == cursor && selEnd == cursor
    {
      lines := Inserted(lines, cursor, text);
      cursor := After(cursor, text);
      selStart, selEnd := cursor, cursor;
      forall i | 0 <= i < |lines| ensures '\n' !in lines[i] {
      }
    }

    /** Delete with a selection inside one line: the selected characters go and the cursor goes to its start. */
    method Delete()
      requires Valid() && HasSelection() && selStart.line == selEnd.line
      requires selStart.line < |lines| && selEnd.col <= |lines[selStart.line]|
      modifies this`lines, this`cursor, this`selEnd
      ensures Valid()
      ensures var line := old(lines)[old(selStart).line];
        lines == old(lines)[old(selStart).line := line[..old(selStart).col] + line[old(selEnd).col..]]
      ensures cursor == old(selStart) && selStart == old(selStart) && selEnd == old(selStart)
    {
      var line := lines[selStart.line];
      var cut := line[..selStart.col] + line[selEnd.col..];
      assert forall j :: 0 <= j < |cut| ==> cut[j] in line;
      lines := lines[selStart.line := cut];
      cursor := selStart;
      selEnd := selStart;
    }
  }

  /** Text without a newline typed into a line changes that line only and moves the cursor by its length. */
  lemma {:induction false} InsertOnOneLine(lines: seq<string>, at: Coord, text: string)
    requires at.line < |lines| && at.col <= |lines[at.line]| && '\n' !in lines[at.line] && '\n' !in text
    ensures var line := lines[at.line];
      Inserted(lines, at, text) == lines[at.line := line[..at.col] + text + line[at.col..]]
    ensures After(at, text) == Coord(at.line, at.col + |text|)
  {
    var line := lines[at.line];
    var s := line[..at.col] + text + line[at.col..];
    assert forall j :: 0 <= j < |s| ==> s[j] in line || s[j] in text;
    SplitWithoutNewline(s);
  }

  /**
   * `a + "\n" + b` typed into a line cuts it in two: the first part ends
   * with `a`, the second starts with `b`, and the cursor goes behind `b`.
   */
  lemma {:induction false} InsertTwoLines(lines: seq<string>, at: Coord, a: string, b: string)
    requires at.line < |lines| && at.col <= |lines[at.line]| && '\n' !in lines[at.line]
    requires '\n' !in a && '\n' !in b
    ensures var line := lines[at.line];
      Inserted(lines, at, a + "\n" + b)
        == lines[..at.line] + [line[..at.col] + a, b + line[at.col..]] + lines[at.line + 1..]
    ensures After(at, a + "\n" + b) == Coord(at.line + 1, |b|)
  {
    var line := lines[at.line];
    var head := line[..at.col] + a;
    var tail := b + line[at.col..];
    assert forall j :: 0 <= j < |head| ==> head[j] in line || head[j] in a;
    assert forall j :: 0 <= j < |tail| ==> tail[j] in line || tail[j] in b;
    assert line[..at.col] + (a + "\n" + b) + line[at.col..] == head + "\n" + tail;
    SplitAtFirstNewline(head, tail);
    SplitWithoutNewline(tail);
    SplitAtFirstNewline(a, b);
    SplitWithoutNewline(b);
  }
}
