/**
 * The search bar's logic over the editor's lines: FindNext and FindPrev
 * select the next or previous occurrence of the query, wrapping around the
 * text, and UpdateSearchInfo counts the occurrences and numbers the one
 * under the cursor.
 */
module SearchLogic {
  import opened Strings
  import opened TextEditorWidget

  /** The query occurs on line `i` at column `k`. */
  predicate Occurs(lines: seq<string>, q: string, i: nat, k: nat) {
    i < |lines| && IsAt(lines[i], q, k)
  }

  /** (i, k) comes no later than (i2, k2) in reading order. */
  predicate NotAfter(i: nat, k: nat, i2: nat, k2: nat) {
    i < i2 || (i == i2 && k <= k2)
  }

  /** Where FindNext looks first: at or after the cursor. */
  predicate Ahead(cur: Coord, i: nat, k: nat) {
    i > cur.line || (i == cur.line && k >= cur.col)
  }

  /** Where FindNext looks after wrapping: lines above, and on the cursor line wholly before the cursor. */
  predicate Wrapped(cur: Coord, q: string, i: nat, k: nat) {
    i < cur.line || (i == cur.line && k + |q| <= cur.col)
  }

  /** Where FindPrev looks first: strictly before the cursor. */
  predicate Behind(cur: Coord, i: nat, k: nat) {
    i < cur.line || (i == cur.line && k < cur.col)
  }

  /** The editor shows the occurrence at `at` selected, with the cursor at `cursor`. */
  ghost predicate Selects(editor: TextEditor, q: string, at: Coord, cursor: Coord)
    reads editor
  {
    editor.selStart == at && editor.selEnd == Coord(at.line, at.col + |q|) && editor.cursor == cursor
  }

  /** The three calls the search makes when it has found an occurrence. */
  method SelectOccurrence(editor: TextEditor, q: string, at: Coord, toEnd: bool)
    modifies editor`selStart, editor`selEnd, editor`cursor
    ensures Selects(editor, q, at, if toEnd then Coord(at.line, at.col + |q|) else at)
  {
    var sEnd := Coord(at.line, at.col + |q|);
    editor.SetSelection(at, sEnd);
    editor.SetCursorPosition(if toEnd then sEnd else at);
  }

  /** An occurrence inside the first `m` characters of a line is one that ends by column `m`. */
  lemma {:induction false} IsAtInPrefix(s: string, q: string, m: nat, k: nat)
    requires m <= |s|
    ensures IsAt(s[..m], q, k) <==> k + |q| <= m && IsAt(s, q, k)
  {
    if k + |q| <= m {
      assert s[..m][k..k + |q|] == s[k..k + |q|];
    }
  }

  /**
   * FindNext: the first occurrence at or after the cursor in reading order;
   * when there is none, the first occurrence after wrapping to the top,
   * where on the cursor line only occurrences that end by the cursor
   * column count.  The selection covers it and the cursor goes to its end.
   * With an empty query, or nothing to find, nothing changes.
   */
  method FindNext(editor: TextEditor, query: string) returns (ghost picked: Option<Coord>)
    requires editor.cursor.line < |editor.lines|
    modifies editor`selStart, editor`selEnd, editor`cursor
    ensures picked.None? <==> (query == [] ||
      forall i: nat, k: nat :: Occurs(editor.lines, query, i, k) ==>
        !Ahead(old(editor.cursor), i, k) && !Wrapped(old(editor.cursor), query, i, k))
    ensures picked.None? ==> editor.selStart == old(editor.selStart) && editor.selEnd == old(editor.selEnd)
                             && editor.cursor == old(editor.cursor)
    ensures picked.Some? ==> var p := picked.value;
      Occurs(editor.lines, query, p.line, p.col) && Selects(editor, query, p, Coord(p.line, p.col + |query|))
    ensures picked.Some? && Ahead(old(editor.cursor), picked.value.line, picked.value.col) ==>
      forall i: nat, k: nat :: Occurs(editor.lines, query, i, k) && Ahead(old(editor.cursor), i, k) ==>
        NotAfter(picked.value.line, picked.value.col, i, k)
    ensures picked.Some? && !Ahead(old(editor.cursor), picked.value.line, picked.value.col) ==>
      Wrapped(old(editor.cursor), query, picked.value.line, picked.value.col) &&
      (forall i: nat, k: nat :: Occurs(editor.lines, query, i, k) ==> !Ahead(old(editor.cursor), i, k)) &&
      forall i: nat, k: nat :: Occurs(editor.lines, query, i, k) && Wrapped(old(editor.cursor), query, i, k) ==>
        NotAfter(picked.value.line, picked.value.col, i, k)
  {
    if query == [] {
      return None;
    }
    var pos := editor.cursor;
    var lines := editor.lines;
    var totalLines := |lines|;

    if pos.line < totalLines {
      var found := Find(lines[pos.line], query, pos.col);
      if found.Some? {
        var at := Coord(pos.line, found.value);
        assert Occurs(lines, query, at.line, at.col) && Ahead(pos, at.line, at.col);
        picked := Some(at);
        SelectOccurrence(editor, query, at, true);
        return;
      }
    }

    var i := pos.line + 1;
    while i < totalLines
      invariant pos.line + 1 <= i <= totalLines
      invariant forall j: nat, k: nat :: Occurs(lines, query, j, k) && j < i ==> !Ahead(pos, j, k)
    {
      var found := Find(lines[i], query, 0);
      if found.Some? {
        var at := Coord(i, found.value);
        assert Occurs(lines, query, at.line, at.col) && Ahead(pos, at.line, at.col);
        picked := Some(at);
        SelectOccurrence(editor, query, at, true);
        return;
      }
      i := i + 1;
    }

    i := 0;
    while i <= pos.line
      invariant i <= pos.line + 1
      invariant forall j: nat, k: nat :: Occurs(lines, query, j, k) && j < i ==> !Wrapped(pos, query, j, k)
    {
      var found;
      if i == pos.line {
        var m := if pos.col <= |lines[i]| then pos.col else |lines[i]|;
        var sub := lines[i][..m];
        found := Find(sub, query, 0);
        forall k: nat ensures IsAt(sub, query, k) <==> Wrapped(pos, query, i, k) && IsAt(lines[i], query, k) {
          IsAtInPrefix(lines[i], query, m, k);
        }
      } else {
        found := Find(lines[i], query, 0);
      }
      if found.Some? {
        var at := Coord(i, found.value);
        assert Occurs(lines, query, at.line, at.col) && Wrapped(pos, query, at.line, at.col);
        picked := Some(at);
        SelectOccurrence(editor, query, at, true);
        return;
      }
      i := i + 1;
    }
    picked := None;
  }

  /**
   * FindPrev: the last occurrence in reading order that starts before the
   * cursor; when there is none, the last occurrence of the whole text.  The
   * selection covers it and the cursor goes to its start.  It selects
   * something exactly when the query is non-empty and occurs.
   */
  method FindPrev(editor: TextEditor, query: string) returns (ghost picked: Option<Coord>)
    requires editor.cursor.line <= |editor.lines|
    modifies editor`selStart, editor`selEnd, editor`cursor
    ensures picked.Some? <==> query != [] && exists i: nat, k: nat :: Occurs(editor.lines, query, i, k)
    ensures picked.None? ==> editor.selStart == old(editor.selStart) && editor.selEnd == old(editor.selEnd)
                             && editor.cursor == old(editor.cursor)
    ensures picked.Some? ==> var p := picked.value;
      Occurs(editor.lines, query, p.line, p.col) && Selects(editor, query, p, p)
    ensures picked.Some? && Behind(old(editor.cursor), picked.value.line, picked.value.col) ==>
      forall i: nat, k: nat :: Occurs(editor.lines, query, i, k) && Behind(old(editor.cursor), i, k) ==>
        NotAfter(i, k, picked.value.line, picked.value.col)
    ensures picked.Some? && !Behind(old(editor.cursor), picked.value.line, picked.value.col) ==>
      forall i: nat, k: nat :: Occurs(editor.lines, query, i, k) ==>
        !Behind(old(editor.cursor), i, k) && NotAfter(i, k, picked.value.line, picked.value.col)
  {
    if query == [] {
      return None;
    }
    var pos := editor.cursor;
    var lines := editor.lines;
    var totalLines := |lines|;

    if pos.line < totalLines && pos.col > 0 {
      var searchLimit := pos.col - 1;
      var found := RFind(lines[pos.line], query, searchLimit);
      if found.Some? {
        var at := Coord(pos.line, found.value);
        assert Occurs(lines, query, at.line, at.col) && Behind(pos, at.line, at.col);
        picked := Some(at);
        SelectOccurrence(editor, query, at, false);
        assert Occurs(editor.lines, query, at.line, at.col);
        assert exists i: nat, k: nat :: Occurs(editor.lines, query, i, k);
        return;
      }
    }
    assert forall k: nat :: Occurs(lines, query, pos.line, k) ==> !Behind(pos, pos.line, k);

    var i := pos.line;
    while i > 0
      invariant i <= pos.line
      invariant forall j: nat, k: nat :: Occurs(lines, query, j, k) && i <= j ==> !Behind(pos, j, k)
      invariant editor.lines == lines
    {
      var found := RFindLast(lines[i - 1], query);
      if found.Some? {
        var at := Coord(i - 1, found.value);
        assert Occurs(lines, query, at.line, at.col);
        picked := Some(at);
        SelectOccurrence(editor, query, at, false);
        assert Occurs(editor.lines, query, at.line, at.col);
        assert exists i: nat, k: nat :: Occurs(editor.lines, query, i, k);
        return;
      }
      i := i - 1;
    }

    i := totalLines;
    while i > pos.line + 1
      invariant pos.line + 1 <= i <= totalLines || i == totalLines
      invariant editor.lines == lines
      invariant forall j: nat, k: nat :: Occurs(lines, query, j, k) && i <= j ==> false
    {
      var found := RFindLast(lines[i - 1], query);
      if found.Some? {
        var at := Coord(i - 1, found.value);
        assert Occurs(lines, query, at.line, at.col);
        picked := Some(at);
        SelectOccurrence(editor, query, at, false);
        assert Occurs(editor.lines, query, at.line, at.col);
        assert exists i: nat, k: nat :: Occurs(editor.lines, query, i, k);
        return;
      }
      i := i - 1;
    }

    if pos.line < totalLines {
      var found := RFindLast(lines[pos.line], query);
      if found.Some? && found.value >= pos.col {
        var at := Coord(pos.line, found.value);
        assert Occurs(lines, query, at.line, at.col);
        picked := Some(at);
        SelectOccurrence(editor, query, at, false);
        assert Occurs(editor.lines, query, at.line, at.col);
        assert exists i: nat, k: nat :: Occurs(editor.lines, query, i, k);
        return;
      }
    }
    picked := None;
  }

  // ---------------------------------------------------------------------
  // Counting

  /** The occurrences of `q` in `s` that start before column `k`, overlapping ones included. */
  function CountBelow(s: string, q: string, k: nat): nat {
    if k == 0 then 0 else CountBelow(s, q, k - 1) + if IsAt(s, q, k - 1) then 1 else 0
  }

  /** All occurrences on one line. */
  function CountLine(s: string, q: string): nat {
    CountBelow(s, q, |s| + 1)
  }

  /** All occurrences in the text. */
  function Total(lines: seq<string>, q: string): nat {
    if lines == [] then 0 else Total(lines[..|lines| - 1], q) + CountLine(lines[|lines| - 1], q)
  }

  /**
   * The number UpdateSearchInfo shows for the cursor: the 1-based position,
   * in reading order, of the last occurrence on the cursor line that
   * touches the cursor column (ends included); 0 when there is none.
   */
  function SearchIndex(lines: seq<string>, q: string, cur: Coord): nat {
    if q == [] || cur.line >= |lines| then 0
    else LineIndex(Total(lines[..cur.line], q), lines[cur.line], q, cur.col)
  }

  /** The number of the last occurrence on line `s` touching column `c`, counting on from `base`; 0 if none. */
  function LineIndex(base: nat, s: string, q: string, c: nat): nat {
    match RFind(s, q, c)
    case Some(k) => if c <= k + |q| then base + CountBelow(s, q, k) + 1 else 0
    case None => 0
  }

  /** Columns holding no occurrence add nothing to the count. */
  lemma {:induction false} CountSkip(s: string, q: string, from: nat, k: nat)
    requires from <= k && forall j :: from <= j < k ==> !IsAt(s, q, j)
    ensures CountBelow(s, q, k) == CountBelow(s, q, from)
    decreases k
  {
    if from < k {
      CountSkip(s, q, from, k - 1);
    }
  }

  /** The count below a column never exceeds the count below a later one. */
  lemma {:induction false} CountMonotone(s: string, q: string, k: nat, k2: nat)
    requires k <= k2
    ensures CountBelow(s, q, k) <= CountBelow(s, q, k2)
    decreases k2
  {
    if k < k2 {
      CountMonotone(s, q, k, k2 - 1);
    }
  }

  /** Columns holding no occurrence do not change where rfind stops. */
  lemma {:induction false} RFindSkip(s: string, q: string, p: nat, p2: nat)
    requires p2 <= p && forall j :: p2 < j <= p ==> !IsAt(s, q, j)
    ensures RFind(s, q, p) == RFind(s, q, p2)
    decreases p
  {
    if p2 < p {
      RFindSkip(s, q, p - 1, p2);
    }
  }

  /** The index of the occurrences numbered so far, once the search of the cursor line has reached `from`. */
  function IndexBelow(base: nat, s: string, q: string, c: nat, from: nat): nat {
    if from == 0 then 0
    else match RFind(s, q, if c <= from - 1 then c else from - 1)
      case Some(k) => if c <= k + |q| then base + CountBelow(s, q, k) + 1 else 0
      case None => 0
  }

  /** One occurrence found at `k` on the cursor line: the index is renumbered exactly when it touches the cursor. */
  lemma {:induction false} IndexStep(base: nat, s: string, q: string, c: nat, from: nat, k: nat)
    requires from <= k && IsAt(s, q, k) && forall j :: from <= j < k ==> !IsAt(s, q, j)
    ensures IndexBelow(base, s, q, c, k + 1) ==
      if k <= c <= k + |q| then base + CountBelow(s, q, from) + 1 else IndexBelow(base, s, q, c, from)
  {
    CountSkip(s, q, from, k);
    if k <= c {
      assert RFind(s, q, k) == Some(k);
      if c > k + |q| && from > 0 {
        var p := if c <= from - 1 then c else from - 1;
        match RFind(s, q, p)
        case None =>
        case Some(k2) =>
      }
    } else if from > 0 && from - 1 < c {
      RFindSkip(s, q, c, from - 1);
    } else if from == 0 {
      RFindSkip(s, q, c, 0);
      assert !IsAt(s, q, 0);
    }
  }

  /** What the inner loop of UpdateSearchInfo has counted once every column below `from` is searched. */
  ghost predicate Scanned(s: string, q: string, onCursorLine: bool, c: nat, base: nat, index0: int,
                          from: nat, count: int, index: int)
  {
    count == base + CountBelow(s, q, from) &&
    index == if onCursorLine then IndexBelow(base, s, q, c, from) else index0
  }

  /** The next find at `k` adds one to the count and renumbers the index exactly when it touches the cursor. */
  lemma ScanStep(s: string, q: string, onCursorLine: bool, c: nat, base: nat, index0: int,
                 from: nat, count: int, index: int, k: nat)
    requires q != [] && Find(s, q, from) == Some(k)
    requires Scanned(s, q, onCursorLine, c, base, index0, from, count, index)
    ensures Scanned(s, q, onCursorLine, c, base, index0, k + 1, count + 1,
                    if onCursorLine && k <= c <= k + |q| then count + 1 else index)
  {
    IndexStep(base, s, q, c, from, k);
    CountSkip(s, q, from, k);
  }

  /** Once no find is left, the count covers the whole line and the index is the line's. */
  lemma ScanDone(s: string, q: string, onCursorLine: bool, c: nat, base: nat, index0: int,
                 from: nat, count: int, index: int)
    requires from <= |s| + 1 && Find(s, q, from) == None
    requires Scanned(s, q, onCursorLine, c, base, index0, from, count, index)
    ensures count == base + CountLine(s, q)
    ensures index == if onCursorLine then LineIndex(base, s, q, c) else index0
  {
    CountSkip(s, q, from, |s| + 1);
    IndexDone(base, s, q, c, from);
  }

  /** Past the last occurrence, the index of the cursor line is final. */
  lemma {:induction false} IndexDone(base: nat, s: string, q: string, c: nat, from: nat)
    requires from <= |s| + 1 && forall j :: from <= j ==> !IsAt(s, q, j)
    ensures IndexBelow(base, s, q, c, |s| + 1) == IndexBelow(base, s, q, c, from)
    ensures IndexBelow(base, s, q, c, |s| + 1) == LineIndex(base, s, q, c)
  {
    if c > |s| {
      RFindSkip(s, q, c, |s|);
    }
    if from == 0 {
      assert RFind(s, q, c) == None;
    } else if from - 1 < c {
      RFindSkip(s, q, c, from - 1);
      if |s| < c {
        RFindSkip(s, q, |s|, from - 1);
      }
    }
  }

  /**
   * UpdateSearchInfo: the number of occurrences in the whole text
   * (overlapping ones included, since each search restarts one column
   * after the last find) and the number of the one under the cursor.
   */
  method UpdateSearchInfo(editor: TextEditor, query: string) returns (outCount: int, outIndex: int)
    ensures query == [] ==> outCount == 0 && outIndex == 0
    ensures query != [] ==> outCount == Total(editor.lines, query)
    ensures outIndex == SearchIndex(editor.lines, query, editor.cursor)
  {
    outCount := 0;
    outIndex := 0;
    if query == [] {
      return;
    }
    var lines := editor.lines;
    var cursorPos := editor.cursor;

    var i := 0;
    while i < |lines|
      invariant i <= |lines|
      invariant outCount == Total(lines[..i], query)
      invariant outIndex == if cursorPos.line < i then SearchIndex(lines, query, cursorPos) else 0
    {
      assert lines[..i + 1][..i] == lines[..i];
      outCount, outIndex := ScanLine(lines[i], query, i == cursorPos.line, cursorPos.col, outCount, outIndex);
      if i == cursorPos.line {
        assert lines[..i] == lines[..cursorPos.line];
      }
      i := i + 1;
    }
    assert lines[..i] == lines;
  }

  /** The inner loop of UpdateSearchInfo over one line, counting on from `count0`. */
  method ScanLine(line: string, query: string, onCursorLine: bool, col: nat, count0: nat, index0: int)
    returns (outCount: int, outIndex: int)
    requires query != [] && (onCursorLine ==> index0 == 0)
    ensures outCount == count0 + CountLine(line, query)
    ensures outIndex == if onCursorLine then LineIndex(count0, line, query, col) else index0
  {
    outCount, outIndex := count0, index0;
    ghost var from: nat := 0;
    var found := Find(line, query, 0);
    while found.Some?
      invariant from <= |line| + 1 && found == Find(line, query, from)
      invariant Scanned(line, query, onCursorLine, col, count0, index0, from, outCount, outIndex)
      decreases |line| + 1 - from
    {
      var k := found.value;
      ScanStep(line, query, onCursorLine, col, count0, index0, from, outCount, outIndex, k);
      outCount := outCount + 1;
      if onCursorLine {
        var start := k;
        var end := k + |query|;
        if col >= start && col <= end {
          outIndex := outCount;
        }
      }
      from := k + 1;
      found := Find(line, query, k + 1);
    }
    ScanDone(line, query, onCursorLine, col, count0, index0, from, outCount, outIndex);
  }

  /** The occurrence under the cursor is one of those counted: 0 <= index <= count. */
  lemma {:induction false} IndexWithinCount(lines: seq<string>, q: string, cur: Coord)
    ensures SearchIndex(lines, q, cur) <= Total(lines, q)
  {
    if q != [] && cur.line < |lines| {
      match RFind(lines[cur.line], q, cur.col)
      case None =>
      case Some(k) =>
        var s := lines[cur.line];
        CountMonotone(s, q, k + 1, |s| + 1);
        TotalPrefix(lines, q, cur.line);
    }
  }

  /** The index is non-zero exactly when an occurrence on the cursor line touches the cursor column. */
  lemma {:induction false} IndexNamesTouchingOccurrence(lines: seq<string>, q: string, cur: Coord)
    requires q != [] && cur.line < |lines|
    ensures SearchIndex(lines, q, cur) > 0 <==>
      exists k: nat :: Occurs(lines, q, cur.line, k) && k <= cur.col <= k + |q|
  {
    match RFind(lines[cur.line], q, cur.col)
    case None =>
    case Some(k) =>
      assert Occurs(lines, q, cur.line, k);
  }

  /** The lines up to and including line `l` hold no more occurrences than the whole text. */
  lemma {:induction false} TotalPrefix(lines: seq<string>, q: string, l: nat)
    requires l < |lines|
    ensures Total(lines[..l], q) + CountLine(lines[l], q) <= Total(lines, q)
    decreases |lines|
  {
    if l + 1 < |lines| {
      TotalPrefix(lines[..|lines| - 1], q, l);
      assert lines[..|lines| - 1][..l] == lines[..l];
    } else {
      assert lines[..|lines| - 1] == lines[..l];
    }
  }

  /** Overlapping occurrences are each counted: "aa" occurs twice in "aaa". */
  lemma OverlappingOccurrencesCounted()
    ensures Total(["aaa"], "aa") == 2
  {
    assert IsAt("aaa", "aa", 0) && IsAt("aaa", "aa", 1) && !IsAt("aaa", "aa", 2) && !IsAt("aaa", "aa", 3);
    assert CountBelow("aaa", "aa", 2) == 2;
    assert CountBelow("aaa", "aa", 4) == 2;
    assert ["aaa"][..0] == [];
  }
}
