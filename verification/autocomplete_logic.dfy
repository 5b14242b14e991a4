/**
 * The completion popup of an editor tab (HandleAutocompleteLogic): when a
 * completion request is triggered, what is sent to the language server,
 * how the results the reader thread delivers reach the popup, and how the
 * open popup answers the keys of a frame.
 */
module Autocomplete {
  import opened Strings
  import opened TextEditorWidget
  import opened JsonValue
  import opened FrameCodec
  import opened Lsp

  /** What ImGui reports for one frame. */
  datatype Input = Input(
    ctrlDown: bool,        // IsKeyDown(LeftCtrl)
    spacePressed: bool,    // IsKeyPressed(Space)
    upPressed: bool,
    downPressed: bool,
    enterPressed: bool,
    tabPressed: bool,
    escapePressed: bool,
    typedChars: nat,       // InputQueueCharacters.Size
    focused: bool)         // IsWindowFocused(ChildWindows)

  predicate CtrlSpace(inp: Input) {
    inp.ctrlDown && inp.spacePressed
  }

  // ---------------------------------------------------------------------
  // Triggering

  /** '.', "->" or "::" right before column `col`. */
  predicate OpenerBefore(line: string, col: nat)
    requires 0 < col <= |line|
  {
    var c := line[col - 1];
    c == '.' || (c == '>' && col >= 2 && line[col - 2] == '-') || (c == ':' && col >= 2 && line[col - 2] == ':')
  }

  /** A request is wanted on Ctrl+Space, or when the cursor stands right after a member-access token. */
  predicate ShouldTrigger(lines: seq<string>, pos: Coord, ctrlSpace: bool) {
    pos.line < |lines| &&
    (ctrlSpace || (0 < pos.col <= |lines[pos.line]| && OpenerBefore(lines[pos.line], pos.col)))
  }

  /** An automatic trigger is dropped at the very place where the previous one fired; Ctrl+Space never is. */
  predicate Fires(lines: seq<string>, pos: Coord, ctrlSpace: bool, lastLine: int, lastCol: int) {
    ShouldTrigger(lines, pos, ctrlSpace) && (ctrlSpace || pos.line != lastLine || pos.col != lastCol)
  }

  /** The automatic trigger looks exactly for text before the cursor that ends in ".", "->" or "::". */
  lemma {:induction false} OpenerIsSuffix(line: string, col: nat)
    requires 0 < col <= |line|
    ensures OpenerBefore(line, col) <==>
      EndsWith(line[..col], ".") || EndsWith(line[..col], "->") || EndsWith(line[..col], "::")
  {
    var s := line[..col];
    EndsWithOne(s, '.');
    EndsWithTwo(s, '-', '>');
    EndsWithTwo(s, ':', ':');
    assert "." == ['.'] && "->" == ['-', '>'] && "::" == [':', ':'];
    assert s[col - 1] == line[col - 1];
    if col >= 2 {
      assert s[col - 2] == line[col - 2];
    }
  }

  lemma {:induction false} EndsWithOne(s: string, c: char)
    ensures EndsWith(s, [c]) <==> |s| >= 1 && s[|s| - 1] == c
  {
    if |s| >= 1 && s[|s| - 1] == c {
      assert s[|s| - 1..] == [c];
    }
  }

  lemma {:induction false} EndsWithTwo(s: string, a: char, b: char)
    ensures EndsWith(s, [a, b]) <==> |s| >= 2 && s[|s| - 2] == a && s[|s| - 1] == b
  {
    if |s| >= 2 && s[|s| - 2] == a && s[|s| - 1] == b {
      assert s[|s| - 2..] == [a, b];
    }
    if EndsWith(s, [a, b]) {
      assert s[|s| - 2..][0] == a && s[|s| - 2..][1] == b;
    }
  }

  /** The two function-local statics that remember where the last trigger fired. */
  class LastTrigger {
    var line: int
    var col: int

    constructor ()
      ensures line == -1 && col == -1
    {
      line := -1;
      col := -1;
    }
  }

  // ---------------------------------------------------------------------
  // The popup as a value

  datatype CompletionPopup = CompletionPopup(items: seq<CompletionItem>, show: bool, selectedIndex: int)

  /** The popup is shown only over a non-empty list with a selected entry. */
  predicate Selectable(p: CompletionPopup) {
    p.show ==> 0 <= p.selectedIndex < |p.items|
  }

  /** Taking the delivered results under the mutex: they replace the list, and the popup opens on the first entry exactly when there is one. */
  function Taken(p: CompletionPopup, pending: seq<CompletionItem>, hasNew: bool): (r: CompletionPopup)
    ensures !hasNew ==> r == p
    ensures hasNew ==> r.items == pending && (r.show <==> pending != [])
    ensures hasNew && pending != [] ==> r.selectedIndex == 0
    ensures Selectable(p) ==> Selectable(r)
  {
    if !hasNew then p
    else if pending != [] then CompletionPopup(pending, true, 0)
    else CompletionPopup(pending, false, p.selectedIndex)
  }

  /** Up arrow: one entry up, from the first to the last. */
  function Up(i: int, n: int): int {
    if i - 1 < 0 then n - 1 else i - 1
  }

  /** Down arrow: one entry down, from the last to the first. */
  function Down(i: int, n: int): int {
    if i + 1 >= n then 0 else i + 1
  }

  /** The arrows keep the selection on an entry, and each undoes the other. */
  lemma {:induction false} ArrowsCycle(i: int, n: int)
    requires 0 <= i < n
    ensures 0 <= Up(i, n) < n && 0 <= Down(i, n) < n
    ensures Down(Up(i, n), n) == i && Up(Down(i, n), n) == i
    ensures Up(0, n) == n - 1 && Down(n - 1, n) == 0
  {
  }

  /** What the popup block does in one frame. */
  datatype KeyOutcome = KeyOutcome(
    show: bool, selectedIndex: int, justConsumedEnter: bool,
    keyboard: bool,              // the widget's own keyboard handling at the end of the frame
    insert: Option<string>)      // the text InsertText puts in, when an entry is accepted

  /**
   * The popup block on values: `cursor` is where the cursor was at the
   * start of the frame and `coord` where the request was made.
   */
  function PopupStep(p: CompletionPopup, justConsumedEnter: bool, coord: Coord, cursor: Coord, inp: Input)
    : KeyOutcome
  {
    if !(p.show && p.items != []) then
      KeyOutcome(p.show, p.selectedIndex, justConsumedEnter, true, None)
    else if !inp.focused || cursor != coord then
      KeyOutcome(false, p.selectedIndex, justConsumedEnter, true, None)
    else KeysStep(p, justConsumedEnter, inp)
  }

  /** The keys of a frame against the shown popup, which keeps the keyboard from the widget. */
  function KeysStep(p: CompletionPopup, justConsumedEnter: bool, inp: Input): KeyOutcome {
    var n := |p.items|;
    var open := inp.typedChars == 0;
    if inp.upPressed then
      KeyOutcome(open, Up(p.selectedIndex, n), justConsumedEnter, false, None)
    else if inp.downPressed then
      KeyOutcome(open, Down(p.selectedIndex, n), justConsumedEnter, false, None)
    else if inp.enterPressed || inp.tabPressed then
      if 0 <= p.selectedIndex < n then
        KeyOutcome(false, p.selectedIndex, justConsumedEnter || inp.enterPressed, false,
                   Some(p.items[p.selectedIndex].insertText))
      else KeyOutcome(false, p.selectedIndex, justConsumedEnter, false, None)
    else if inp.escapePressed then
      KeyOutcome(false, p.selectedIndex, justConsumedEnter, false, None)
    else KeyOutcome(open, p.selectedIndex, justConsumedEnter, false, None)
  }

  /** A frame never leaves the popup shown without a selected entry. */
  lemma {:induction false} PopupStepKeepsSelection(p: CompletionPopup, jce: bool, coord: Coord, cursor: Coord, inp: Input)
    requires Selectable(p)
    ensures var r := PopupStep(p, jce, coord, cursor, inp);
      r.show ==> 0 <= r.selectedIndex < |p.items|
  {
    if p.show && p.items != [] {
      ArrowsCycle(p.selectedIndex, |p.items|);
    }
  }

  /**
   * An entry is inserted exactly when the shown popup stays in focus with
   * the cursor where the request was made and Enter or Tab is pressed
   * without an arrow; the inserted text is the selected entry's, the popup
   * closes, and an Enter is marked as consumed for the indentation logic.
   */
  lemma {:induction false} AcceptInsertsSelection(p: CompletionPopup, jce: bool, coord: Coord, cursor: Coord, inp: Input)
    requires Selectable(p)
    ensures var r := PopupStep(p, jce, coord, cursor, inp);
      r.insert.Some? <==> p.show && inp.focused && cursor == coord && !inp.upPressed && !inp.downPressed
                          && (inp.enterPressed || inp.tabPressed)
    ensures var r := PopupStep(p, jce, coord, cursor, inp);
      r.insert.Some? ==> r.insert.value == p.items[p.selectedIndex].insertText && !r.show && !r.keyboard
                         && r.justConsumedEnter == (jce || inp.enterPressed)
  {
  }

  /** Losing the focus or moving the cursor closes the popup and gives the keys back to the widget. */
  lemma {:induction false} LeavingClosesPopup(p: CompletionPopup, jce: bool, coord: Coord, cursor: Coord, inp: Input)
    requires p.show && p.items != [] && (!inp.focused || cursor != coord)
    ensures var r := PopupStep(p, jce, coord, cursor, inp);
      !r.show && r.keyboard && r.insert.None? && r.selectedIndex == p.selectedIndex && r.justConsumedEnter == jce
  {
  }

  /** Typing a character always leaves the popup closed, and a hidden popup never opens by a key. */
  lemma {:induction false} TypingClosesPopup(p: CompletionPopup, jce: bool, coord: Coord, cursor: Coord, inp: Input)
    requires Selectable(p)
    ensures var r := PopupStep(p, jce, coord, cursor, inp);
      (inp.typedChars > 0 || !p.show ==> !r.show) && (!p.show ==> r.keyboard)
  {
  }

  // ---------------------------------------------------------------------
  // The state shared with the reader thread

  class AutocompleteState {
    var items: seq<CompletionItem>
    var pendingResults: seq<CompletionItem>
    var hasNewResults: bool
    var show: bool
    var selectedIndex: int
    var coord: Coord
    var requested: bool
    var justConsumedEnter: bool

    function Popup(): CompletionPopup
      reads this
    {
      CompletionPopup(items, show, selectedIndex)
    }

    ghost predicate Valid()
      reads this
    {
      Selectable(Popup())
    }

    constructor ()
      ensures Valid() && items == [] && pendingResults == [] && !hasNewResults && !show
      ensures selectedIndex == 0 && coord == Coord(0, 0) && !requested && !justConsumedEnter
    {
      items := [];
      pendingResults := [];
      hasNewResults := false;
      show := false;
      selectedIndex := 0;
      coord := Coord(0, 0);
      requested := false;
      justConsumedEnter := false;
    }

    /**
     * The completion callback, run by the reader thread: the results
     * replace any earlier ones not yet taken, one copied entry at a time.
     */
    method Deliver(results: seq<CompletionItem>)
      modifies this`pendingResults, this`hasNewResults
      ensures pendingResults == results && hasNewResults
    {
      pendingResults := [];
      var k := 0;
      while k < |results|
        invariant k <= |results| && pendingResults == results[..k]
      {
        pendingResults := pendingResults + [results[k]];
        k := k + 1;
      }
      hasNewResults := true;
    }

    /** The transfer block: new results, if any, become the list. */
    method TakeResults()
      requires Valid()
      modifies this`items, this`hasNewResults, this`show, this`selectedIndex
      ensures Valid() && !hasNewResults
      ensures Popup() == Taken(old(Popup()), pendingResults, old(hasNewResults))
    {
      if hasNewResults {
        items := pendingResults;
        hasNewResults := false;
        if items != [] {
          show := true;
          selectedIndex := 0;
        } else {
          show := false;
        }
      }
    }
  }

  /** What one completion request leaves in the client's trace: the document text, the handler, the request. */
  function RequestTrace(dump: Json -> string, path: string, text: string, id: int, pos: Coord, cb: Callback)
    : seq<Action>
  {
    var n := NotificationMessage("textDocument/didChange", DidChangeParams(path, text));
    var req := RequestMessage(id, "textDocument/completion", CompletionParams(path, pos.line, pos.col));
    [Wrote(n, Encode(dump(n))), Registered(id, cb), Wrote(req, Encode(dump(req)))]
  }

  // ---------------------------------------------------------------------
  // The frame

  /** The trigger block: a firing trigger asks for a request and is remembered. */
  method CheckTrigger(editor: TextEditor, state: AutocompleteState, last: LastTrigger, ctrlSpace: bool)
    modifies state`requested, last
    ensures var f := Fires(editor.lines, editor.cursor, ctrlSpace, old(last.line), old(last.col));
      state.requested == (old(state.requested) || f) &&
      (if f then last.line == editor.cursor.line && last.col == editor.cursor.col
       else last.line == old(last.line) && last.col == old(last.col))
  {
    var pos := editor.cursor;
    var lines := editor.lines;
    if pos.line < |lines| {
      var line := lines[pos.line];
      var shouldTrigger := false;
      if ctrlSpace {
        shouldTrigger := true;
      } else if pos.col > 0 && pos.col <= |line| {
        var c := line[pos.col - 1];
        if c == '.' {
          shouldTrigger := true;
        } else if c == '>' && pos.col >= 2 && line[pos.col - 2] == '-' {
          shouldTrigger := true;
        } else if c == ':' && pos.col >= 2 && line[pos.col - 2] == ':' {
          shouldTrigger := true;
        }
      }
      if shouldTrigger {
        if ctrlSpace || pos.line != last.line || pos.col != last.col {
          state.requested := true;
          last.line := pos.line;
          last.col := pos.col;
        }
      }
    }
  }

  /** The request block: the current text goes to the server first, then the completion request at the cursor. */
  method SendCompletionRequest(editor: TextEditor, state: AutocompleteState, lsp: LspClient, path: string, cb: Callback)
    requires editor.Valid() && lsp.Valid()
    modifies state`requested, state`coord, lsp
    ensures lsp.Valid() && !state.requested
    ensures lsp.running == old(lsp.running) && lsp.diagCallback == old(lsp.diagCallback)
    ensures old(state.requested) ==>
      state.coord == editor.cursor &&
      lsp.trace == old(lsp.trace) + RequestTrace(lsp.dump, path, Join(editor.lines), old(lsp.nextId), editor.cursor, cb) &&
      lsp.nextId == old(lsp.nextId) + 1 && lsp.handlers == old(lsp.handlers)[old(lsp.nextId) := cb]
    ensures !old(state.requested) ==>
      state.coord == old(state.coord) &&
      lsp.trace == old(lsp.trace) && lsp.nextId == old(lsp.nextId) && lsp.handlers == old(lsp.handlers)
  {
    if state.requested {
      state.requested := false;
      var pos := editor.cursor;
      state.coord := pos;
      lsp.DidChange(path, Join(editor.lines));
      lsp.RequestCompletion(path, pos.line, pos.col, cb);
    }
  }

  /**
   * What a frame leaves in the widget, against its lines, cursor and
   * selection before: the text typed in when an entry is accepted, else the
   * widget untouched.
   */
  predicate EditedBy(editor: TextEditor, lines: seq<string>, cursor: Coord, selStart: Coord, selEnd: Coord,
                     insert: Option<string>)
    reads editor
  {
    if insert.Some? then
      cursor.line < |lines| && cursor.col <= |lines[cursor.line]| &&
      editor.lines == Inserted(lines, cursor, insert.value) &&
      editor.cursor == After(cursor, insert.value) &&
      editor.selStart == editor.cursor && editor.selEnd == editor.cursor
    else
      editor.lines == lines && editor.cursor == cursor &&
      editor.selStart == selStart && editor.selEnd == selEnd
  }

  /** The popup block: focus and cursor against the open popup, then the keys. */
  method HandlePopup(editor: TextEditor, state: AutocompleteState, inp: Input)
    requires editor.Valid() && editor.CursorInText() && state.Valid()
    modifies editor`lines, editor`cursor, editor`selStart, editor`selEnd, editor`handleKeyboardInputs
    modifies state`show, state`selectedIndex, state`justConsumedEnter
    ensures editor.Valid() && state.Valid()
    ensures var r := PopupStep(old(state.Popup()), old(state.justConsumedEnter), state.coord, old(editor.cursor), inp);
      state.show == r.show && state.selectedIndex == r.selectedIndex &&
      state.justConsumedEnter == r.justConsumedEnter && editor.handleKeyboardInputs == r.keyboard &&
      EditedBy(editor, old(editor.lines), old(editor.cursor), old(editor.selStart), old(editor.selEnd), r.insert)
  {
    PopupStepKeepsSelection(state.Popup(), state.justConsumedEnter, state.coord, editor.cursor, inp);
    var pos := editor.cursor;
    if state.show && state.items != [] {
      if !inp.focused {
        state.show := false;
        editor.SetHandleKeyboardInputs(true);
        return;
      }
      if pos != state.coord {
        state.show := false;
        editor.SetHandleKeyboardInputs(true);
        return;
      }
      AnswerKeys(editor, state, inp);
    } else {
      editor.SetHandleKeyboardInputs(true);
    }
  }

  /** The keys against the shown popup, in focus with the cursor where the request was made. */
  method AnswerKeys(editor: TextEditor, state: AutocompleteState, inp: Input)
    requires editor.Valid() && editor.CursorInText() && state.show && state.items != []
    modifies editor`lines, editor`cursor, editor`selStart, editor`selEnd, editor`handleKeyboardInputs
    modifies state`show, state`selectedIndex, state`justConsumedEnter
    ensures editor.Valid()
    ensures var r := KeysStep(old(state.Popup()), old(state.justConsumedEnter), inp);
      state.show == r.show && state.selectedIndex == r.selectedIndex &&
      state.justConsumedEnter == r.justConsumedEnter && editor.handleKeyboardInputs == r.keyboard &&
      EditedBy(editor, old(editor.lines), old(editor.cursor), old(editor.selStart), old(editor.selEnd), r.insert)
  {
    editor.SetHandleKeyboardInputs(false);
    var itemCount := |state.items|;
    if inp.upPressed {
      state.selectedIndex := state.selectedIndex - 1;
      if state.selectedIndex < 0 {
        state.selectedIndex := itemCount - 1;
      }
    } else if inp.downPressed {
      state.selectedIndex := state.selectedIndex + 1;
      if state.selectedIndex >= itemCount {
        state.selectedIndex := 0;
      }
    } else if inp.enterPressed || inp.tabPressed {
      if state.selectedIndex >= 0 && state.selectedIndex < itemCount {
        Accept(editor, state, inp.enterPressed);
      }
      state.show := false;
    } else if inp.escapePressed {
      state.show := false;
    }
    if inp.typedChars > 0 {
      state.show := false;
    }
  }

  /** Enter or Tab on an entry: its text goes in at the cursor, with the widget's keyboard handling on only meanwhile. */
  method Accept(editor: TextEditor, state: AutocompleteState, enter: bool)
    requires editor.Valid() && editor.CursorInText() && 0 <= state.selectedIndex < |state.items|
    modifies editor`lines, editor`cursor, editor`selStart, editor`selEnd, editor`handleKeyboardInputs
    modifies state`justConsumedEnter
    ensures editor.Valid() && !editor.handleKeyboardInputs
    ensures state.justConsumedEnter == (old(state.justConsumedEnter) || enter)
    ensures EditedBy(editor, old(editor.lines), old(editor.cursor), old(editor.selStart), old(editor.selEnd),
      Some(state.items[state.selectedIndex].insertText))
  {
    var item := state.items[state.selectedIndex];
    editor.SetHandleKeyboardInputs(true);
    editor.InsertText(item.insertText);
    editor.SetHandleKeyboardInputs(false);
    if enter {
      state.justConsumedEnter := true;
    }
  }

  /**
   * HandleAutocompleteLogic for one frame.  `cb` stands for the completion
   * callback, which runs `state.Deliver` on the reader thread.
   */
  method HandleAutocompleteLogic(editor: TextEditor, state: AutocompleteState, last: LastTrigger,
                                 lsp: LspClient, path: string, enabled: bool, inp: Input, cb: Callback)
    requires editor.Valid() && editor.CursorInText() && state.Valid() && lsp.Valid()
    modifies editor`lines, editor`cursor, editor`selStart, editor`selEnd, editor`handleKeyboardInputs
    modifies state, last, lsp
    ensures editor.Valid() && state.Valid() && lsp.Valid()
    ensures lsp.running == old(lsp.running) && lsp.diagCallback == old(lsp.diagCallback)
    ensures !enabled ==>
      !state.show && state.items == [] && editor.handleKeyboardInputs &&
      state.selectedIndex == old(state.selectedIndex) && state.requested == old(state.requested) &&
      state.pendingResults == old(state.pendingResults) && state.hasNewResults == old(state.hasNewResults) &&
      editor.lines == old(editor.lines) && editor.cursor == old(editor.cursor) &&
      editor.selStart == old(editor.selStart) && editor.selEnd == old(editor.selEnd) &&
      state.coord == old(state.coord) && state.justConsumedEnter == old(state.justConsumedEnter) &&
      last.line == old(last.line) && last.col == old(last.col) &&
      lsp.trace == old(lsp.trace) && lsp.nextId == old(lsp.nextId) && lsp.handlers == old(lsp.handlers)
    ensures enabled ==>
      var pos := old(editor.cursor);
      var fires := Fires(old(editor.lines), pos, CtrlSpace(inp), old(last.line), old(last.col));
      var asks := old(state.requested) || fires;
      !state.requested && state.coord == (if asks then pos else old(state.coord)) &&
      (if fires then last.line == pos.line && last.col == pos.col
       else last.line == old(last.line) && last.col == old(last.col)) &&
      lsp.trace == old(lsp.trace) + (if asks then RequestTrace(lsp.dump, path, Join(old(editor.lines)), old(lsp.nextId), pos, cb) else []) &&
      lsp.nextId == old(lsp.nextId) + (if asks then 1 else 0) &&
      lsp.handlers == (if asks then old(lsp.handlers)[old(lsp.nextId) := cb] else old(lsp.handlers))
    ensures enabled ==>
      var taken := Taken(old(state.Popup()), old(state.pendingResults), old(state.hasNewResults));
      var r := PopupStep(taken, old(state.justConsumedEnter), state.coord, old(editor.cursor), inp);
      state.items == taken.items && !state.hasNewResults && state.pendingResults == old(state.pendingResults) &&
      state.show == r.show && state.selectedIndex == r.selectedIndex &&
      state.justConsumedEnter == r.justConsumedEnter && editor.handleKeyboardInputs == r.keyboard &&
      EditedBy(editor, old(editor.lines), old(editor.cursor), old(editor.selStart), old(editor.selEnd), r.insert)
  {
    if !enabled {
      state.show := false;
      state.items := [];
      editor.SetHandleKeyboardInputs(true);
      return;
    }
    RunFrame(editor, state, last, lsp, path, inp, cb);
  }

  /** The enabled frame: trigger and request, then transfer and popup. */
  method RunFrame(editor: TextEditor, state: AutocompleteState, last: LastTrigger,
                  lsp: LspClient, path: string, inp: Input, cb: Callback)
    requires editor.Valid() && editor.CursorInText() && state.Valid() && lsp.Valid()
    modifies editor`lines, editor`cursor, editor`selStart, editor`selEnd, editor`handleKeyboardInputs
    modifies state, last, lsp
    ensures editor.Valid() && state.Valid() && lsp.Valid()
    ensures lsp.running == old(lsp.running) && lsp.diagCallback == old(lsp.diagCallback)
    ensures var pos := old(editor.cursor);
      var fires := Fires(old(editor.lines), pos, CtrlSpace(inp), old(last.line), old(last.col));
      var asks := old(state.requested) || fires;
      !state.requested && state.coord == (if asks then pos else old(state.coord)) &&
      (if fires then last.line == pos.line && last.col == pos.col
       else last.line == old(last.line) && last.col == old(last.col)) &&
      lsp.trace == old(lsp.trace) + (if asks then RequestTrace(lsp.dump, path, Join(old(editor.lines)), old(lsp.nextId), pos, cb) else []) &&
      lsp.nextId == old(lsp.nextId) + (if asks then 1 else 0) &&
      lsp.handlers == (if asks then old(lsp.handlers)[old(lsp.nextId) := cb] else old(lsp.handlers))
    ensures var taken := Taken(old(state.Popup()), old(state.pendingResults), old(state.hasNewResults));
      var r := PopupStep(taken, old(state.justConsumedEnter), state.coord, old(editor.cursor), inp);
      state.items == taken.items && !state.hasNewResults && state.pendingResults == old(state.pendingResults) &&
      state.show == r.show && state.selectedIndex == r.selectedIndex &&
      state.justConsumedEnter == r.justConsumedEnter && editor.handleKeyboardInputs == r.keyboard &&
      EditedBy(editor, old(editor.lines), old(editor.cursor), old(editor.selStart), old(editor.selEnd), r.insert)
  {
    Ask(editor, state, last, lsp, path, CtrlSpace(inp), cb);
    Show(editor, state, inp);
  }

  /** Trigger and request: the first two blocks of an enabled frame. */
  method Ask(editor: TextEditor, state: AutocompleteState, last: LastTrigger,
             lsp: LspClient, path: string, ctrlSpace: bool, cb: Callback)
    requires editor.Valid() && lsp.Valid()
    modifies state`requested, state`coord, last, lsp
    ensures lsp.Valid()
    ensures lsp.running == old(lsp.running) && lsp.diagCallback == old(lsp.diagCallback)
    ensures var pos := editor.cursor;
      var fires := Fires(editor.lines, pos, ctrlSpace, old(last.line), old(last.col));
      var asks := old(state.requested) || fires;
      !state.requested && state.coord == (if asks then pos else old(state.coord)) &&
      (if fires then last.line == pos.line && last.col == pos.col
       else last.line == old(last.line) && last.col == old(last.col)) &&
      lsp.trace == old(lsp.trace) + (if asks then RequestTrace(lsp.dump, path, Join(editor.lines), old(lsp.nextId), pos, cb) else []) &&
      lsp.nextId == old(lsp.nextId) + (if asks then 1 else 0) &&
      lsp.handlers == (if asks then old(lsp.handlers)[old(lsp.nextId) := cb] else old(lsp.handlers))
  {
    CheckTrigger(editor, state, last, ctrlSpace);
    SendCompletionRequest(editor, state, lsp, path, cb);
  }

  /** Transfer and popup: the last two blocks of an enabled frame. */
  method Show(editor: TextEditor, state: AutocompleteState, inp: Input)
    requires editor.Valid() && editor.CursorInText() && state.Valid()
    modifies editor`lines, editor`cursor, editor`selStart, editor`selEnd, editor`handleKeyboardInputs
    modifies state`items, state`hasNewResults, state`show, state`selectedIndex, state`justConsumedEnter
    ensures editor.Valid() && state.Valid()
    ensures var taken := Taken(old(state.Popup()), old(state.pendingResults), old(state.hasNewResults));
      var r := PopupStep(taken, old(state.justConsumedEnter), state.coord, old(editor.cursor), inp);
      state.items == taken.items && !state.hasNewResults &&
      state.show == r.show && state.selectedIndex == r.selectedIndex &&
      state.justConsumedEnter == r.justConsumedEnter && editor.handleKeyboardInputs == r.keyboard &&
      EditedBy(editor, old(editor.lines), old(editor.cursor), old(editor.selStart), old(editor.selEnd), r.insert)
  {
    state.TakeResults();
    HandlePopup(editor, state, inp);
  }
}
