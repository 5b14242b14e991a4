# Fin editor core, modelled in Dafny

Fin is a small C++ code editor built on Dear ImGui. This project models the
logic at its core and proves properties of that logic:

- **The language-server client.** It covers the JSON-RPC envelopes it
  writes and the shared request-id counter. It covers the id-to-handler map
  for completion requests. It covers the `Content-Length` framing of the
  Language Server Protocol base protocol, both ways. It covers how the read
  thread dispatches each message, either to the diagnostics callback
  (`textDocument/publishDiagnostics`) or to the handler of a response.
- **The search bar.** FindNext and FindPrev wrap around the text.
  UpdateSearchInfo counts the occurrences and numbers the one under the
  cursor.
- **The completion popup of an editor tab.** It covers when a request is
  triggered and what is sent. It covers how results delivered by the reader
  thread reach the popup, and how the popup answers the arrows, Enter, Tab,
  Escape and typing.
- **Bracket auto-closing and smart indentation.** This logic runs before and
  after an editor tab is rendered.
- **The compiler-output parser.** It classifies each line of a build log
  against `^(.*):(\d+):(\d+):\s+(.*)$`.
- **The settings file `fin.ini`.** SaveConfig writes it and LoadConfig reads
  it back.
- **The terminal panel's transcript.** It is bounded in size and split at
  its last newline into history and prompt.

## Files

| Module | File | What it holds |
|---|---|---|
| `Strings` | `strings.dfy` | `std::string::find`, `rfind`, `find_last_of`, `std::replace`, `std::stoi`, `std::to_string` and `std::getline` line splitting. The `int` range and wrap-around. |
| `JsonValue` | `json.dfy` | An abstract JSON value. The nlohmann accessors the client uses: `contains`, `value(key, default)`, `get<int>`. |
| `FrameCodec` | `frame_codec.dfy` | The base-protocol header WriteToPipe writes. The carry-over buffer of ReadLoop (`FrameDecoder`) and its specification `Drain`. |
| `Lsp` | `lsp_client.dfy` | The `LspClient` class (running flag, id counter, handler map, diagnostics callback). The message builders. The response and diagnostics conversion. `Dispatch`. |
| `TextEditorWidget` | `text_editor.dfy` | The part of the ImGui TextEditor widget the logic drives: lines, cursor, selection, keyboard flag. |
| `SearchLogic` | `search_logic.dfy` | FindNext, FindPrev, UpdateSearchInfo. |
| `Autocomplete` | `autocomplete_logic.dfy` | HandleAutocompleteLogic and the popup state. |
| `EditorLogic` | `editor_logic.dfy` | HandlePreRenderLogic, HandlePostRenderLogic and their file-level statics. |
| `Compiler` | `compiler.dfy` | ParseCompilerOutput and the regular expression it uses. |
| `ConfigManager` | `config_manager.dfy` | SaveConfig and LoadConfig over the text of `fin.ini`. |
| `TerminalPanel` | `terminal_panel.dfy` | The three static strings of ShowTerminal and their per-frame update. |

Function-local and file-level statics become fields of small classes:
`EditorLogic.RenderStatics`, `Autocomplete.LastTrigger` and
`TerminalPanel.Transcript`. The objects the source mutates are classes
whose methods state their whole new state: the client, the popup state, the
widget and the frame decoder. Pure computations are functions.

## Model

| member | source | states |
|---|---|---|
| Strings.ToInt32 | src/LSPClient.cpp:238 | A conversion to `int` keeps values in range and otherwise agrees with the input modulo 2^32. |
| Strings.Find | src/Editor/SearchLogic.cpp:12 | The leftmost occurrence at or after the start position, or none at or after it. |
| Strings.FindIs | src/Editor/SearchLogic.cpp:129 | Find returns `k` exactly when `k` is an occurrence at or after the start with none before it. |
| Strings.RFind | src/Editor/SearchLogic.cpp:65 | The rightmost occurrence starting at or before the limit, or none there. |
| Strings.RFindLast | src/Editor/SearchLogic.cpp:76 | The rightmost occurrence in the whole line, or none at all. |
| Strings.LastIndexOfChar | src/UI/TerminalPanel.cpp:20 | `find_last_of`: an index holding the character with none after it, or the character is absent. |
| Strings.ReplaceChar | src/LSPClient.cpp:66 | Same length. Each character equal to `from` becomes `to` and every other is kept. |
| Strings.NatToString | src/LSPClient.cpp:177 | The decimal form of a number is a non-empty run of digits. |
| Strings.Stoi | src/Core/Compiler.cpp:23-24 | `stoi` succeeds only on a text holding a digit, and throws on a text that starts with anything other than white space, a sign or a digit. |
| Strings.StoiOfDigits | src/Core/Compiler.cpp:23-24 | `stoi` of a digit run is its value, or throws when the value exceeds the `int` range. |
| Strings.StoiOfIntToString | src/Core/ConfigManager.cpp:12-14 | Reading back a printed `int` gives the same `int`. |
| Strings.GetLinesOfTerminated | src/Core/ConfigManager.cpp:37 | `getline` reads back exactly the lines written with a `"\n"` after each, when none holds a newline. |
| Strings.GetLinesNoTrailingEmpty | src/Core/Compiler.cpp:13 | A final newline does not produce an extra empty line. |
| JsonValue.AsInt | src/LSPClient.cpp:223-227 | `get<int>` succeeds exactly on numbers and booleans, and gives an in-range number unchanged. |
| JsonValue.StringValue | src/LSPClient.cpp:133-135 | `value(key, default)` throws on a non-object or a non-string member, gives the default for a missing key and the member otherwise. |
| JsonValue.IntValue | src/LSPClient.cpp:227 | `value(key, default)` for integers: succeeds exactly when the object's member, if present, converts, and gives the default for a missing key. |
| JsonValue.PathInt | src/LSPClient.cpp:223-225 | A two-level read succeeds only when both keys are present. |
| FrameCodec.DecodeStep | src/LSPClient.cpp:192-209 | One pass of the framing loop either stalls, or strictly shrinks the buffer: a corrupt header is dropped, or a non-empty body is cut out. |
| FrameCodec.HeaderStep | src/LSPClient.cpp:198-208 | After a header: an unreadable length drops everything up to the separator. A frame's body and rest put together are the text after the separator. |
| FrameCodec.Drain | src/LSPClient.cpp:192-209 | Running the loop to the end yields non-empty bodies and a buffer no longer than the input. |
| FrameCodec.FrameDecoder.Feed | src/LSPClient.cpp:190-209 | Appending a read and cutting frames returns the bodies and leaves the buffer that `Drain` of the old buffer plus the read gives. |
| FrameCodec.NextStep | src/LSPClient.cpp:193-208 | The imperative header search, length conversion and cut agree with `DecodeStep`. |
| FrameCodec.EncodeThenDecode | src/LSPClient.cpp:176-181 | A frame WriteToPipe writes decodes to its payload and leaves nothing behind. |
| FrameCodec.FreshDecoderRoundTrip | src/LSPClient.cpp:176-209 | A fresh read loop fed one written frame returns exactly that payload. |
| FrameCodec.LeadingGarbageDropped | src/LSPClient.cpp:193-194 | Bytes before the first `Content-Length: ` marker are discarded with the next frame. |
| FrameCodec.IncompleteTrailingFrameKept | src/LSPClient.cpp:206 | Complete frames come out, and a partial trailing frame stays in the buffer for the next read. |
| FrameCodec.FeedIsDrain | src/LSPClient.cpp:188-209 | Feeding a well-formed stream read by read equals draining everything received at once. |
| FrameCodec.ChunkingInvariance | src/LSPClient.cpp:188-209 | However the frames are split across reads, the payloads come out in order and the buffer ends empty. |
| FrameCodec.CorruptHeaderSkipped | src/LSPClient.cpp:199-205 | A length that `stoi` cannot read drops the header and its separator, and decoding resumes after them. |
| FrameCodec.NonPositiveLengthStalls | src/LSPClient.cpp:206 | A declared length of zero or less stops the loop with the buffer untouched. |
| FrameCodec.ShortBodyStalls | src/LSPClient.cpp:206 | A buffer shorter than the declared frame stops the loop with the buffer untouched. |
| FrameCodec.CorruptHeaderThenFrame | src/LSPClient.cpp:198-209 | A concrete stream: a garbage header followed by a valid frame yields exactly that frame. |
| Lsp.FileUri | src/LSPClient.cpp:78-83 | The URI is `file:///` followed by the path, with each backslash turned into `/`. |
| Lsp.FileUriHasNoBackslash | src/LSPClient.cpp:108-111 | No document URI the client sends holds a backslash. |
| Lsp.DocumentUrisAreFileUris | src/LSPClient.cpp:77-115 | didOpen, didChange and completion all name the document by the file URI of its path. |
| Lsp.NotificationHasNoId | src/LSPClient.cpp:157-174 | A request carries the id it was sent with. A notification carries no id. |
| Lsp.CompletionList | src/LSPClient.cpp:121-128 | An array result is itself the list. An object whose `items` member is an array gives that array, element by element in order. Any other shape gives no items. |
| Lsp.ItemOf | src/LSPClient.cpp:131-136 | An item converts exactly when it is an object whose present fields are strings. `label` defaults to `???`, `detail` to empty and `insertText` to the label. |
| Lsp.ItemsOf | src/LSPClient.cpp:131-137 | All items convert in order, one per element, or the whole conversion throws. |
| Lsp.CompletionActions | src/LSPClient.cpp:117-141 | The completion callback is called once, with the converted items, when every element converts. When an element throws, the exception is caught and the callback is not called. |
| Lsp.OtherShapeGivesNoItems | src/LSPClient.cpp:121-128 | A result of any other shape calls back with an empty list. |
| Lsp.ConversionErrorSkipsCallback | src/LSPClient.cpp:131-142 | One element that throws means the completion callback never fires. |
| Lsp.ConvertCompletion | src/LSPClient.cpp:131-137 | The handler's conversion loop computes `ItemsOf` of the list. |
| Lsp.DiagnosticOf | src/LSPClient.cpp:221-228 | A ranged entry converts exactly when its positions are integers and its message and severity have the right types. The line is the start line, the range runs from the start character to the end character, the message defaults to empty and the severity to 1. |
| Lsp.RangedMembers | src/LSPClient.cpp:221 | Exactly the entries with a range object are converted. |
| Lsp.ConvertRanged | src/LSPClient.cpp:220-230 | Every ranged entry converts, in order, or the whole message throws. |
| Lsp.CollectDiagnostics | src/LSPClient.cpp:218-231 | The diagnostics loop computes `DiagnosticsOf`: unranged entries are skipped and a throw aborts the message. |
| Lsp.DiagnosticsAbort | src/LSPClient.cpp:220-233 | One entry that throws means no diagnostics are delivered for the message. |
| Lsp.DiagnosticList | src/LSPClient.cpp:218-219 | An array `diagnostics` member is the list. A missing or non-array member reads as an empty list. |
| Lsp.PublishActions | src/LSPClient.cpp:213-234 | publishDiagnostics calls the diagnostics callback exactly when `params` is an object, its `uri` is a string, no ranged diagnostic throws and a callback is set. The callback gets that `uri` and the converted diagnostics, and no other callback is called. |
| Lsp.ResponseId | src/LSPClient.cpp:236-241 | A number id is used as is. A string id goes through `stoi`, and becomes -1 when that throws. |
| Lsp.Dispatch | src/LSPClient.cpp:211-255 | Handling a message only removes handlers from the map and only invokes callbacks, at most one. |
| Lsp.Respond | src/LSPClient.cpp:235-255 | A response only removes handlers and invokes at most one completion handler. |
| Lsp.DiagnosticsCheckedFirst | src/LSPClient.cpp:213-235 | A publishDiagnostics message never touches the handler map. |
| Lsp.ResponseConsumesHandler | src/LSPClient.cpp:242-253 | A response whose id has a handler erases it, and calls it only when the response has a `result`. |
| Lsp.UnknownIdIgnored | src/LSPClient.cpp:235-255 | A message whose id is missing, unreadable or unknown changes nothing. |
| Lsp.ResponseHandledOnce | src/LSPClient.cpp:244-248 | Replaying the same response does nothing: each handler runs at most once. |
| Lsp.ResponsesInAnyOrder | src/LSPClient.cpp:242-253 | Responses are matched by id. Two responses to different requests have the same effect in either order. |
| Lsp.StringIdMatchesNumber | src/LSPClient.cpp:237-240 | A string id holding a number's decimal form finds that number's handler. |
| Lsp.DispatchBody | src/LSPClient.cpp:211-261 | A body is parsed and dispatched. A body that does not parse is dropped, and the map only shrinks. |
| Lsp.DispatchBodies | src/LSPClient.cpp:209-256 | Bodies dispatched one after another only shrink the map and only invoke callbacks. |
| Lsp.DispatchBodiesAppend | src/LSPClient.cpp:209-256 | Dispatching `a + b` is dispatching `a`, then `b` against the map `a` leaves. |
| Lsp.UnparseableBodySkipped | src/LSPClient.cpp:257-261 | A body that fails to parse does not disturb the bodies after it. |
| Lsp.Received | src/LSPClient.cpp:186-188 | The read loop consumes the non-empty reads before the first empty one. |
| Lsp.StreamDispatchedInOrder | src/LSPClient.cpp:183-264 | However the server's frames are split across reads, the read loop dispatches exactly the server's messages, in order. |
| Lsp.IdsBelowRequest | src/LSPClient.cpp:157-165 | Each request takes a fresh id: the ids on the wire strictly increase. |
| Lsp.DispatchKeepsConsistent | src/LSPClient.cpp:211-255 | Reading messages keeps every pending handler under an id already sent, and the sent ids increasing. |
| Lsp.LspClient.constructor | src/LSPClient.h:51-65 | Starts not running, with id 1, no handlers and no diagnostics callback. |
| Lsp.LspClient.Start | src/LSPClient.cpp:14-48 | Succeeds exactly when the server process could be launched, and only then sets the running flag. |
| Lsp.LspClient.Stop | src/LSPClient.cpp:50-62 | Clears the running flag, and leaves pending handlers in the map. |
| Lsp.LspClient.SetDiagnosticsCallback | src/LSPClient.cpp:266-268 | Installs the diagnostics callback and changes nothing else. |
| Lsp.LspClient.WriteToPipe | src/LSPClient.cpp:176-181 | Writes the `Content-Length` frame of the dumped message. |
| Lsp.LspClient.SendRequest | src/LSPClient.cpp:157-165 | Writes a request under the next id and increments the counter. |
| Lsp.LspClient.SendNotification | src/LSPClient.cpp:167-174 | Writes a notification and leaves the counter alone. |
| Lsp.LspClient.Initialize | src/LSPClient.cpp:64-75 | Writes the `initialize` request, then the `initialized` notification. |
| Lsp.LspClient.DidOpen | src/LSPClient.cpp:77-90 | Writes `textDocument/didOpen` with the document's file URI, language and text. |
| Lsp.LspClient.DidChange | src/LSPClient.cpp:92-103 | Writes `textDocument/didChange` with the full text and version 2. |
| Lsp.LspClient.RequestCompletion | src/LSPClient.cpp:105-155 | Takes the next id, installs the handler under it before writing, then writes the completion request. |
| Lsp.LspClient.HandleMessage | src/LSPClient.cpp:211-255 | Handling one parsed message leaves the map and the callbacks that `Dispatch` gives. |
| Lsp.LspClient.HandlePublish | src/LSPClient.cpp:213-234 | The publishDiagnostics branch invokes what `PublishActions` gives. |
| Lsp.LspClient.HandleResponse | src/LSPClient.cpp:235-255 | The locked lookup-and-erase, then the call, as `Respond` gives. |
| Lsp.LspClient.HandleBodies | src/LSPClient.cpp:209-256 | The bodies of one read are dispatched in order, as `DispatchBodies` gives. |
| Lsp.LspClient.HandleRead | src/LSPClient.cpp:190-256 | One read: the frames are cut as `Drain` gives and their bodies are dispatched. |
| Lsp.LspClient.ReadLoop | src/LSPClient.cpp:183-264 | While running, the loop dispatches the bodies of every received read. When not running it does nothing. |
| TextEditorWidget.Split | src/Editor/AutocompleteLogic.cpp:56 | The widget's lines: at least one, none holding a newline. |
| TextEditorWidget.JoinSplit | src/Editor/AutocompleteLogic.cpp:56 | Joining the lines with newlines gives the text back. |
| TextEditorWidget.TextEditor.InsertText | src/Editor/EditorLogic.cpp:120-121 | The text goes in at the cursor, and the cursor ends behind it. |
| TextEditorWidget.TextEditor.Delete | src/Editor/EditorLogic.cpp:84-88 | The selected characters of one line go, and the cursor moves to the selection's start. |
| TextEditorWidget.InsertTwoLines | src/Editor/EditorLogic.cpp:121 | Text with one newline typed into a line cuts it in two around the cursor. |
| SearchLogic.IsAtInPrefix | src/Editor/SearchLogic.cpp:37-39 | An occurrence inside the first `m` characters of a line is one that ends by column `m`. |
| SearchLogic.SelectOccurrence | src/Editor/SearchLogic.cpp:14-17 | Selects the occurrence and puts the cursor at its end or its start. |
| SearchLogic.FindNext | src/Editor/SearchLogic.cpp:3-52 | Selects the first occurrence at or after the cursor. Failing that, it wraps to the top, where on the cursor line only occurrences ending by the cursor count. It selects nothing exactly when the query is empty or there is nothing to find. |
| SearchLogic.FindPrev | src/Editor/SearchLogic.cpp:54-106 | Selects the last occurrence before the cursor, or else the last occurrence in the text. It selects something exactly when the query is non-empty and occurs. |
| SearchLogic.CountMonotone | src/Editor/SearchLogic.cpp:116-131 | Counting more of a line never counts less. |
| SearchLogic.ScanLine | src/Editor/SearchLogic.cpp:117-130 | The inner loop counts every occurrence on the line, overlapping ones included. On the cursor line it numbers the last occurrence touching the cursor. |
| SearchLogic.UpdateSearchInfo | src/Editor/SearchLogic.cpp:108-132 | The count is the number of occurrences in the text, overlapping ones included. The index is the position of the one under the cursor. Both are 0 for an empty query. |
| SearchLogic.IndexWithinCount | src/Editor/SearchLogic.cpp:121-126 | The index never exceeds the count. |
| SearchLogic.IndexNamesTouchingOccurrence | src/Editor/SearchLogic.cpp:121-126 | The index is non-zero exactly when an occurrence on the cursor line touches the cursor column. |
| SearchLogic.TotalPrefix | src/Editor/SearchLogic.cpp:116-131 | The lines up to the cursor line hold no more occurrences than the whole text. |
| SearchLogic.OverlappingOccurrencesCounted | src/Editor/SearchLogic.cpp:129 | Restarting one column after each find counts "aa" twice in "aaa". |
| Autocomplete.OpenerIsSuffix | src/Editor/AutocompleteLogic.cpp:26-38 | The automatic trigger fires exactly when the text before the cursor ends in `.`, `->` or `::`. |
| Autocomplete.LastTrigger.constructor | src/Editor/AutocompleteLogic.cpp:41-42 | The last trigger position starts at (-1, -1). |
| Autocomplete.CheckTrigger | src/Editor/AutocompleteLogic.cpp:17-50 | A request is flagged on Ctrl+Space, or after an opener at a new place. The place is then remembered. |
| Autocomplete.SendCompletionRequest | src/Editor/AutocompleteLogic.cpp:52-67 | A flagged request remembers the cursor and sends didChange with the full text. It then registers the handler and writes the completion request under the next id. |
| Autocomplete.AutocompleteState.constructor | src/Editor/AutocompleteLogic.cpp:6-12 | The popup starts closed and empty, with no results pending. |
| Autocomplete.AutocompleteState.Deliver | src/Editor/AutocompleteLogic.cpp:59-66 | The callback replaces the pending results with the delivered ones and marks them new. |
| Autocomplete.Taken | src/Editor/AutocompleteLogic.cpp:69-84 | New results replace the list. The popup opens on the first entry exactly when there is one, and a shown popup always has a selected entry. |
| Autocomplete.AutocompleteState.TakeResults | src/Editor/AutocompleteLogic.cpp:69-84 | The transfer block updates the popup as `Taken` gives. |
| Autocomplete.ArrowsCycle | src/Editor/AutocompleteLogic.cpp:102-107 | Up and Down keep the selection on an entry, wrap at both ends and undo each other. |
| Autocomplete.PopupStepKeepsSelection | src/Editor/AutocompleteLogic.cpp:86-129 | A frame never leaves the popup shown without a selected entry. |
| Autocomplete.AcceptInsertsSelection | src/Editor/AutocompleteLogic.cpp:108-119 | An entry is inserted exactly when the popup is in focus with the cursor unmoved and Enter or Tab is pressed without an arrow. The popup then closes, and Enter is marked consumed. |
| Autocomplete.LeavingClosesPopup | src/Editor/AutocompleteLogic.cpp:87-97 | Losing focus or moving the cursor closes the popup and gives the keys back to the widget. |
| Autocomplete.TypingClosesPopup | src/Editor/AutocompleteLogic.cpp:124-126 | Typing a character leaves the popup closed, and no key opens a hidden popup. |
| Autocomplete.HandlePopup | src/Editor/AutocompleteLogic.cpp:86-129 | The popup block updates the state and the widget as `PopupStep` gives. After an accepted entry the text is typed at the cursor and the selection collapses to the new cursor; otherwise the text, cursor and selection are kept. |
| Autocomplete.AnswerKeys | src/Editor/AutocompleteLogic.cpp:99-126 | The keys against the shown popup act as `KeysStep` gives. After Enter or Tab inserts an entry the selection collapses to the new cursor; otherwise the text, cursor and selection are kept. |
| Autocomplete.Accept | src/Editor/AutocompleteLogic.cpp:109-118 | The selected entry's text is typed at the cursor, the cursor and the collapsed selection end behind it, and the widget's keyboard handling ends off. |
| Autocomplete.HandleAutocompleteLogic | src/Editor/AutocompleteLogic.cpp:6-130 | Disabled: the popup closes and empties, nothing is sent, and the text, cursor, selection, trigger position and Enter flag are kept. Enabled: trigger, request, transfer and popup, in that order; an accepted entry leaves the selection collapsed at the new cursor. |
| EditorLogic.Closer | src/Editor/EditorLogic.cpp:46-56 | Only `(`, `[`, `"` and `'` get a closing partner, and it is a closing character. |
| EditorLogic.LastNotBlank | src/Editor/EditorLogic.cpp:106 | `find_last_not_of(" \t\r\n")`: the last non-blank index, or the line is all blank. |
| EditorLogic.FirstNotBlank | src/Editor/EditorLogic.cpp:113 | `find_first_not_of(" \t\r\n")`: the first non-blank index, or the line is all blank. |
| EditorLogic.Indent | src/Editor/EditorLogic.cpp:110 | The longest prefix of spaces and tabs. |
| EditorLogic.IndentUnique | src/Editor/EditorLogic.cpp:110 | Only one prefix of spaces and tabs is followed by a non-indent character or the end. |
| EditorLogic.ClosersAppend | src/Editor/EditorLogic.cpp:46-68 | The closers of later characters go in front of earlier ones, since each is typed at the cursor. |
| EditorLogic.ClosersAreClosing | src/Editor/EditorLogic.cpp:46-68 | Only closing characters are inserted, at most one per typed character. None is inserted exactly when no opener was typed. |
| EditorLogic.RenderStatics.constructor | src/Editor/EditorLogic.cpp:6-10 | The file-level statics start at their initial values. |
| EditorLogic.TrackBackspace | src/Editor/EditorLogic.cpp:19-44 | The auto-close flag survives only while the cursor stays put. A Backspace without a selection ends it, and schedules the closer's deletion inside a fresh pair. |
| EditorLogic.AutoCloseQueue | src/Editor/EditorLogic.cpp:46-68 | Each typed opener's closer goes in after the cursor, and the cursor stays put. The flag follows the last character. |
| EditorLogic.HandlePreRenderLogic | src/Editor/EditorLogic.cpp:12-69 | Off the text nothing changes. Otherwise the line gains the closers of the typed openers when auto-closing is on, and the statics are updated. The selection collapses behind the cursor when a closer goes in, and is kept otherwise. |
| EditorLogic.RemoveAt | src/Editor/EditorLogic.cpp:84-88 | Removing one character shortens the line by one and keeps the rest. |
| EditorLogic.DeleteScheduledCloser | src/Editor/EditorLogic.cpp:76-93 | The schedule is always cleared. The closer after the cursor is deleted when the cursor is still at the scheduled place. |
| EditorLogic.LeadingIndent | src/Editor/EditorLogic.cpp:109-110 | The loop collects exactly `Indent` of the line. |
| EditorLogic.OpenBlock | src/Editor/EditorLogic.cpp:115-126 | The blank line becomes the indented body line followed by the closing brace line, and the cursor ends on the body line. |
| EditorLogic.SmartIndent | src/Editor/EditorLogic.cpp:95-129 | An Enter the popup consumed only clears that flag. Otherwise, after a line ending in `{` on a blank line, the block opens. |
| EditorLogic.HandlePostRenderLogic | src/Editor/EditorLogic.cpp:71-130 | The deletion block, then the Enter block, both at the cursor taken at the start. The selection collapses to the cursor after a deletion, to the new line's indentation after a block opens, and is kept otherwise. |
| EditorLogic.PairDeletionRestoresLine | src/Editor/EditorLogic.cpp:25-44 | Backspace inside a fresh pair followed by deleting the closer gives the line before the opener was typed. |
| EditorLogic.BlockOnEmptyLine | src/Editor/EditorLogic.cpp:113-126 | On an empty line the block is exactly the indent plus four spaces, then the indent and `}`. |
| Compiler.TailShape | src/Core/Compiler.cpp:10 | A matching tail is `:`, digits, `:`, digits, `:`, the white space, and a message of non-terminator characters. |
| Compiler.MatchFromIsLongest | src/Core/Compiler.cpp:10 | The greedy `(.*)` takes the longest file name after which the rest matches. |
| Compiler.Match | src/Core/Compiler.cpp:20 | A match cuts the line in order: file name, line digits, column digits, message. |
| Compiler.MatchIsLongest | src/Core/Compiler.cpp:10-20 | The match covers the whole line, and its file name is the longest one possible. |
| Compiler.StripCR | src/Core/Compiler.cpp:15 | At most one trailing `\r` comes off. |
| Compiler.IsErrorMessage | src/Core/Compiler.cpp:28-31 | A message is an error exactly when it mentions neither `warning` nor `note`. |
| Compiler.ParseLine | src/Core/Compiler.cpp:15-34 | The full message is the stripped line. A line that does not match keeps the default fields. |
| Compiler.Record | src/Core/Compiler.cpp:17-25 | A record keeps the whole stripped line as its full message. |
| Compiler.RecordOfGroups | src/Core/Compiler.cpp:20-31 | A matched line comes apart into file, digits, white space and message, which reassemble the line. The numbers are the digits' values, and the record is an error unless the message mentions `warning` or `note`. |
| Compiler.OneRecordPerLine | src/Core/Compiler.cpp:13-35 | One record per line, in order. The parse throws exactly when some line does. |
| Compiler.ParseEachLine | src/Core/Compiler.cpp:13-35 | The getline loop collects the records of the lines as `Collect` gives. |
| Compiler.ParseCompilerOutput | src/Core/Compiler.cpp:5-36 | One record per line `getline` reads, each as `ParseLine` gives. The parse throws exactly when a number does not fit. |
| ConfigManager.BoolText | src/Core/ConfigManager.cpp:16-18 | A switch is written as `1` exactly when it is on. |
| ConfigManager.NonEmpty | src/Core/ConfigManager.cpp:20-24 | The paths written are exactly the non-empty ones, each as often as it is open. |
| ConfigManager.NonEmptyAppend | src/Core/ConfigManager.cpp:20-24 | The paths are filtered one at a time, in order: a path is written exactly when it is non-empty. |
| ConfigManager.NonEmptyKeepsAll | src/Core/ConfigManager.cpp:20-24 | With no empty path open, every open path is written, in order. |
| ConfigManager.SaveConfig | src/Core/ConfigManager.cpp:7-27 | Writes nine lines plus one for each non-empty open file. What the lines hold is stated by the round-trip lemmas below. |
| ConfigManager.KeyOf | src/Core/ConfigManager.cpp:43-52 | A key names a setting exactly when it is one of the ten known names. |
| ConfigManager.Set | src/Core/ConfigManager.cpp:43-52 | Numbers throw exactly when `stoi` or `stof` does. A switch is on exactly when the value is `1`, and a path is appended. |
| ConfigManager.ApplyLine | src/Core/ConfigManager.cpp:38-41 | A line without `=` is skipped. |
| ConfigManager.KeyValueLine | src/Core/ConfigManager.cpp:38-52 | A line splits at its first `=`, so the value keeps further `=`. An unknown key is skipped. |
| ConfigManager.Load | src/Core/ConfigManager.cpp:29-58 | A missing or empty file gives the initial settings: the defaults with directory `.` and active tab -1. |
| ConfigManager.LoadConfig | src/Core/ConfigManager.cpp:29-58 | The getline loop computes `Load`. |
| ConfigManager.ApplyLinesAppend | src/Core/ConfigManager.cpp:37-54 | Reading `a` then `b` is reading `a + b`. |
| ConfigManager.LineBack | src/Core/ConfigManager.cpp:38-52 | A line written for a setting is read back into that setting. |
| ConfigManager.LastValueWins | src/Core/ConfigManager.cpp:43-51 | For every setting but the open files, a later line for the same key overrides an earlier one. |
| ConfigManager.FilesAppend | src/Core/ConfigManager.cpp:52 | `file=` lines append their paths in order. |
| ConfigManager.ScalarsRoundTrip | src/Core/ConfigManager.cpp:10-18 | The nine scalar lines read back into their settings. |
| ConfigManager.SaveLoadRoundTrip | src/Core/ConfigManager.cpp:7-58 | Loading what was saved gives the settings back, as long as no string holds a newline. The empty paths are dropped, the zoom is read as `stof` reads its printed form, and the settings window is closed. |
| ConfigManager.NoNewlineInSaved | src/Core/ConfigManager.cpp:10-22 | No written line holds a newline when no saved string does. |
| TerminalPanel.Appended | src/UI/TerminalPanel.cpp:15-18 | The new output is appended. Past 100000 characters only the newest 50000 are kept, so the transcript never exceeds 100000 and always ends the text. |
| TerminalPanel.SplitIsUnique | src/UI/TerminalPanel.cpp:20-27 | There is one way to split a text into a newline-terminated history and a newline-free prompt. |
| TerminalPanel.SplitAtNewline | src/UI/TerminalPanel.cpp:20-23 | Cutting just after the last newline is that split. |
| TerminalPanel.Transcript.constructor | src/UI/TerminalPanel.cpp:10-11 | The three statics start empty. |
| TerminalPanel.Transcript.Update | src/UI/TerminalPanel.cpp:13-28 | No output changes nothing. Otherwise the transcript is appended and cut, and history and prompt split it at its last newline. |

## Left out

- The server process, the pipes and the reader thread are left out (CreateProcess, ReadFile, WriteFile). Each client method is one atomic step, and what is written is a ghost trace of frames and registrations. The mutexes have no counterpart, so interleavings of the reader thread with the UI thread are not modelled.
- Reads come in as a sequence of strings. An empty read stands for a failed or closed pipe, which ends ReadLoop.
- JSON text is not parsed or printed. `json::parse` and `dump` are functions given to the client, and JSON numbers are integers.
- Callbacks are opaque tags. Invoking one is recorded as an action, and the code they run (for example `AutocompleteState.Deliver`) is modelled separately.
- Console logging (`std::cout`, `std::cerr`) has no effect in the model.
- The ImGui TextEditor widget is not part of this model. `text_editor.dfy` stands in for the calls the logic makes, with small contracts. Columns are character indices rather than visual columns, and tabs and UTF-8 are not modelled. `InsertText` does not replace a selection.
- ImGui input is a parameter: the pressed keys, the typed characters and the window focus.
- ApplyGlobalTheme and all drawing (the popup window, the terminal output, the input field) are left out.
- The ImGui::Begin early return of ShowTerminal (src/UI/TerminalPanel.cpp:5-8) is left out: when the window is collapsed, the transcript is not updated that frame.
- Terminal::GetOutput and the terminal process are left out. The new output is the parameter of `Transcript.Update`.
- The file system is left out. `fin.ini` is a string, `None` when it cannot be opened. Saving always succeeds.
- The float `zoom` is a `real`. How `operator<<` prints it and how `std::stof` reads it are parameters, so the zoom round trip holds exactly as far as `stof(show(z))` does.
- ConfigManager.SaveLoadRoundTrip: assumes no saved string holds a newline, because a newline inside a value splits its line on reading.
- Lsp.LspClient.nextId: the request-id counter is an unbounded integer. The source's `int` counter (src/LSPClient.h:63, incremented at src/LSPClient.cpp:106 and :160) would overflow after 2^31-1 requests, which C++ leaves undefined; the model does not wrap it.
- Lsp.IdsBelowRequest: strictly increasing ids hold for the unbounded counter only, so for fewer than 2^31-1 requests in the source.
- The counts of UpdateSearchInfo and the search coordinates are unbounded integers. An `int` overflow on texts of more than 2^31 occurrences is not modelled.
- `std::regex` is not modelled in general. Only the one pattern of ParseCompilerOutput is modelled, with ECMAScript greedy semantics.
- Exceptions that nothing catches (`std::stoi` in LoadConfig and ParseCompilerOutput) are a `None` result. What happens to the program afterwards is left out.
- Lsp.LspClient.Start: only whether the launch succeeded is modelled. The process and pipe handles are not.
- Compiler.ParseLine: its own contract states the full message and the unmatched case. The fields of a matched line are stated by Compiler.RecordOfGroups.
- TerminalPanel.Transcript.Update: requires the invariant that the class keeps (`Valid`), which the static strings satisfy from the start.
- SearchLogic.FindNext: requires the cursor on a line of the text. With the cursor past the last line, the wrap-around loop of src/Editor/SearchLogic.cpp:34-42 would index past the end, which the widget never allows.
