/**
 * The compiler-output parser: the output of a build is split into lines,
 * and each line is classified against the pattern
 * `^(.*):(\d+):(\d+):\s+(.*)$` (ECMAScript syntax, greedy) into a file
 * name, a line, a column and a message; a message mentioning "warning" or
 * "note" is not an error.
 */
module Compiler {
  import opened Strings

  datatype ParsedError = ParsedError(
    fullMessage: string,
    filename: string,
    line: Int32,
    col: Int32,
    message: string,
    isError: bool)

  /** A record with the defaults of every field but the text of the line. */
  function Unmatched(text: string): ParsedError {
    ParsedError(text, "", 0, 0, "", true)
  }

  // ---------------------------------------------------------------------
  // The pattern

  /** What `.` matches: anything but a line terminator. */
  predicate IsDot(c: char) {
    c != '\n' && c != '\r'
  }

  predicate AllDots(s: string, from: nat, to: nat)
    requires from <= to <= |s|
  {
    forall t :: from <= t < to ==> IsDot(s[t])
  }

  /** Where the groups of a match end: `s[..nameEnd]`, then the digits up to `lineEnd` and `colEnd`, the message from `msgStart`. */
  datatype Groups = Groups(nameEnd: nat, lineEnd: nat, colEnd: nat, msgStart: nat)

  /**
   * `:(\d+):(\d+):\s+(.*)$` matched from index `i`.  The digit runs end at
   * the next ':' or the match fails, and `(.*)$` accepts the rest only when
   * it holds no line terminator, so taking the longest run of white space
   * is the only way the tail can match.
   */
  function TailAt(s: string, i: nat): (r: Option<Groups>)
    requires i <= |s|
    ensures r.Some? ==> r.value.nameEnd == i < r.value.lineEnd < r.value.colEnd < r.value.msgStart <= |s|
  {
    if !(i < |s| && s[i] == ':') then None
    else
      var j := SkipDigits(s, i + 1);
      if j == i + 1 || j >= |s| || s[j] != ':' then None
      else
        var k := SkipDigits(s, j + 1);
        if k == j + 1 || k >= |s| || s[k] != ':' then None
        else
          var m := SkipSpaces(s, k + 1);
          if m == k + 1 || !AllDots(s, m, |s|) then None
          else Some(Groups(i, j, k, m))
  }

  /**
   * A tail that matches is ':', a run of digits, ':', a run of digits, ':',
   * the longest run of white space after it, and a message of `.`
   * characters that starts with no white space.
   */
  lemma {:induction false} TailShape(s: string, i: nat)
    requires i <= |s| && TailAt(s, i).Some?
    ensures var g := TailAt(s, i).value;
      g.nameEnd == i && i < g.lineEnd < g.colEnd < g.msgStart <= |s| &&
      s[i] == ':' && s[g.lineEnd] == ':' && s[g.colEnd] == ':' &&
      g.lineEnd > i + 1 && (forall t :: i < t < g.lineEnd ==> IsDigit(s[t])) &&
      g.colEnd > g.lineEnd + 1 && (forall t :: g.lineEnd < t < g.colEnd ==> IsDigit(s[t])) &&
      g.msgStart > g.colEnd + 1 && (forall t :: g.colEnd < t < g.msgStart ==> IsCSpace(s[t])) &&
      (g.msgStart < |s| ==> !IsCSpace(s[g.msgStart])) &&
      AllDots(s, g.msgStart, |s|)
  {
    var j := SkipDigits(s, i + 1);
    var k := SkipDigits(s, j + 1);
    SkipsAreRuns(s, i + 1, j + 1, k + 1);
  }

  /** The runs SkipDigits and SkipSpaces step over. */
  lemma {:induction false} SkipsAreRuns(s: string, a: nat, b: nat, c: nat)
    requires a <= |s| && b <= |s| && c <= |s|
    ensures forall t :: a <= t < SkipDigits(s, a) ==> IsDigit(s[t])
    ensures forall t :: b <= t < SkipDigits(s, b) ==> IsDigit(s[t])
    ensures forall t :: c <= t < SkipSpaces(s, c) ==> IsCSpace(s[t])
    ensures SkipSpaces(s, c) < |s| ==> !IsCSpace(s[SkipSpaces(s, c)])
  {
    DigitRun(s, a);
    DigitRun(s, b);
    SpaceRun(s, c);
  }

  lemma {:induction false} DigitRun(s: string, a: nat)
    requires a <= |s|
    ensures forall t :: a <= t < SkipDigits(s, a) ==> IsDigit(s[t])
    decreases |s| - a
  {
    if a < |s| && IsDigit(s[a]) {
      DigitRun(s, a + 1);
    }
  }

  lemma {:induction false} SpaceRun(s: string, c: nat)
    requires c <= |s|
    ensures forall t :: c <= t < SkipSpaces(s, c) ==> IsCSpace(s[t])
    ensures SkipSpaces(s, c) < |s| ==> !IsCSpace(s[SkipSpaces(s, c)])
    decreases |s| - c
  {
    if c < |s| && IsCSpace(s[c]) {
      SpaceRun(s, c + 1);
    }
  }

  /**
   * The greedy `(.*)`: the longest file name, ending at or before `i`, made
   * of `.` characters and followed by a tail that matches.
   */
  function MatchFrom(s: string, i: nat): (r: Option<Groups>)
    requires i <= |s|
    ensures r.Some? ==> r.value.nameEnd <= i && r.value.nameEnd < r.value.lineEnd < r.value.colEnd < r.value.msgStart <= |s|
    decreases i
  {
    if AllDots(s, 0, i) && TailAt(s, i).Some? then TailAt(s, i)
    else if i == 0 then None
    else MatchFrom(s, i - 1)
  }

  /** The match found is one: a file name of `.` characters followed by a tail that matches. */
  lemma {:induction false} MatchFromFound(s: string, i: nat)
    requires i <= |s|
    ensures var r := MatchFrom(s, i);
      r.Some? ==> r.value.nameEnd <= i && AllDots(s, 0, r.value.nameEnd) && TailAt(s, r.value.nameEnd) == r
    decreases i
  {
    if !(AllDots(s, 0, i) && TailAt(s, i).Some?) && i > 0 {
      MatchFromFound(s, i - 1);
    }
  }

  /** No longer file name gives a match. */
  lemma {:induction false} MatchFromIsLongest(s: string, i: nat)
    requires i <= |s|
    ensures var r := MatchFrom(s, i);
      (r.Some? ==> forall e :: r.value.nameEnd < e <= i && AllDots(s, 0, e) ==> TailAt(s, e).None?) &&
      (r.None? ==> forall e :: 0 <= e <= i && AllDots(s, 0, e) ==> TailAt(s, e).None?)
    decreases i
  {
    if !(AllDots(s, 0, i) && TailAt(s, i).Some?) && i > 0 {
      MatchFromIsLongest(s, i - 1);
    }
  }

  /** std::regex_search with the pattern: anchored at both ends, so a match covers the whole line. */
  function Match(s: string): (r: Option<Groups>)
    ensures r.Some? ==> r.value.nameEnd < r.value.lineEnd < r.value.colEnd < r.value.msgStart <= |s|
  {
    MatchFrom(s, |s|)
  }

  // ---------------------------------------------------------------------
  // One line

  /** At most one '\r' comes off the end of the line. */
  function StripCR(line: string): (r: string)
    ensures r == line || (line == r + "\r")
    ensures line != [] && line[|line| - 1] == '\r' ==> |r| == |line| - 1
  {
    if line != [] && line[|line| - 1] == '\r' then line[..|line| - 1] else line
  }

  /** A message that mentions "warning" or "note" anywhere does not report an error. */
  function IsErrorMessage(message: string): (r: bool)
    ensures !r <==> (exists p :: IsAt(message, "warning", p)) || (exists p :: IsAt(message, "note", p))
  {
    var w := Find(message, "warning", 0);
    var n := Find(message, "note", 0);
    assert w.Some? ==> IsAt(message, "warning", w.value);
    assert n.Some? ==> IsAt(message, "note", n.value);
    !(w.Some? || n.Some?)
  }

  /**
   * The record for one line; `None` is the out_of_range exception std::stoi
   * throws on a line or column too large for an `int`, which nothing catches.
   */
  function ParseLine(raw: string): (r: Option<ParsedError>)
    ensures r.Some? ==> r.value.fullMessage == StripCR(raw)
    ensures Match(StripCR(raw)).None? ==>
      r.Some? && r.value.filename == "" && r.value.message == "" &&
      r.value.line == 0 && r.value.col == 0 && r.value.isError
  {
    var s := StripCR(raw);
    match Match(s)
    case None => Some(Unmatched(s))
    case Some(g) => Record(s, g, Stoi(s[g.nameEnd + 1..g.lineEnd]), Stoi(s[g.lineEnd + 1..g.colEnd]))
  }

  /**
   * The record of a matching line cut at `g`, given what std::stoi made of
   * the line and column digits.
   */
  function Record(s: string, g: Groups, lineNo: Option<Int32>, colNo: Option<Int32>): (r: Option<ParsedError>)
    requires g.nameEnd < g.lineEnd < g.colEnd < g.msgStart <= |s|
    ensures r.Some? ==> r.value.fullMessage == s
  {
    if lineNo.None? || colNo.None? then None
    else
      var message := s[g.msgStart..];
      Some(ParsedError(s, s[..g.nameEnd], lineNo.value, colNo.value, message, IsErrorMessage(message)))
  }

  /**
   * What a record says about the line `s` it came from, cut at `g`: the
   * line comes apart into the file name, ':', the line digits, ':', the
   * column digits, ':', white space and the message, which put together
   * give the line back; the numbers are the values of the digits, or the
   * parse throws when one does not fit in an `int`; and the line is an
   * error unless the message mentions "warning" or "note".
   */
  ghost predicate Describes(s: string, g: Groups, e: Option<ParsedError>)
    requires g.nameEnd < g.lineEnd < g.colEnd < g.msgStart <= |s|
  {
    var lineDigits := s[g.nameEnd + 1..g.lineEnd];
    var colDigits := s[g.lineEnd + 1..g.colEnd];
    var space := s[g.colEnd + 1..g.msgStart];
    lineDigits != [] && (forall t :: 0 <= t < |lineDigits| ==> IsDigit(lineDigits[t])) &&
    colDigits != [] && (forall t :: 0 <= t < |colDigits| ==> IsDigit(colDigits[t])) &&
    space != [] && (forall t :: 0 <= t < |space| ==> IsCSpace(space[t])) &&
    (e.None? <==> DigitsValue(lineDigits, 0, |lineDigits|) > INT_MAX || DigitsValue(colDigits, 0, |colDigits|) > INT_MAX) &&
    (e.Some? ==>
      e.value.fullMessage == s &&
      e.value.filename + ":" + lineDigits + ":" + colDigits + ":" + space + e.value.message == s &&
      e.value.line == DigitsValue(lineDigits, 0, |lineDigits|) &&
      e.value.col == DigitsValue(colDigits, 0, |colDigits|) &&
      (!e.value.isError <==> (exists p :: IsAt(e.value.message, "warning", p)) || (exists p :: IsAt(e.value.message, "note", p))))
  }

  /** `s` cut at `g` is a file name, ':', digits, ':', digits, ':' and white space before the message. */
  ghost predicate Shaped(s: string, g: Groups) {
    g.nameEnd < g.lineEnd < g.colEnd < g.msgStart <= |s| &&
    s[g.nameEnd] == ':' && s[g.lineEnd] == ':' && s[g.colEnd] == ':' &&
    g.lineEnd > g.nameEnd + 1 && (forall t :: g.nameEnd < t < g.lineEnd ==> IsDigit(s[t])) &&
    g.colEnd > g.lineEnd + 1 && (forall t :: g.lineEnd < t < g.colEnd ==> IsDigit(s[t])) &&
    g.msgStart > g.colEnd + 1 && (forall t :: g.colEnd < t < g.msgStart ==> IsCSpace(s[t]))
  }

  /**
   * The match covers the whole line: the file name and the message are made
   * of `.` characters, and the file name is the longest one after which the
   * rest of the line matches.
   */
  lemma {:induction false} MatchIsLongest(s: string)
    requires Match(s).Some?
    ensures var g := Match(s).value;
      Shaped(s, g) && AllDots(s, 0, g.nameEnd) && AllDots(s, g.msgStart, |s|) &&
      (forall e :: g.nameEnd < e <= |s| && AllDots(s, 0, e) ==> TailAt(s, e).None?)
  {
    var g := Match(s).value;
    MatchFromFound(s, |s|);
    MatchFromIsLongest(s, |s|);
    TailShape(s, g.nameEnd);
  }

  /** The record of a tail that matched, with the numbers std::stoi reads from its digits. */
  lemma {:induction false} RecordOfGroups(s: string, g: Groups)
    requires Shaped(s, g)
    ensures Describes(s, g, Record(s, g, Stoi(s[g.nameEnd + 1..g.lineEnd]), Stoi(s[g.lineEnd + 1..g.colEnd])))
  {
    DigitSlice(s, g.nameEnd, g.lineEnd);
    DigitSlice(s, g.lineEnd, g.colEnd);
    RecordOfMatch(s, g, Stoi(s[g.nameEnd + 1..g.lineEnd]), Stoi(s[g.lineEnd + 1..g.colEnd]));
  }

  /** The record of a tail that matched, in terms of its pieces. */
  lemma {:induction false} RecordOfMatch(s: string, g: Groups, lineNo: Option<Int32>, colNo: Option<Int32>)
    requires Shaped(s, g)
    requires var d := s[g.nameEnd + 1..g.lineEnd];
      lineNo == if DigitsValue(d, 0, |d|) <= INT_MAX then Some(DigitsValue(d, 0, |d|)) else None
    requires var d := s[g.lineEnd + 1..g.colEnd];
      colNo == if DigitsValue(d, 0, |d|) <= INT_MAX then Some(DigitsValue(d, 0, |d|)) else None
    ensures Describes(s, g, Record(s, g, lineNo, colNo))
  {
    var lineDigits := s[g.nameEnd + 1..g.lineEnd];
    var colDigits := s[g.lineEnd + 1..g.colEnd];
    var space := s[g.colEnd + 1..g.msgStart];
    assert forall t :: 0 <= t < |lineDigits| ==> lineDigits[t] == s[g.nameEnd + 1 + t];
    assert forall t :: 0 <= t < |colDigits| ==> colDigits[t] == s[g.lineEnd + 1 + t];
    assert forall t :: 0 <= t < |space| ==> space[t] == s[g.colEnd + 1 + t];
    var r := Record(s, g, lineNo, colNo);
    if r.Some? {
      var e := r.value;
      assert e.filename == s[..g.nameEnd] && e.message == s[g.msgStart..];
      Reassemble(s, g.nameEnd, g.lineEnd, g.colEnd, g.msgStart, e.filename, lineDigits, colDigits, space, e.message);
    }
  }

  /** The digits between two cut points, and the number std::stoi reads from them. */
  lemma {:induction false} DigitSlice(s: string, a: nat, b: nat)
    requires a + 1 < b <= |s| && forall t :: a < t < b ==> IsDigit(s[t])
    ensures var d := s[a + 1..b];
      d != [] && (forall t :: 0 <= t < |d| ==> IsDigit(d[t])) &&
      Stoi(d) == if DigitsValue(d, 0, |d|) <= INT_MAX then Some(DigitsValue(d, 0, |d|)) else None
  {
    var d := s[a + 1..b];
    assert forall t :: 0 <= t < |d| ==> d[t] == s[a + 1 + t];
    StoiOfDigits(d);
  }

  /** A string cut at three colons and one more place is the pieces put back together. */
  lemma {:induction false} Reassemble(s: string, a: nat, b: nat, c: nat, d: nat,
                                      name: string, digits1: string, digits2: string, space: string, rest: string)
    requires a < b < c < d <= |s| && s[a] == ':' && s[b] == ':' && s[c] == ':'
    requires name == s[..a] && digits1 == s[a + 1..b] && digits2 == s[b + 1..c] && space == s[c + 1..d] && rest == s[d..]
    ensures name + ":" + digits1 + ":" + digits2 + ":" + space + rest == s
  {
    assert s[..a] + [s[a]] + s[a + 1..b] == s[..b];
    assert s[..b] + [s[b]] + s[b + 1..c] == s[..c];
    assert s[..c] + [s[c]] + s[c + 1..d] == s[..d];
    assert s[..d] + s[d..] == s;
  }

  // ---------------------------------------------------------------------
  // The whole output

  /** The records of a run of lines, or the exception of the first line that throws. */
  function Collect(classify: string -> Option<ParsedError>, lines: seq<string>): Option<seq<ParsedError>> {
    if lines == [] then Some([])
    else match classify(lines[0])
      case None => None
      case Some(e) => Prepend([e], Collect(classify, lines[1..]))
  }

  function Prepend(es: seq<ParsedError>, rest: Option<seq<ParsedError>>): Option<seq<ParsedError>> {
    match rest
    case None => None
    case Some(r) => Some(es + r)
  }

  /** One record per line, in the order of the lines; the parse throws exactly when some line does. */
  lemma {:induction false} OneRecordPerLine(classify: string -> Option<ParsedError>, lines: seq<string>)
    ensures var r := Collect(classify, lines);
      (r.None? <==> exists i :: 0 <= i < |lines| && classify(lines[i]).None?) &&
      (r.Some? ==> |r.value| == |lines| && forall i :: 0 <= i < |lines| ==> Some(r.value[i]) == classify(lines[i]))
  {
    if lines != [] {
      OneRecordPerLine(classify, lines[1..]);
      var r := Collect(classify, lines);
      if classify(lines[0]).Some? && Collect(classify, lines[1..]).Some? {
        var rest := Collect(classify, lines[1..]).value;
        assert r.value == [classify(lines[0]).value] + rest;
        forall i | 0 <= i < |lines| ensures Some(r.value[i]) == classify(lines[i]) {
          if i > 0 {
            assert lines[i] == lines[1..][i - 1];
          }
        }
      }
      if r.Some? {
        assert classify(lines[0]).Some?;
      }
      if exists i :: 0 <= i < |lines| && classify(lines[i]).None? {
        var i :| 0 <= i < |lines| && classify(lines[i]).None?;
        if i > 0 {
          assert lines[i] == lines[1..][i - 1];
        }
      }
    }
  }

  /**
   * ParseCompilerOutput: one record per line std::getline reads, each
   * classified by ParseLine, or the exception of a number too large.
   */
  method ParseCompilerOutput(output: string) returns (r: Option<seq<ParsedError>>)
    ensures var lines := GetLines(output);
      (r.None? <==> exists i :: 0 <= i < |lines| && ParseLine(lines[i]).None?) &&
      (r.Some? ==> |r.value| == |lines| && forall i :: 0 <= i < |lines| ==> Some(r.value[i]) == ParseLine(lines[i]))
  {
    r := ParseEachLine(ParseLine, output);
    OneRecordPerLine(ParseLine, GetLines(output));
  }

  /** The getline loop, for any classification of the lines it reads. */
  method ParseEachLine(classify: string -> Option<ParsedError>, output: string) returns (r: Option<seq<ParsedError>>)
    ensures r == Collect(classify, GetLines(output))
  {
    var errors: seq<ParsedError> := [];
    var rest := output;
    assert Collect(classify, GetLines(output)) == Prepend([], Collect(classify, GetLines(output))) by {
      var all := Collect(classify, GetLines(output));
      assert all.Some? ==> [] + all.value == all.value;
    }
    while rest != []
      invariant Collect(classify, GetLines(output)) == Prepend(errors, Collect(classify, GetLines(rest)))
      decreases |rest|
    {
      var line: string;
      ghost var before := rest;
      match IndexOfChar(rest, '\n', 0) {
        case None =>
          line := rest;
          rest := [];
        case Some(i) =>
          line := rest[..i];
          rest := rest[i + 1..];
      }
      assert GetLines(before) == [line] + GetLines(rest);
      ParseStep(classify, errors, line, GetLines(rest));
      var err := classify(line);
      if err.None? {
        return None;
      }
      errors := errors + [err.value];
    }
    ParseDone(classify, errors);
    r := Some(errors);
  }

  /** One more line read: its record joins the others, or its exception ends the parse. */
  lemma {:induction false} ParseStep(classify: string -> Option<ParsedError>, errors: seq<ParsedError>, line: string,
                                     lines: seq<string>)
    ensures Prepend(errors, Collect(classify, [line] + lines)) ==
      match classify(line)
      case None => None
      case Some(e) => Prepend(errors + [e], Collect(classify, lines))
  {
    assert ([line] + lines)[0] == line && ([line] + lines)[1..] == lines;
    match classify(line)
    case None =>
    case Some(e) =>
      match Collect(classify, lines)
      case None =>
      case Some(rs) =>
        assert errors + ([e] + rs) == (errors + [e]) + rs;
  }

  lemma {:induction false} ParseDone(classify: string -> Option<ParsedError>, errors: seq<ParsedError>)
    ensures Prepend(errors, Collect(classify, GetLines([]))) == Some(errors)
  {
    assert errors + [] == errors;
  }
}
