/**
 * Models of the handful of C++ standard-library string operations the
 * editor's logic relies on: std::string::find / rfind / find_last_of,
 * std::replace, std::stoi, std::to_string and the line splitting done by
 * std::getline.  Characters stand for the bytes of a std::string.
 */
module Strings {

  datatype Option<T> = None | Some(value: T)

  /** The range of a C++ `int`. */
  const INT_MIN: int := -0x8000_0000
  const INT_MAX: int := 0x7fff_ffff
  type Int32 = x: int | -0x8000_0000 <= x <= 0x7fff_ffff

  /** A conversion to `int` from a wider integer keeps the low 32 bits (two's complement). */
  function ToInt32(n: int): (r: Int32)
    ensures INT_MIN <= n <= INT_MAX ==> r == n
    ensures (r - n) % 0x1_0000_0000 == 0
  {
    (n - INT_MIN) % 0x1_0000_0000 + INT_MIN
  }

  // ---------------------------------------------------------------------
  // Searching

  /** `pat` occurs in `s` starting at index `i`. */
  predicate IsAt(s: string, pat: string, i: int) {
    0 <= i && i + |pat| <= |s| && s[i..i + |pat|] == pat
  }

  /** std::string::find(pat, from): the leftmost occurrence at or after `from`. */
  function Find(s: string, pat: string, from: nat): (r: Option<nat>)
    ensures r.Some? ==> from <= r.value && IsAt(s, pat, r.value)
    ensures r.Some? ==> forall j :: from <= j < r.value ==> !IsAt(s, pat, j)
    ensures r.None? ==> forall j :: from <= j ==> !IsAt(s, pat, j)
    decreases |s| - from
  {
    if from + |pat| > |s| then None
    else if s[from..from + |pat|] == pat then Some(from)
    else Find(s, pat, from + 1)
  }

  /** A slice of `a + b` lying inside `b`. */
  lemma {:induction false} SliceAfterPrefix(a: string, b: string, i: nat, j: nat)
    requires i <= j <= |b|
    ensures (a + b)[|a| + i..|a| + j] == b[i..j]
    ensures (a + b)[|a| + i..] == b[i..]
  {
    assert forall k :: 0 <= k < j - i ==> (a + b)[|a| + i..|a| + j][k] == b[i..j][k];
    assert forall k :: 0 <= k < |b| - i ==> (a + b)[|a| + i..][k] == b[i..][k];
  }

  /** `pat` occurs nowhere before `end` where no character before `end` is its first one. */
  lemma {:induction false} NotAtWithoutHead(s: string, pat: string, end: nat)
    requires |pat| > 0
    requires forall j :: 0 <= j < end && j < |s| ==> s[j] != pat[0]
    ensures forall j :: 0 <= j < end ==> !IsAt(s, pat, j)
  {
    forall j | 0 <= j < end ensures !IsAt(s, pat, j) {
      assert j + |pat| <= |s| ==> s[j..j + |pat|][0] == s[j];
    }
  }

  /** The leftmost occurrence at or after `from` is what Find returns. */
  lemma {:induction false} FindIs(s: string, pat: string, from: nat, k: nat)
    requires from <= k && IsAt(s, pat, k)
    requires forall j :: from <= j < k ==> !IsAt(s, pat, j)
    ensures Find(s, pat, from) == Some(k)
    decreases k - from
  {
    if from < k {
      assert !IsAt(s, pat, from);
      FindIs(s, pat, from + 1, k);
    }
  }

  /** The leftmost occurrence in `b` is found, shifted by `|a|`, by searching `a + b` from inside `b`. */
  lemma {:induction false} FindAfterPrefix(a: string, b: string, pat: string, from: nat, k: nat)
    requires from <= k && IsAt(b, pat, k) && forall j :: from <= j < k ==> !IsAt(b, pat, j)
    ensures Find(a + b, pat, |a| + from) == Some(|a| + k)
  {
    IsAtAfterPrefix(a, b, pat, k);
    forall j | |a| + from <= j < |a| + k
      ensures !IsAt(a + b, pat, j)
    {
      NotAtAfterPrefix(a, b, pat, j - |a|);
    }
    FindIs(a + b, pat, |a| + from, |a| + k);
  }

  lemma {:induction false} IsAtAfterPrefix(a: string, b: string, pat: string, k: nat)
    requires IsAt(b, pat, k)
    ensures IsAt(a + b, pat, |a| + k)
  {
    SliceAfterPrefix(a, b, k, k + |pat|);
  }

  lemma {:induction false} NotAtAfterPrefix(a: string, b: string, pat: string, k: nat)
    requires !IsAt(b, pat, k)
    ensures !IsAt(a + b, pat, |a| + k)
  {
    if k + |pat| <= |b| {
      SliceAfterPrefix(a, b, k, k + |pat|);
    }
  }

  /** std::string::rfind(pat, pos): the rightmost occurrence starting at or before `pos`. */
  function RFind(s: string, pat: string, pos: nat): (r: Option<nat>)
    ensures r.Some? ==> r.value <= pos && IsAt(s, pat, r.value)
    ensures r.Some? ==> forall j :: r.value < j <= pos ==> !IsAt(s, pat, j)
    ensures r.None? ==> forall j :: 0 <= j <= pos ==> !IsAt(s, pat, j)
    decreases pos
  {
    if pos + |pat| <= |s| && s[pos..pos + |pat|] == pat then Some(pos)
    else if pos == 0 then None
    else RFind(s, pat, pos - 1)
  }

  /** std::string::rfind(pat) with the default position npos. */
  function RFindLast(s: string, pat: string): (r: Option<nat>)
    ensures r.Some? ==> IsAt(s, pat, r.value)
    ensures r.Some? ==> forall j :: r.value < j ==> !IsAt(s, pat, j)
    ensures r.None? ==> forall j :: 0 <= j ==> !IsAt(s, pat, j)
  {
    RFind(s, pat, |s|)
  }

  /** The first index at or after `from` holding `c`. */
  function IndexOfChar(s: string, c: char, from: nat): (r: Option<nat>)
    ensures r.Some? ==> from <= r.value < |s| && s[r.value] == c
    ensures r.Some? ==> forall j :: from <= j < r.value ==> s[j] != c
    ensures r.None? ==> forall j :: from <= j < |s| ==> s[j] != c
    decreases |s| - from
  {
    if from >= |s| then None
    else if s[from] == c then Some(from)
    else IndexOfChar(s, c, from + 1)
  }

  /** std::string::find_last_of(c). */
  function LastIndexOfChar(s: string, c: char): (r: Option<nat>)
    ensures r.Some? ==> r.value < |s| && s[r.value] == c
    ensures r.Some? ==> forall j :: r.value < j < |s| ==> s[j] != c
    ensures r.None? ==> c !in s
    decreases |s|
  {
    if s == [] then None
    else if s[|s| - 1] == c then Some(|s| - 1)
    else LastIndexOfChar(s[..|s| - 1], c)
  }

  /** std::replace(s.begin(), s.end(), from, to). */
  function ReplaceChar(s: string, from: char, to: char): (r: string)
    ensures |r| == |s|
    ensures forall i :: 0 <= i < |s| ==> r[i] == if s[i] == from then to else s[i]
    decreases |s|
  {
    if s == [] then []
    else ReplaceChar(s[..|s| - 1], from, to) + [if s[|s| - 1] == from then to else s[|s| - 1]]
  }

  // ---------------------------------------------------------------------
  // Decimal numbers

  predicate IsDigit(c: char) { '0' <= c <= '9' }

  /** isspace in the "C" locale. */
  predicate IsCSpace(c: char) {
    c == ' ' || c == '\t' || c == '\n' || c == '\U{B}' || c == '\U{C}' || c == '\r'
  }

  /** The index of the first character at or after `i` that is not white space. */
  function SkipSpaces(s: string, i: nat): (k: nat)
    requires i <= |s|
    ensures i <= k <= |s|
    decreases |s| - i
  {
    if i < |s| && IsCSpace(s[i]) then SkipSpaces(s, i + 1) else i
  }

  /** `suffix` ends `s`. */
  predicate EndsWith(s: string, suffix: string) {
    |suffix| <= |s| && s[|s| - |suffix|..] == suffix
  }

  /** The index of the first character at or after `i` that is not a digit. */
  function SkipDigits(s: string, i: nat): (k: nat)
    requires i <= |s|
    ensures i <= k <= |s|
    ensures k > i ==> IsDigit(s[i])
    decreases |s| - i
  {
    if i < |s| && IsDigit(s[i]) then SkipDigits(s, i + 1) else i
  }

  /** The value of the digits `s[i..j]`. */
  function DigitsValue(s: string, i: nat, j: nat): nat
    requires i <= j <= |s|
    decreases j - i
  {
    if i == j then 0 else 10 * DigitsValue(s, i, j - 1) + DigitValue(s[j - 1])
  }

  function DigitValue(c: char): (v: nat)
    ensures v < 10
    ensures IsDigit(c) ==> DigitChar(v) == c
  {
    if IsDigit(c) then c as int - '0' as int else 0
  }

  /**
   * std::stoi: skips leading white space, reads an optional sign and the
   * longest run of digits after it, and ignores whatever follows.  `None`
   * stands for the exception it throws when there are no digits
   * (invalid_argument) or the value does not fit in an `int` (out_of_range).
   */
  function Stoi(s: string): (r: Option<Int32>)
    // no digit anywhere, or a first character that is neither space, sign nor digit: invalid_argument
    ensures r.Some? ==> exists j :: 0 <= j < |s| && IsDigit(s[j])
    ensures |s| > 0 && !IsCSpace(s[0]) && s[0] != '-' && s[0] != '+' && !IsDigit(s[0]) ==> r.None?
  {
    var i := SkipSpaces(s, 0);
    var signed := i < |s| && (s[i] == '-' || s[i] == '+');
    var d := if signed then i + 1 else i;
    var e := SkipDigits(s, d);
    if e == d then None
    else
      var v: int := if signed && s[i] == '-' then -(DigitsValue(s, d, e) as int) else DigitsValue(s, d, e);
      if INT_MIN <= v <= INT_MAX then Some(v) else None
  }

  function DigitChar(d: nat): char
    requires d < 10
  {
    ('0' as int + d) as char
  }

  /** std::to_string / operator<< for a non-negative integer. */
  function NatToString(n: nat): (r: string)
    ensures |r| > 0
    ensures forall i :: 0 <= i < |r| ==> IsDigit(r[i])
  {
    if n < 10 then [DigitChar(n)] else NatToString(n / 10) + [DigitChar(n % 10)]
  }

  /** std::to_string / operator<< for an `int`. */
  function IntToString(n: int): string {
    if n < 0 then "-" + NatToString(-n) else NatToString(n)
  }

  /** Characters after `j` do not change the value of `s[i..j]`. */
  lemma {:induction false} DigitsValueOfPrefix(a: string, b: string, i: nat, j: nat)
    requires i <= j <= |a|
    ensures DigitsValue(a + b, i, j) == DigitsValue(a, i, j)
    decreases j - i
  {
    if i < j {
      DigitsValueOfPrefix(a, b, i, j - 1);
      assert (a + b)[j - 1] == a[j - 1];
    }
  }

  /** Characters in front of `b` only shift the indices. */
  lemma {:induction false} DigitsValueAfterPrefix(a: string, b: string, i: nat, j: nat)
    requires i <= j <= |b|
    ensures DigitsValue(a + b, |a| + i, |a| + j) == DigitsValue(b, i, j)
    decreases j - i
  {
    if i < j {
      DigitsValueAfterPrefix(a, b, i, j - 1);
      assert (a + b)[|a| + j - 1] == b[j - 1];
    }
  }

  lemma {:induction false} DigitsValueOfNatToString(n: nat)
    ensures DigitsValue(NatToString(n), 0, |NatToString(n)|) == n
  {
    var r := NatToString(n);
    if n >= 10 {
      var h := NatToString(n / 10);
      assert r == h + [DigitChar(n % 10)];
      DigitsValueOfPrefix(h, [DigitChar(n % 10)], 0, |h|);
      DigitsValueOfNatToString(n / 10);
    }
  }

  /** A run of digits from `i` to the end is skipped entirely. */
  lemma {:induction false} SkipAllDigits(s: string, i: nat)
    requires i <= |s|
    requires forall k :: i <= k < |s| ==> IsDigit(s[k])
    ensures SkipDigits(s, i) == |s|
    decreases |s| - i
  {
    if i < |s| {
      SkipAllDigits(s, i + 1);
    }
  }

  /** stoi of a non-empty run of digits is its value, or an exception when it overflows. */
  lemma {:induction false} StoiOfDigits(d: string)
    requires |d| > 0 && forall i :: 0 <= i < |d| ==> IsDigit(d[i])
    ensures Stoi(d) == if DigitsValue(d, 0, |d|) <= INT_MAX then Some(DigitsValue(d, 0, |d|)) else None
  {
    assert !IsCSpace(d[0]);
    SkipAllDigits(d, 0);
  }

  /** Reading back what to_string wrote gives the number again. */
  lemma {:induction false} StoiOfNatToString(n: nat)
    requires n <= INT_MAX
    ensures Stoi(NatToString(n)) == Some(n)
  {
    StoiOfDigits(NatToString(n));
    DigitsValueOfNatToString(n);
  }

  lemma {:induction false} StoiOfIntToString(n: Int32)
    ensures Stoi(IntToString(n)) == Some(n)
  {
    if n >= 0 {
      StoiOfNatToString(n);
    } else {
      var m: int := n;
      var d := NatToString(-m);
      var s := IntToString(n);
      assert s == "-" + d;
      assert !IsCSpace(s[0]);
      SkipAllDigits(s, 1);
      DigitsValueAfterPrefix("-", d, 0, |d|);
      DigitsValueOfNatToString(-m);
    }
  }

  // ---------------------------------------------------------------------
  // Lines

  /**
   * The lines std::getline extracts from a stream holding `s`: pieces
   * separated by '\n', with no extra empty line after a final '\n'.
   */
  function GetLines(s: string): seq<string>
    decreases |s|
  {
    if s == [] then []
    else match IndexOfChar(s, '\n', 0)
      case None => [s]
      case Some(i) => [s[..i]] + GetLines(s[i + 1..])
  }

  /** The text of a stream to which each line was written followed by '\n'. */
  function Terminated(ls: seq<string>): string {
    if ls == [] then [] else ls[0] + "\n" + Terminated(ls[1..])
  }

  /** The first line of `a + "\n" + b`, when `a` has no newline, is `a`. */
  lemma {:induction false} GetLinesAtFirstNewline(a: string, b: string)
    requires '\n' !in a
    ensures GetLines(a + "\n" + b) == [a] + GetLines(b)
  {
    var s := a + "\n" + b;
    assert s[|a|] == '\n';
    assert forall j :: 0 <= j < |a| ==> s[j] == a[j];
    assert IndexOfChar(s, '\n', 0) == Some(|a|);
    assert s[..|a|] == a && s[|a| + 1..] == b;
  }

  /** getline reads back exactly the lines written, as long as none contains '\n'. */
  lemma {:induction false} GetLinesOfTerminated(ls: seq<string>)
    requires forall i :: 0 <= i < |ls| ==> '\n' !in ls[i]
    ensures GetLines(Terminated(ls)) == ls
  {
    if ls != [] {
      GetLinesAtFirstNewline(ls[0], Terminated(ls[1..]));
      GetLinesOfTerminated(ls[1..]);
    }
  }

  /** Text added behind a newline does not move the first newline. */
  lemma {:induction false} IndexOfCharExtend(s: string, x: string, c: char, i: nat)
    requires IndexOfChar(s, c, 0) == Some(i)
    ensures IndexOfChar(s + x, c, 0) == Some(i)
  {
    var t := s + x;
    assert t[i] == c;
    assert forall j :: 0 <= j < i ==> t[j] == s[j];
    IndexOfCharIs(t, c, i);
  }

  /** The first `c` is at `i` when it is there and nowhere before. */
  lemma {:induction false} IndexOfCharIs(s: string, c: char, i: nat)
    requires i < |s| && s[i] == c && forall j :: 0 <= j < i ==> s[j] != c
    ensures IndexOfChar(s, c, 0) == Some(i)
  {
  }

  /** A final '\n' ends the last line; it does not start an empty one. */
  lemma {:induction false} GetLinesNoTrailingEmpty(s: string)
    requires s != [] && s[|s| - 1] != '\n'
    ensures GetLines(s + "\n") == GetLines(s)
    decreases |s|
  {
    match IndexOfChar(s, '\n', 0)
    case None =>
      GetLinesAtFirstNewline(s, []);
      assert s + "\n" == s + "\n" + [];
    case Some(i) =>
      var tail := s[i + 1..];
      assert tail != [] && tail[|tail| - 1] == s[|s| - 1];
      GetLinesNoTrailingEmpty(tail);
      IndexOfCharExtend(s, "\n", '\n', i);
      var t := s + "\n";
      assert t[..i] == s[..i] && t[i + 1..] == tail + "\n";
      calc {
        GetLines(t);
        [t[..i]] + GetLines(t[i + 1..]);
        [s[..i]] + GetLines(tail + "\n");
        [s[..i]] + GetLines(tail);
        GetLines(s);
      }
  }
}
