/**
 * The Base Protocol framing of the Language Server Protocol 3.17 ("Header
 * Part" / "Content Part") as the client implements it: WriteToPipe puts
 * `Content-Length: N\r\n\r\n` in front of each payload, and the read loop
 * keeps a carry-over buffer from which it cuts complete frames.
 */
module FrameCodec {
  import opened Strings

  const Marker: string := "Content-Length: "
  const Separator: string := "\r\n\r\n"

  /** The bytes WriteToPipe writes for one payload. */
  function Encode(payload: string): string {
    Marker + NatToString(|payload|) + Separator + payload
  }

  /** A payload whose frame the decoder gives back: stoi must read a positive length. */
  predicate Decodable(payload: string) {
    0 < |payload| <= INT_MAX
  }

  /** What one pass of the inner framing loop does with the buffer. */
  datatype Step =
    | Incomplete                          // break: keep the buffer for the next read
    | Corrupt(rest: string)               // unparseable length: drop through the separator
    | Frame(body: string, rest: string)   // a complete frame, and what follows it

  /** No '\r' occurs in the marker. */
  lemma {:induction false} MarkerHasNoCarriageReturn()
    ensures forall k :: 0 <= k < 16 ==> Marker[k] != '\r'
  {
  }

  /** The separator found after the marker cannot overlap the marker. */
  lemma {:induction false} SeparatorAfterMarker(buf: string, pos: nat, end: nat)
    requires IsAt(buf, Marker, pos) && IsAt(buf, Separator, end) && pos <= end
    ensures pos + 16 <= end
  {
    MarkerHasNoCarriageReturn();
    assert buf[end] == buf[end..end + 4][0];
    forall k | pos <= k < pos + 16 ensures buf[k] != '\r' {
      assert buf[k] == buf[pos..pos + 16][k - pos];
    }
  }

  /** One pass of the inner loop of ReadLoop over the carry-over buffer. */
  function DecodeStep(buf: string): (st: Step)
    ensures st.Corrupt? ==> |st.rest| < |buf|
    ensures st.Frame? ==> 0 < |st.body| && |st.rest| < |buf|
  {
    match Find(buf, Marker, 0)
    case None => Incomplete
    case Some(pos) =>
      match Find(buf, Separator, pos)
      case None => Incomplete
      case Some(end) =>
        SeparatorAfterMarker(buf, pos, end);
        HeaderStep(buf[pos + 16..end], buf[end + 4..])
  }

  /**
   * The rest of one pass once a header is found: `field` lies between the
   * marker and the separator and `after` is everything behind the separator.
   */
  function HeaderStep(field: string, after: string): (st: Step)
    ensures st.Corrupt? ==> st.rest == after
    ensures st.Frame? ==> 0 < |st.body| && st.body + st.rest == after
  {
    match Stoi(field)
    case None => Corrupt(after)
    case Some(len) =>
      if len <= 0 || |after| < len then Incomplete
      else Frame(after[..len], after[len..])
  }

  /**
   * Running the inner loop to the end: the frame bodies it cuts, in order,
   * and the buffer it leaves.
   */
  function Drain(buf: string): (r: (seq<string>, string))
    ensures |r.1| <= |buf|
    ensures forall i :: 0 <= i < |r.0| ==> |r.0[i]| > 0
    decreases |buf|
  {
    match DecodeStep(buf)
    case Incomplete => ([], buf)
    case Corrupt(rest) => Drain(rest)
    case Frame(body, rest) =>
      var d := Drain(rest);
      ([body] + d.0, d.1)
  }

  /** Feeding the reads one after another to a decoder that starts with `leftover`. */
  function FeedAll(leftover: string, chunks: seq<string>): (seq<string>, string) {
    if chunks == [] then ([], leftover)
    else
      var prev := FeedAll(leftover, chunks[..|chunks| - 1]);
      var d := Drain(prev.1 + chunks[|chunks| - 1]);
      (prev.0 + d.0, d.1)
  }

  function Flatten(chunks: seq<string>): string {
    if chunks == [] then [] else Flatten(chunks[..|chunks| - 1]) + chunks[|chunks| - 1]
  }

  /** Frames written back to back. */
  function Stream(payloads: seq<string>): string {
    if payloads == [] then [] else Encode(payloads[0]) + Stream(payloads[1..])
  }

  /** Feeding one more read drains the carry-over buffer extended by that read. */
  lemma {:induction false} FeedAllSnoc(chunks: seq<string>, c: string)
    ensures var prev := FeedAll([], chunks);
      var d := Drain(prev.1 + c);
      FeedAll([], chunks + [c]) == (prev.0 + d.0, d.1)
  {
    assert (chunks + [c])[..|chunks|] == chunks;
  }

  /** The carry-over buffer of ReadLoop (the `leftover` string). */
  class FrameDecoder {
    var leftover: string

    constructor ()
      ensures leftover == []
    {
      leftover := [];
    }

    /** Appends one read to the buffer and cuts every complete frame out of it. */
    method Feed(chunk: string) returns (bodies: seq<string>)
      modifies this
      ensures (bodies, leftover) == Drain(old(leftover) + chunk)
    {
      var buf := leftover + chunk;
      ghost var total := buf;
      bodies := [];
      while true
        invariant Drain(total).0 == bodies + Drain(buf).0
        invariant Drain(total).1 == Drain(buf).1
        decreases |buf|
      {
        var st := NextStep(buf);
        match st
        case Incomplete =>
          StepIncompleteDrain(buf);
          assert bodies + Drain(buf).0 == bodies;
          break;
        case Corrupt(rest) =>
          DrainCorrupt(buf, rest);
          buf := rest;
        case Frame(body, rest) =>
          DrainFrame(buf, body, rest);
          AppendAssoc(bodies, [body], Drain(rest).0);
          bodies := bodies + [body];
          buf := rest;
      }
      leftover := buf;
    }
  }

  /**
   * One pass of the inner loop over the buffer: locate the marker and the
   * separator after it, convert the length field, and cut out the body.
   */
  method NextStep(buf: string) returns (st: Step)
    ensures st == DecodeStep(buf)
  {
    var pos := Find(buf, Marker, 0);
    if pos.None? {
      StepWithoutMarker(buf);
      return Incomplete;
    }
    var endHeader := Find(buf, Separator, pos.value);
    if endHeader.None? {
      StepWithoutSeparator(buf, pos.value);
      return Incomplete;
    }
    StepWithHeader(buf, pos.value, endHeader.value);
    var field := buf[pos.value + 16..endHeader.value];
    var after := buf[endHeader.value + 4..];
    var len := Stoi(field);
    if len.None? {
      // a corrupt header: drop it and keep scanning
      HeaderCorrupt(field, after);
      return Corrupt(after);
    }
    if len.value <= 0 || |buf| < endHeader.value + 4 + len.value {
      HeaderStalls(field, after);
      return Incomplete;
    }
    var body := buf[endHeader.value + 4..endHeader.value + 4 + len.value];
    var rest := buf[endHeader.value + 4 + len.value..];
    FrameCut(buf, endHeader.value + 4, len.value);
    HeaderFrame(field, after, len.value);
    return Frame(body, rest);
  }

  // ---------------------------------------------------------------------
  // One step of the loop

  /** 'C' occurs in the marker only at its start, so the marker cannot overlap itself. */
  lemma {:induction false} MarkerStartsOnce()
    ensures forall k :: 0 < k < 16 ==> Marker[k] != Marker[0]
  {
  }

  /** In a buffer that starts with a header, the marker and the separator are where the header puts them. */
  lemma {:induction false} HeaderLocated(h: string, t: string)
    requires forall i :: 0 <= i < |h| ==> h[i] != '\r'
    ensures Find(Marker + h + Separator + t, Marker, 0) == Some(0)
    ensures Find(Marker + h + Separator + t, Separator, 0) == Some(16 + |h|)
    ensures (Marker + h + Separator + t)[16..16 + |h|] == h
    ensures (Marker + h + Separator + t)[16 + |h| + 4..] == t
  {
    var buf := Marker + h + Separator + t;
    var end := 16 + |h|;
    MarkerHasNoCarriageReturn();
    assert buf[..16] == Marker;
    assert buf[end..end + 4] == Separator;
    assert IsAt(buf, Separator, end);
    forall j | 0 <= j < end ensures !IsAt(buf, Separator, j) {
      assert buf[j] != '\r' by {
        if j < 16 {
          assert buf[j] == Marker[j];
        } else {
          assert buf[j] == h[j - 16];
        }
      }
    }
    assert Find(buf, Separator, 0) == Some(end);
    assert buf[16..end] == h;
    assert buf[end + 4..] == t;
  }

  /** One pass over a buffer that starts with a header reads that header. */
  lemma {:induction false} StepOfHeader(h: string, t: string)
    requires forall i :: 0 <= i < |h| ==> h[i] != '\r'
    ensures DecodeStep(Marker + h + Separator + t) == HeaderStep(h, t)
  {
    HeaderLocated(h, t);
  }

  /** Encoding then taking one step gives the payload back and leaves exactly what followed. */
  lemma {:induction false} DecodeFrame(p: string, t: string)
    requires Decodable(p)
    ensures DecodeStep(Encode(p) + t) == Frame(p, t)
  {
    var d := NatToString(|p|);
    assert Encode(p) + t == Marker + d + Separator + (p + t);
    StepOfHeader(d, p + t);
    StoiOfNatToString(|p|);
    assert HeaderStep(d, p + t) == Frame((p + t)[..|p|], (p + t)[|p|..]);
    assert (p + t)[..|p|] == p;
    assert (p + t)[|p|..] == t;
  }

  /** Searching for the separator from the start of `rest` finds the same place after the junk. */
  lemma {:induction false} SeparatorAfterJunk(junk: string, rest: string, end: nat)
    requires Find(rest, Separator, 0) == Some(end)
    ensures Find(junk + rest, Separator, |junk|) == Some(|junk| + end)
  {
    FindAfterPrefix(junk, rest, Separator, 0, end);
  }

  /** The marker search skips bytes that hold no marker and stops at a marker right after them. */
  lemma {:induction false} MarkerAfterJunk(junk: string, rest: string)
    requires forall j :: 0 <= j ==> !IsAt(junk, Marker, j)
    requires IsAt(rest, Marker, 0)
    ensures Find(junk + rest, Marker, 0) == Some(|junk|)
  {
    MarkerStartsOnce();
    SliceAfterPrefix(junk, rest, 0, 16);
    forall j | 0 <= j < |junk| ensures !IsAt(junk + rest, Marker, j) {
      MarkerNotAcrossJunk(junk, rest, j);
    }
    assert IsAt(junk + rest, Marker, |junk|);
  }

  lemma {:induction false} MarkerNotAcrossJunk(junk: string, rest: string, j: nat)
    requires forall j :: 0 <= j ==> !IsAt(junk, Marker, j)
    requires IsAt(rest, Marker, 0)
    requires j < |junk|
    ensures !IsAt(junk + rest, Marker, j)
  {
    var buf := junk + rest;
    var J := |junk|;
    MarkerStartsOnce();
    if j + 16 <= J {
      assert !IsAt(junk, Marker, j);
      assert buf[j..j + 16] == junk[j..j + 16];
    } else {
      assert buf[J] == rest[..16][0];
      assert j + 16 <= |buf| ==> buf[J] == buf[j..j + 16][J - j];
    }
  }

  /** A step that finds no marker stops the loop. */
  lemma {:induction false} StepWithoutMarker(buf: string)
    requires Find(buf, Marker, 0) == None
    ensures DecodeStep(buf) == Incomplete
  {
  }

  lemma {:induction false} StepIncompleteDrain(buf: string)
    requires DecodeStep(buf) == Incomplete
    ensures Drain(buf) == ([], buf)
  {
  }

  lemma {:induction false} DrainCorrupt(buf: string, rest: string)
    requires DecodeStep(buf) == Corrupt(rest)
    ensures Drain(buf) == Drain(rest)
  {
  }

  lemma {:induction false} DrainFrame(buf: string, body: string, rest: string)
    requires DecodeStep(buf) == Frame(body, rest)
    ensures Drain(buf) == ([body] + Drain(rest).0, Drain(rest).1)
  {
  }

  lemma {:induction false} HeaderCorrupt(field: string, after: string)
    requires Stoi(field).None?
    ensures HeaderStep(field, after) == Corrupt(after)
  {
  }

  lemma {:induction false} HeaderStalls(field: string, after: string)
    requires Stoi(field).Some? && (Stoi(field).value <= 0 || |after| < Stoi(field).value)
    ensures HeaderStep(field, after) == Incomplete
  {
  }

  lemma {:induction false} HeaderFrame(field: string, after: string, len: nat)
    requires Stoi(field) == Some(len as int) && 0 < len <= |after|
    ensures HeaderStep(field, after) == Frame(after[..len], after[len..])
  {
  }

  lemma {:induction false} FrameCut(buf: string, k: nat, len: nat)
    requires k + len <= |buf|
    ensures buf[k..k + len] == buf[k..][..len]
    ensures buf[k + len..] == buf[k..][len..]
  {
  }

  /** A step that finds the marker but no separator after it stops the loop. */
  lemma {:induction false} StepWithoutSeparator(buf: string, pos: nat)
    requires Find(buf, Marker, 0) == Some(pos) && Find(buf, Separator, pos) == None
    ensures DecodeStep(buf) == Incomplete
  {
  }

  /** A step that finds the marker at `pos` and the separator at `end` reads the field between them. */
  lemma {:induction false} StepWithHeader(buf: string, pos: nat, end: nat)
    requires Find(buf, Marker, 0) == Some(pos) && Find(buf, Separator, pos) == Some(end)
    ensures pos + 16 <= end && end + 4 <= |buf|
    ensures DecodeStep(buf) == HeaderStep(buf[pos + 16..end], buf[end + 4..])
  {
    SeparatorAfterMarker(buf, pos, end);
    StepWithHeaderUnfold(buf, pos, end);
  }

  lemma {:induction false} StepWithHeaderUnfold(buf: string, pos: nat, end: nat)
    requires Find(buf, Marker, 0) == Some(pos) && Find(buf, Separator, pos) == Some(end)
    requires pos + 16 <= end && end + 4 <= |buf|
    ensures DecodeStep(buf) == HeaderStep(buf[pos + 16..end], buf[end + 4..])
  {
  }

  /** `StepWithHeader` with the field and the remainder named by the caller. */
  lemma {:induction false} StepWithFields(buf: string, pos: nat, end: nat, field: string, after: string)
    requires Find(buf, Marker, 0) == Some(pos) && Find(buf, Separator, pos) == Some(end)
    requires pos + 16 <= end && end + 4 <= |buf|
    requires field == buf[pos + 16..end] && after == buf[end + 4..]
    ensures DecodeStep(buf) == HeaderStep(field, after)
  {
    StepWithHeader(buf, pos, end);
  }

  lemma {:induction false} HeaderStepOfEqual(f1: string, f2: string, a1: string, a2: string)
    requires f1 == f2 && a1 == a2
    ensures HeaderStep(f1, a1) == HeaderStep(f2, a2)
  {
  }

  /**
   * Bytes in front of a frame that hold no marker are dropped together
   * with that frame: one step yields exactly the payload and leaves
   * exactly what follows the frame.
   */
  lemma {:induction false} DecodeAfterJunk(junk: string, p: string, t: string)
    requires forall j :: 0 <= j ==> !IsAt(junk, Marker, j)
    requires Decodable(p)
    ensures DecodeStep(junk + Encode(p) + t) == Frame(p, t)
  {
    var d := NatToString(|p|);
    var rest := Encode(p) + t;
    var end := 16 + |d|;
    assert rest == Marker + d + Separator + (p + t);
    HeaderLocated(d, p + t);
    MarkerAfterJunk(junk, rest);
    StepAfterJunk(junk, rest, end);
    HeaderStepOfEqual(rest[16..end], d, rest[end + 4..], p + t);
    HeaderOfFrame(p, t);
    AppendAssoc(junk, Encode(p), t);
  }

  /** A header found right after `junk` is read as if `junk` were absent. */
  lemma {:induction false} StepAfterJunk(junk: string, rest: string, end: nat)
    requires Find(junk + rest, Marker, 0) == Some(|junk|) && Find(rest, Separator, 0) == Some(end)
    requires 16 <= end && end + 4 <= |rest|
    ensures DecodeStep(junk + rest) == HeaderStep(rest[16..end], rest[end + 4..])
  {
    SeparatorAfterJunk(junk, rest, end);
    SliceAfterPrefix(junk, rest, 16, end);
    SliceAfterPrefix(junk, rest, end + 4, |rest|);
    StepWithFields(junk + rest, |junk|, |junk| + end, rest[16..end], rest[end + 4..]);
  }

  /** The header of a decodable frame reads back as that frame. */
  lemma {:induction false} HeaderOfFrame(p: string, t: string)
    requires Decodable(p)
    ensures HeaderStep(NatToString(|p|), p + t) == Frame(p, t)
  {
    StoiOfNatToString(|p|);
    assert (p + t)[..|p|] == p;
    assert (p + t)[|p|..] == t;
  }

  /** One frame decodes to its payload and leaves nothing behind. */
  lemma {:induction false} EncodeThenDecode(p: string)
    requires Decodable(p)
    ensures Drain(Encode(p)) == ([p], [])
  {
    DecodeFrame(p, []);
    assert Encode(p) + [] == Encode(p);
    assert Drain([]) == ([], []);
    assert [p] + [] == [p];
  }

  /** A fresh decoder fed one encoded frame returns its payload and keeps nothing. */
  lemma {:induction false} FreshDecoderRoundTrip(p: string)
    requires Decodable(p)
    ensures FeedAll([], [Encode(p)]) == ([p], [])
  {
    var e := Encode(p);
    assert [e][..0] == [];
    assert FeedAll([], [e][..0]) == ([], []);
    assert [] + e == e;
    EncodeThenDecode(p);
    assert [] + Drain(e).0 == Drain(e).0;
  }

  /** A decodable frame followed by anything is cut off in one step. */
  lemma {:induction false} DrainFrameThen(p: string, t: string)
    requires Decodable(p)
    ensures Drain(Encode(p) + t) == ([p] + Drain(t).0, Drain(t).1)
  {
    DecodeFrame(p, t);
  }

  /** Leading bytes without a marker are discarded together with the next extracted frame. */
  lemma {:induction false} LeadingGarbageDropped(junk: string, p: string, t: string)
    requires forall j :: 0 <= j ==> !IsAt(junk, Marker, j)
    requires Decodable(p)
    ensures Drain(junk + Encode(p) + t) == ([p] + Drain(t).0, Drain(t).1)
  {
    DecodeAfterJunk(junk, p, t);
  }

  /** The three parts of a header, read back by position. */
  lemma {:induction false} HeaderLayout(d: string, p: string)
    ensures (Marker + d + Separator + p)[..16] == Marker
    ensures (Marker + d + Separator + p)[16..16 + |d|] == d
    ensures (Marker + d + Separator + p)[16 + |d|..16 + |d| + 4] == Separator
  {
    SliceAfterPrefix(Marker + d, Separator + p, 0, 4);
    SliceAfterPrefix(Marker, d + Separator + p, 0, |d|);
    assert Marker + d + Separator + p == Marker + (d + Separator + p);
  }

  /** With no '\r' before `end`, the separator is found at `end` once it is there, and not at all before. */
  lemma {:induction false} SeparatorFirstAt(s: string, end: nat)
    requires forall j :: 0 <= j < end && j < |s| ==> s[j] != '\r'
    requires end + 4 <= |s| ==> s[end..end + 4] == Separator
    ensures Find(s, Separator, 0) == if end + 4 <= |s| then Some(end) else None
  {
    NotAtWithoutHead(s, Separator, end);
    if end + 4 <= |s| {
      SeparatorFound(s, end);
    } else {
      SeparatorMissing(s, end);
    }
  }

  lemma {:induction false} SeparatorFound(s: string, end: nat)
    requires forall j :: 0 <= j < end ==> !IsAt(s, Separator, j)
    requires end + 4 <= |s| && s[end..end + 4] == Separator
    ensures Find(s, Separator, 0) == Some(end)
  {
    assert IsAt(s, Separator, end);
  }

  lemma {:induction false} SeparatorMissing(s: string, end: nat)
    requires forall j :: 0 <= j < end ==> !IsAt(s, Separator, j)
    requires |s| < end + 4
    ensures Find(s, Separator, 0) == None
  {
  }

  /** No '\r' occurs in a frame before its separator. */
  lemma {:induction false} HeaderHasNoCarriageReturn(d: string, p: string, j: nat)
    requires forall i :: 0 <= i < |d| ==> d[i] != '\r'
    requires j < 16 + |d|
    ensures (Marker + d + Separator + p)[j] != '\r'
  {
    MarkerHasNoCarriageReturn();
    HeaderLayout(d, p);
    var e := Marker + d + Separator + p;
    if j < 16 {
      assert e[j] == e[..16][j];
    } else {
      assert e[j] == e[16..16 + |d|][j - 16];
    }
  }

  /** What the loop sees in the first bytes of a frame whose length field is `d`. */
  lemma {:induction false} PrefixOfHeader(d: string, p: string, s: string)
    requires forall i :: 0 <= i < |d| ==> d[i] != '\r'
    requires |s| <= |Marker + d + Separator + p| && s == (Marker + d + Separator + p)[..|s|]
    ensures 16 <= |s| ==> Find(s, Marker, 0) == Some(0)
    ensures Find(s, Separator, 0) ==
      if 16 + |d| + 4 <= |s| then Some(16 + |d|) else None
    ensures 16 + |d| <= |s| ==> s[16..16 + |d|] == d
  {
    if 16 <= |s| {
      PrefixMarker(d, p, s);
    }
    PrefixSeparator(d, p, s);
    if 16 + |d| <= |s| {
      PrefixLengthField(d, p, s);
    }
  }

  lemma {:induction false} PrefixMarker(d: string, p: string, s: string)
    requires 16 <= |s| <= |Marker + d + Separator + p| && s == (Marker + d + Separator + p)[..|s|]
    ensures Find(s, Marker, 0) == Some(0)
  {
    HeaderLayout(d, p);
    assert s[..16] == (Marker + d + Separator + p)[..16];
    assert IsAt(s, Marker, 0);
  }

  lemma {:induction false} PrefixSeparator(d: string, p: string, s: string)
    requires forall i :: 0 <= i < |d| ==> d[i] != '\r'
    requires |s| <= |Marker + d + Separator + p| && s == (Marker + d + Separator + p)[..|s|]
    ensures Find(s, Separator, 0) ==
      if 16 + |d| + 4 <= |s| then Some(16 + |d|) else None
  {
    PrefixHasNoCarriageReturn(d, p, s);
    if 16 + |d| + 4 <= |s| {
      PrefixSeparatorSlice(d, p, s);
    }
    SeparatorFirstAt(s, 16 + |d|);
  }

  lemma {:induction false} PrefixHasNoCarriageReturn(d: string, p: string, s: string)
    requires forall i :: 0 <= i < |d| ==> d[i] != '\r'
    requires |s| <= |Marker + d + Separator + p| && s == (Marker + d + Separator + p)[..|s|]
    ensures forall j :: 0 <= j < 16 + |d| && j < |s| ==> s[j] != '\r'
  {
    forall j | 0 <= j < 16 + |d| && j < |s| ensures s[j] != '\r' {
      HeaderHasNoCarriageReturn(d, p, j);
    }
  }

  lemma {:induction false} PrefixSeparatorSlice(d: string, p: string, s: string)
    requires 16 + |d| + 4 <= |s| <= |Marker + d + Separator + p|
    requires s == (Marker + d + Separator + p)[..|s|]
    ensures s[16 + |d|..16 + |d| + 4] == Separator
  {
    var end := 16 + |d|;
    HeaderLayout(d, p);
    assert s[end..end + 4] == (Marker + d + Separator + p)[end..end + 4];
  }

  lemma {:induction false} PrefixLengthField(d: string, p: string, s: string)
    requires 16 + |d| <= |s| <= |Marker + d + Separator + p| && s == (Marker + d + Separator + p)[..|s|]
    ensures s[16..16 + |d|] == d
  {
    HeaderLayout(d, p);
    assert s[16..16 + |d|] == (Marker + d + Separator + p)[16..16 + |d|];
  }

  /** A frame cut short anywhere is left untouched in the buffer. */
  lemma {:induction false} ProperPrefixIncomplete(p: string, s: string)
    requires Decodable(p)
    requires |s| < |Encode(p)| && s == Encode(p)[..|s|]
    ensures DecodeStep(s) == Incomplete
    ensures Drain(s) == ([], s)
  {
    var d := NatToString(|p|);
    assert Encode(p) == Marker + d + Separator + p;
    PrefixOfHeader(d, p, s);
    StoiOfNatToString(|p|);
  }

  lemma {:induction false} StreamCons(ps: seq<string>, z: string)
    requires ps != []
    ensures Stream(ps) + z == Encode(ps[0]) + (Stream(ps[1..]) + z)
  {
  }

  lemma {:induction false} DrainOfEqual(a: string, b: string)
    requires a == b
    ensures Drain(a) == Drain(b)
  {
  }

  /** Complete frames at the front of the buffer come out first, whatever follows them. */
  lemma {:induction false} DrainAfterFrames(ps: seq<string>, z: string)
    requires forall i :: 0 <= i < |ps| ==> Decodable(ps[i])
    ensures Drain(Stream(ps) + z) == (ps + Drain(z).0, Drain(z).1)
  {
    if ps == [] {
      DrainOfEqual(Stream(ps) + z, z);
      assert ps + Drain(z).0 == Drain(z).0;
    } else {
      var rest := Stream(ps[1..]) + z;
      StreamCons(ps, z);
      DrainOfEqual(Stream(ps) + z, Encode(ps[0]) + rest);
      DrainFrameThen(ps[0], rest);
      DrainAfterFrames(ps[1..], z);
      ConsAppend(ps, Drain(z).0);
    }
  }

  lemma {:induction false} ConsAppend<T>(xs: seq<T>, ys: seq<T>)
    requires xs != []
    ensures [xs[0]] + (xs[1..] + ys) == xs + ys
  {
    assert xs == [xs[0]] + xs[1..];
  }


  /** The bytes of a frame that has not fully arrived: nothing, or a strict prefix of its encoding. */
  predicate PartialFrame(partial: string, ps: seq<string>, m: nat) {
    partial == [] ||
    (m < |ps| && |partial| < |Encode(ps[m])| && partial == Encode(ps[m])[..|partial|])
  }

  lemma {:induction false} StreamSplit(ps: seq<string>, m: nat)
    requires m <= |ps|
    ensures Stream(ps) == Stream(ps[..m]) + Stream(ps[m..])
  {
    if m > 0 {
      assert ps[..m][1..] == ps[1..][..m - 1];
      assert ps[m..] == ps[1..][m - 1..];
      StreamSplit(ps[1..], m - 1);
    }
  }

  /** Any prefix of a frame stream is some complete frames followed by a partial one. */
  lemma {:induction false} PrefixOfStream(ps: seq<string>, f: string)
    returns (m: nat, partial: string)
    requires |f| <= |Stream(ps)| && f == Stream(ps)[..|f|]
    ensures m <= |ps| && f == Stream(ps[..m]) + partial && PartialFrame(partial, ps, m)
  {
    if ps == [] || |f| < |Encode(ps[0])| {
      m, partial := 0, f;
      assert ps[..0] == [];
      if ps == [] {
        assert f == [];
      }
    } else {
      var e := Encode(ps[0]);
      assert Stream(ps) == e + Stream(ps[1..]);
      PrefixAfter(e, Stream(ps[1..]), f);
      var m', partial' := PrefixOfStream(ps[1..], f[|e|..]);
      m, partial := m' + 1, partial';
      StreamFirst(ps, m);
      AppendAssoc(e, Stream(ps[1..][..m']), partial);
      assert ps[1..][m'..] == ps[m..];
    }
  }

  lemma {:induction false} StreamFirst(ps: seq<string>, m: nat)
    requires 0 < m <= |ps|
    ensures Stream(ps[..m]) == Encode(ps[0]) + Stream(ps[1..][..m - 1])
  {
    assert ps[..m][0] == ps[0] && ps[..m][1..] == ps[1..][..m - 1];
  }

  lemma {:induction false} PrefixAfter(e: string, s: string, f: string)
    requires |e| <= |f| <= |e + s| && f == (e + s)[..|f|]
    ensures f == e + f[|e|..] && f[|e|..] == s[..|f| - |e|]
  {
    assert f[..|e|] == e;
  }

  /** What a partial frame leaves: the decoder keeps it whole. */
  lemma {:induction false} DrainPartial(partial: string, ps: seq<string>, m: nat)
    requires forall i :: 0 <= i < |ps| ==> Decodable(ps[i])
    requires PartialFrame(partial, ps, m)
    ensures Drain(partial) == ([], partial)
  {
    if partial == [] {
      assert Drain(partial) == ([], partial);
    } else {
      ProperPrefixIncomplete(ps[m], partial);
    }
  }

  /** Complete frames come out and an incomplete trailing frame stays in the buffer. */
  lemma {:induction false} IncompleteTrailingFrameKept(ps: seq<string>, partial: string, m: nat)
    requires forall i :: 0 <= i < |ps| ==> Decodable(ps[i])
    requires PartialFrame(partial, ps, m)
    ensures Drain(Stream(ps) + partial) == (ps, partial)
  {
    DrainAfterFrames(ps, partial);
    DrainPartial(partial, ps, m);
    assert ps + [] == ps;
  }

  /**
   * Feeding a well-formed byte stream read by read gives the same frames,
   * and the same carry-over, as draining everything received at once.
   */
  lemma {:induction false} FeedIsDrain(ps: seq<string>, chunks: seq<string>)
    requires forall i :: 0 <= i < |ps| ==> Decodable(ps[i])
    requires |Flatten(chunks)| <= |Stream(ps)| && Flatten(chunks) == Stream(ps)[..|Flatten(chunks)|]
    ensures FeedAll([], chunks) == Drain(Flatten(chunks))
  {
    if chunks == [] {
      assert Drain([]) == ([], []);
    } else {
      var init := chunks[..|chunks| - 1];
      var last := chunks[|chunks| - 1];
      var f := Flatten(init);
      assert Flatten(chunks) == f + last;
      PrefixOfPrefix(Stream(ps), f, last);
      FeedIsDrain(ps, init);
      var m, partial := PrefixOfStream(ps, f);
      var ms := ps[..m];
      DrainPartialOf(ps, partial, m, ms);
      AppendAssoc(Stream(ms), partial, last);
      DrainOfEqual(f + last, Stream(ms) + (partial + last));
      DrainAfterFrames(ms, partial + last);
    }
  }

  lemma {:induction false} PrefixOfPrefix(s: string, f: string, last: string)
    requires |f + last| <= |s| && f + last == s[..|f + last|]
    ensures |f| <= |s| && f == s[..|f|]
  {
    assert f == (f + last)[..|f|];
  }

  lemma {:induction false} AppendAssoc<T>(a: seq<T>, b: seq<T>, c: seq<T>)
    ensures a + b + c == a + (b + c)
  {
  }


  lemma {:induction false} DrainPartialOf(ps: seq<string>, partial: string, m: nat, ms: seq<string>)
    requires forall i :: 0 <= i < |ps| ==> Decodable(ps[i])
    requires m <= |ps| && ms == ps[..m]
    requires PartialFrame(partial, ps, m)
    ensures Drain(Stream(ms) + partial) == (ms, partial)
  {
    DrainAfterFrames(ms, partial);
    DrainPartial(partial, ps, m);
    assert ms + [] == ms;
  }

  /**
   * Chunking invariance: however the frames of a well-formed stream are
   * split across reads, a fresh decoder returns exactly those payloads in
   * order and ends with an empty buffer.
   */
  lemma {:induction false} ChunkingInvariance(ps: seq<string>, chunks: seq<string>)
    requires forall i :: 0 <= i < |ps| ==> Decodable(ps[i])
    requires Flatten(chunks) == Stream(ps)
    ensures FeedAll([], chunks) == (ps, [])
  {
    FeedIsDrain(ps, chunks);
    DrainAfterFrames(ps, []);
    assert Stream(ps) + [] == Stream(ps);
    assert Drain([]) == ([], []);
    assert ps + [] == ps;
  }

  /** A length field without parseable digits is dropped up to and including the separator. */
  lemma {:induction false} CorruptHeaderSkipped(h: string, t: string)
    requires forall i :: 0 <= i < |h| ==> h[i] != '\r'
    requires Stoi(h) == None
    ensures DecodeStep(Marker + h + Separator + t) == Corrupt(t)
    ensures Drain(Marker + h + Separator + t) == Drain(t)
  {
    StepOfHeader(h, t);
  }

  /** A declared length of zero or less stops the loop with the buffer untouched. */
  lemma {:induction false} NonPositiveLengthStalls(h: string, t: string)
    requires forall i :: 0 <= i < |h| ==> h[i] != '\r'
    requires Stoi(h).Some? && Stoi(h).value <= 0
    ensures Drain(Marker + h + Separator + t) == ([], Marker + h + Separator + t)
  {
    StepOfHeader(h, t);
  }

  /** A buffer shorter than the declared frame stops the loop with the buffer untouched. */
  lemma {:induction false} ShortBodyStalls(h: string, t: string)
    requires forall i :: 0 <= i < |h| ==> h[i] != '\r'
    requires Stoi(h).Some? && |t| < Stoi(h).value
    ensures Drain(Marker + h + Separator + t) == ([], Marker + h + Separator + t)
  {
    StepOfHeader(h, t);
  }

  /** The corrupt-header recovery case: garbage header, then a valid two-byte frame. */
  lemma {:induction false} CorruptHeaderThenFrame()
    ensures Drain("Content-Length: abc\r\n\r\n" + "Content-Length: 2\r\n\r\n{}") == (["{}"], [])
  {
    assert Stoi("abc") == None by {
      assert SkipSpaces("abc", 0) == 0;
      assert SkipDigits("abc", 0) == 0;
    }
    assert Encode("{}") == "Content-Length: 2\r\n\r\n{}";
    assert "Content-Length: abc\r\n\r\n" + "Content-Length: 2\r\n\r\n{}" == Marker + "abc" + Separator + Encode("{}");
    CorruptHeaderSkipped("abc", Encode("{}"));
    EncodeThenDecode("{}");
  }
}
