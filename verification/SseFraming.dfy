/** The line loop of the event stream: internal/model/providers/codex/codex.go, after
    sections 9.2.5 and 9.2.6 of the WHATWG HTML standard. */
module SseFraming {
  import opened Strings
  import opened TextLines

  datatype Frame = Frame(event: string, data: string)

  /** `strings.TrimRight(s, "\r")` */
  function TrimCR(s: string): string {
    if s != "" && s[|s| - 1] == '\r' then TrimCR(s[..|s| - 1]) else s
  }

  /** A line of 8 MiB or more does not fit into the scanner's buffer. */
  const MAX_LINE := 0x80_0000

  /** The lines that the scanner delivers, and whether one was too long. */
  function Scanned(lines: seq<string>): (r: (seq<string>, bool))
    ensures r.0 <= lines && (forall line :: line in r.0 ==> |line| < MAX_LINE)
    ensures r.1 <==> exists line :: line in lines && |line| >= MAX_LINE
    ensures if r.1 then |r.0| < |lines| && |lines[|r.0|]| >= MAX_LINE else r.0 == lines
  {
    if lines == [] then ([], false)
    else if |lines[0]| >= MAX_LINE then ([], true)
    else
      var (rest, tooLong) := Scanned(lines[1..]);
      ([lines[0]] + rest, tooLong)
  }

  const EVENT := "event:"
  const DATA := "data:"

  function Payload(line: string): string
    requires DATA <= line
  {
    var p := line[|DATA|..];
    if p != "" && p[0] == ' ' then p[1..] else p
  }

  /** The frames that the loop hands on, starting with a pending event name and data. When
      the lines are at an end, pending data is one more frame, unless reading has failed. */
  function FramesFrom(event: string, data: seq<string>, lines: seq<string>, flush: bool): seq<Frame>
    decreases |lines|
  {
    if lines == [] then
      if data == [] || !flush then [] else [Frame(event, Join(data))]
    else
      var line := TrimCR(lines[0]);
      if line == "" then
        (if data == [] then [] else [Frame(event, Join(data))]) + FramesFrom("", [], lines[1..], flush)
      else if ":" <= line then FramesFrom(event, data, lines[1..], flush)
      else if EVENT <= line then FramesFrom(TrimSpace(line[|EVENT|..]), data, lines[1..], flush)
      else if DATA <= line then FramesFrom(event, data + [Payload(line)], lines[1..], flush)
      else FramesFrom(event, data, lines[1..], flush)
  }

  // ---- Writing frames ----

  function DataLines(lines: seq<string>): seq<string> {
    if lines == [] then [] else ["data: " + lines[0]] + DataLines(lines[1..])
  }

  function FrameLines(f: Frame): seq<string> {
    ["event: " + f.event] + DataLines(SplitLines(f.data)) + [""]
  }

  function AllLines(frames: seq<Frame>): seq<string> {
    if frames == [] then [] else FrameLines(frames[0]) + AllLines(frames[1..])
  }

  function Encode(frames: seq<Frame>): string {
    Terminated(AllLines(frames))
  }

  /** The event name has no line feed and nothing to trim; no data line ends in a carriage return. */
  ghost predicate Encodable(f: Frame) {
    && NoLF(f.event) && Trimmed(f.event)
    && forall line :: line in SplitLines(f.data) ==> TrimCR(line) == line
  }

  // ---- Reading them back ----

  lemma {:induction false} DataLinesHaveNoLF(lines: seq<string>)
    requires forall line :: line in lines ==> NoLF(line)
    ensures forall line :: line in DataLines(lines) ==> NoLF(line)
  {
    if lines != [] {
      assert NoLF(lines[0]);
      DataLinesHaveNoLF(lines[1..]);
    }
  }

  lemma FrameLinesHaveNoLF(f: Frame)
    requires Encodable(f)
    ensures forall line :: line in FrameLines(f) ==> NoLF(line)
  {
    hide SplitLines, DataLines;
    SplitLinesHaveNoLF(f.data);
    DataLinesHaveNoLF(SplitLines(f.data));
    assert NoLF("event: " + f.event);
  }

  lemma {:induction false} AllLinesHaveNoLF(frames: seq<Frame>)
    requires forall f :: f in frames ==> Encodable(f)
    ensures forall line :: line in AllLines(frames) ==> NoLF(line)
  {
    hide FrameLines, Encodable, NoLF;
    if frames != [] {
      FrameLinesHaveNoLF(frames[0]);
      AllLinesHaveNoLF(frames[1..]);
    }
  }

  predicate NoCR(s: string) {
    s == "" || s[|s| - 1] != '\r'
  }

  lemma TrimCRNeedsCR(s: string)
    ensures TrimCR(s) == s <==> NoCR(s)
  {
    if !NoCR(s) {
      TrimCRShrinks(s[..|s| - 1]);
    }
  }

  lemma {:induction false} TrimCRShrinks(s: string)
    ensures |TrimCR(s)| <= |s|
  {
    if !NoCR(s) {
      TrimCRShrinks(s[..|s| - 1]);
    }
  }

  lemma TrimCRKeepsHead(s: string, line: string)
    requires NoCR(line) && s != "" && NoCR(s)
    ensures TrimCR(s + line) == s + line
  {
    assert (s + line)[|s + line| - 1] == if line == "" then s[|s| - 1] else line[|line| - 1];
    TrimCRNeedsCR(s + line);
  }

  lemma ReadDataLine(event: string, data: seq<string>, line: string, rest: seq<string>, flush: bool)
    requires NoCR(line)
    ensures FramesFrom(event, data, ["data: " + line] + rest, flush) == FramesFrom(event, data + [line], rest, flush)
  {
    hide TrimCR, TrimSpace, Join;
    var l := "data: " + line;
    TrimCRKeepsHead("data: ", line);
    assert ([l] + rest)[0] == l && ([l] + rest)[1..] == rest;
    assert l[0] == 'd' && DATA <= l && l[|DATA|..] == " " + line && (" " + line)[1..] == line;
    assert !(":" <= l) && !(EVENT <= l) && Payload(l) == line;
  }

  /** The data lines of one frame, read one after the other. */
  lemma {:induction false} ReadDataLines(event: string, data: seq<string>, lines: seq<string>, rest: seq<string>,
                                         flush: bool)
    requires forall line :: line in lines ==> NoCR(line)
    ensures FramesFrom(event, data, DataLines(lines) + rest, flush) == FramesFrom(event, data + lines, rest, flush)
    decreases |lines|
  {
    hide FramesFrom, NoCR;
    if lines == [] {
      assert DataLines(lines) + rest == rest && data + lines == data;
    } else {
      assert DataLines(lines) + rest == ["data: " + lines[0]] + (DataLines(lines[1..]) + rest);
      ReadDataLine(event, data, lines[0], DataLines(lines[1..]) + rest, flush);
      ReadDataLines(event, data + [lines[0]], lines[1..], rest, flush);
      assert data + [lines[0]] + lines[1..] == data + lines;
    }
  }

  lemma TrimmedHasNoCR(s: string)
    requires Trimmed(s)
    ensures NoCR(s)
  {
    assert IsSpace('\r');
  }

  lemma TrimAfterSpace(s: string)
    requires Trimmed(s)
    ensures TrimSpace(" " + s) == s
  {
    assert (" " + s)[1..] == s && IsSpace(' ');
    assert TrimLeft(" " + s) == TrimLeft(s) == s;
    assert TrimRight(s) == s;
  }

  lemma ReadEventLine(event: string, rest: seq<string>, flush: bool)
    requires Trimmed(event)
    ensures FramesFrom("", [], ["event: " + event] + rest, flush) == FramesFrom(event, [], rest, flush)
  {
    hide TrimCR, TrimSpace, Trimmed, Join, Payload;
    var l := "event: " + event;
    TrimmedHasNoCR(event);
    TrimAfterSpace(event);
    TrimCRKeepsHead("event: ", event);
    assert ([l] + rest)[0] == l && ([l] + rest)[1..] == rest;
    assert l[0] == 'e' && EVENT <= l && l[|EVENT|..] == " " + event;
    assert !(":" <= l);
  }

  lemma ReadBlankLine(event: string, data: seq<string>, rest: seq<string>, flush: bool)
    requires data != []
    ensures FramesFrom(event, data, [""] + rest, flush) == [Frame(event, Join(data))] + FramesFrom("", [], rest, flush)
  {
    hide Join;
    assert ([""] + rest)[0] == "" && ([""] + rest)[1..] == rest;
  }

  lemma ReadFrame(f: Frame, rest: seq<string>, flush: bool)
    requires Encodable(f)
    ensures FramesFrom("", [], FrameLines(f) + rest, flush) == [f] + FramesFrom("", [], rest, flush)
  {
    hide FramesFrom, SplitLines, DataLines, Trimmed, TrimCR;
    var lines := SplitLines(f.data);
    assert FrameLines(f) + rest == ["event: " + f.event] + (DataLines(lines) + ([""] + rest));
    ReadEventLine(f.event, DataLines(lines) + ([""] + rest), flush);
    forall line | line in lines ensures NoCR(line) {
      TrimCRNeedsCR(line);
    }
    ReadDataLines(f.event, [], lines, [""] + rest, flush);
    assert [] + lines == lines;
    ReadBlankLine(f.event, lines, rest, flush);
    JoinOfSplit(f.data);
  }

  /** Reading undoes writing, frame by frame. */
  lemma {:induction false} ReadFrames(frames: seq<Frame>, flush: bool)
    requires forall f :: f in frames ==> Encodable(f)
    ensures FramesFrom("", [], AllLines(frames), flush) == frames
  {
    hide FrameLines, Encodable;
    if frames != [] {
      ReadFrames(frames[1..], flush);
      ReadFrame(frames[0], AllLines(frames[1..]), flush);
    }
  }

  /** Every list of frames comes back from its text, name by name and character by character. */
  lemma DecodeOfEncode(frames: seq<Frame>, flush: bool)
    requires forall f :: f in frames ==> Encodable(f)
    ensures FramesFrom("", [], Lines(Encode(frames)), flush) == frames
  {
    hide Encodable, NoLF, FramesFrom, Lines, AllLines, Terminated;
    AllLinesHaveNoLF(frames);
    LinesOfTerminated(AllLines(frames));
    ReadFrames(frames, flush);
  }

  // ---- Streams that mean the same ----

  /** What two continuations have in common when they are read alike after anything. */
  ghost predicate ReadAlike(b: seq<string>, c: seq<string>, flush: bool) {
    forall event, data {:trigger FramesFrom(event, data, b, flush)} ::
      FramesFrom(event, data, b, flush) == FramesFrom(event, data, c, flush)
  }

  lemma FirstLine(event: string, data: seq<string>, line: string, rest: seq<string>, flush: bool)
    ensures var l := TrimCR(line);
      FramesFrom(event, data, [line] + rest, flush) ==
      if l == "" then (if data == [] then [] else [Frame(event, Join(data))]) + FramesFrom("", [], rest, flush)
      else if ":" <= l then FramesFrom(event, data, rest, flush)
      else if EVENT <= l then FramesFrom(TrimSpace(l[|EVENT|..]), data, rest, flush)
      else if DATA <= l then FramesFrom(event, data + [Payload(l)], rest, flush)
      else FramesFrom(event, data, rest, flush)
  {
    hide TrimCR, TrimSpace, Payload, Join;
    assert ([line] + rest)[0] == line && ([line] + rest)[1..] == rest;
  }

  lemma {:induction false} AlikeAnywhere(event: string, data: seq<string>, a: seq<string>, b: seq<string>,
                                         c: seq<string>, flush: bool)
    requires ReadAlike(b, c, flush)
    ensures FramesFrom(event, data, a + b, flush) == FramesFrom(event, data, a + c, flush)
    decreases |a|
  {
    hide TrimCR, TrimSpace, Payload, Join, FramesFrom;
    if a == [] {
      assert a + b == b && a + c == c;
    } else {
      var l, t := TrimCR(a[0]), a[1..];
      assert a + b == [a[0]] + (t + b) && a + c == [a[0]] + (t + c);
      FirstLine(event, data, a[0], t + b, flush);
      FirstLine(event, data, a[0], t + c, flush);
      AlikeAnywhere("", [], t, b, c, flush);
      AlikeAnywhere(event, data, t, b, c, flush);
      AlikeAnywhere(TrimSpace(if EVENT <= l then l[|EVENT|..] else ""), data, t, b, c, flush);
      AlikeAnywhere(event, data + [if DATA <= l then Payload(l) else ""], t, b, c, flush);
    }
  }

  lemma {:induction false} TrimCROnce(s: string)
    ensures TrimCR(s + "\r") == TrimCR(s)
  {
    assert (s + "\r")[..|s|] == s;
  }

  lemma {:induction false} TrimCRKeepsPrefix(s: string, line: string)
    requires s != "" && NoCR(s)
    ensures s <= TrimCR(s + line)
  {
    if line == "" {
      assert s + line == s;
      TrimCRNeedsCR(s);
    } else if line[|line| - 1] == '\r' {
      var m := |line| - 1;
      assert s + line == (s + line[..m]) + "\r";
      TrimCROnce(s + line[..m]);
      TrimCRKeepsPrefix(s, line[..m]);
    } else {
      TrimCRKeepsHead(s, line);
    }
  }

  /** A comment, anywhere in a stream, changes nothing. */
  lemma CommentIsIgnored(a: seq<string>, comment: string, b: seq<string>, flush: bool)
    ensures FramesFrom("", [], a + [":" + comment] + b, flush) == FramesFrom("", [], a + b, flush)
  {
    hide FramesFrom, TrimCR;
    TrimCRKeepsPrefix(":", comment);
    forall event, data
      ensures FramesFrom(event, data, [":" + comment] + b, flush) == FramesFrom(event, data, b, flush)
    {
      FirstLine(event, data, ":" + comment, b, flush);
    }
    AlikeAnywhere("", [], a, [":" + comment] + b, b, flush);
    assert a + [":" + comment] + b == a + ([":" + comment] + b);
  }

  /** So does any other line that is not blank and starts with neither `event:` nor `data:`. */
  lemma OtherFieldIsIgnored(a: seq<string>, line: string, b: seq<string>, flush: bool)
    requires TrimCR(line) != "" && !(EVENT <= TrimCR(line)) && !(DATA <= TrimCR(line))
    ensures FramesFrom("", [], a + [line] + b, flush) == FramesFrom("", [], a + b, flush)
  {
    hide FramesFrom, TrimCR;
    forall event, data ensures FramesFrom(event, data, [line] + b, flush) == FramesFrom(event, data, b, flush) {
      FirstLine(event, data, line, b, flush);
    }
    AlikeAnywhere("", [], a, [line] + b, b, flush);
    assert a + [line] + b == a + ([line] + b);
  }

  /** A line may end in a carriage return. */
  lemma CarriageReturnIsIgnored(a: seq<string>, line: string, b: seq<string>, flush: bool)
    ensures FramesFrom("", [], a + [line + "\r"] + b, flush) == FramesFrom("", [], a + [line] + b, flush)
  {
    hide FramesFrom, TrimCR, TrimSpace, Payload, Join;
    TrimCROnce(line);
    forall event, data
      ensures FramesFrom(event, data, [line + "\r"] + b, flush) == FramesFrom(event, data, [line] + b, flush)
    {
      FirstLine(event, data, line + "\r", b, flush);
      FirstLine(event, data, line, b, flush);
    }
    AlikeAnywhere("", [], a, [line + "\r"] + b, [line] + b, flush);
    assert a + [line + "\r"] + b == a + ([line + "\r"] + b) && a + [line] + b == a + ([line] + b);
  }

  /** One space after `data:` is not part of the data; a second one is. */
  lemma SpaceIsOptional(a: seq<string>, d: string, b: seq<string>, flush: bool)
    requires NoCR(d) && (d == "" || d[0] != ' ')
    ensures FramesFrom("", [], a + ["data:" + d] + b, flush) == FramesFrom("", [], a + ["data: " + d] + b, flush)
  {
    hide FramesFrom, TrimCR, TrimSpace, Join;
    TrimCRKeepsHead("data:", d);
    assert ("data:" + d)[0] == 'd' && ("data:" + d)[|DATA|..] == d && Payload("data:" + d) == d;
    forall event, data
      ensures FramesFrom(event, data, ["data:" + d] + b, flush) == FramesFrom(event, data, ["data: " + d] + b, flush)
    {
      FirstLine(event, data, "data:" + d, b, flush);
      ReadDataLine(event, data, d, b, flush);
    }
    AlikeAnywhere("", [], a, ["data:" + d] + b, ["data: " + d] + b, flush);
    assert a + ["data:" + d] + b == a + (["data:" + d] + b) && a + ["data: " + d] + b == a + (["data: " + d] + b);
  }

  /** The last of several event names counts. */
  lemma LastEventNameCounts(a: seq<string>, x: string, y: string, b: seq<string>, flush: bool)
    ensures FramesFrom("", [], a + ["event:" + x, "event:" + y] + b, flush) ==
            FramesFrom("", [], a + ["event:" + y] + b, flush)
  {
    hide FramesFrom, TrimCR, TrimSpace, Payload, Join;
    var k, l := "event:" + x, "event:" + y;
    TrimCRKeepsPrefix("event:", x);
    TrimCRKeepsPrefix("event:", y);
    assert TrimCR(k)[0] == 'e' && TrimCR(l)[0] == 'e';
    assert [k, l] + b == [k] + ([l] + b);
    forall event, data ensures FramesFrom(event, data, [k, l] + b, flush) == FramesFrom(event, data, [l] + b, flush) {
      FirstLine(event, data, k, [l] + b, flush);
      FirstLine(event, data, l, b, flush);
      FirstLine(TrimSpace(TrimCR(k)[|EVENT|..]), data, l, b, flush);
    }
    AlikeAnywhere("", [], a, [k, l] + b, [l] + b, flush);
    assert a + [k, l] + b == a + ([k, l] + b) && a + [l] + b == a + ([l] + b);
  }

  /** An event name without data is forgotten at the next blank line. */
  lemma NameNeedsData(x: string, b: seq<string>, flush: bool)
    ensures FramesFrom("", [], ["event:" + x, ""] + b, flush) == FramesFrom("", [], b, flush)
  {
    hide FramesFrom, TrimSpace, Payload, Join;
    var k := "event:" + x;
    TrimCRKeepsPrefix("event:", x);
    assert TrimCR(k)[0] == 'e' && TrimCR("") == "";
    assert [k, ""] + b == [k] + ([""] + b);
    FirstLine("", [], k, [""] + b, flush);
    FirstLine(TrimSpace(TrimCR(k)[|EVENT|..]), [], "", b, flush);
    assert [] + FramesFrom("", [], b, flush) == FramesFrom("", [], b, flush);
  }

  /** The last frame needs no blank line behind it. */
  lemma LastBlankLineIsOptional(a: seq<string>)
    ensures FramesFrom("", [], a + [""], true) == FramesFrom("", [], a, true)
  {
    hide FramesFrom;
    assert a + [] == a;
    forall event, data ensures FramesFrom(event, data, [""], true) == FramesFrom(event, data, [], true) {
      BlankAtEnd(event, data);
    }
    AlikeAnywhere("", [], a, [""], [], true);
  }

  lemma BlankAtEnd(event: string, data: seq<string>)
    ensures FramesFrom(event, data, [""], true) == FramesFrom(event, data, [], true)
  {
    hide Join;
    assert [""][1..] == [] && FramesFrom("", [], [], true) == [];
  }
}
