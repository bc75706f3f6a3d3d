/** `consumeCodexSSE`: the line loop driving the reassembler, from the text of a stream
    to the answer. internal/model/providers/codex/codex.go */
module CodexStream {
  import opened Wrappers
  import opened Strings
  import opened CodexModel
  import CodexSafety
  import Codex
  import opened TextLines
  import opened SseFraming

  /** `json.Unmarshal` of a payload. */
  type Decoder = string -> Option<Event>

  datatype Step = Skip | Stop | Bad | Do(evt: Event)

  /** What `applyCodexSSEPayload` makes of a frame, before it looks at the event. */
  function Meaning(decode: Decoder, f: Frame): Step {
    var payload := TrimSpace(f.data);
    if payload == "" then Skip
    else if payload == "[DONE]" then Stop
    else match decode(payload)
      case None => Bad
      case Some(evt) => Do(if evt.kind == "" && f.event != "" then evt.(kind := f.event) else evt)
  }

  datatype Progress = Running(st: State) | Stopped(st: State) | Broken

  /** One frame: run on, stop early, or give up with an error. */
  function OneFrame(j: Json, decode: Decoder, st: State, f: Frame): (r: Progress)
    requires st.Wf()
    ensures !r.Broken? ==> r.st.Wf()
  {
    match Meaning(decode, f)
    case Skip => Running(st)
    case Stop => Stopped(st)
    case Bad => Broken
    case Do(evt) => if Fails(evt) then Broken else Running(Applied(j, st, evt))
  }

  function RunFrames(j: Json, decode: Decoder, st: State, frames: seq<Frame>): (r: Progress)
    requires st.Wf()
    ensures !r.Broken? ==> r.st.Wf()
    decreases |frames|
  {
    if frames == [] then Running(st)
    else
      var p := OneFrame(j, decode, st, frames[0]);
      if p.Running? then RunFrames(j, decode, p.st, frames[1..]) else p
  }

  datatype Answer = Answer(content: string, calls: seq<Call>)

  function AnswerOf(st: State): Answer
    requires st.Wf()
  {
    Answer(st.content, ListedCalls(st))
  }

  /** The answer to a text, or `None` for an error: `broken` tells whether the connection
      fails after the text, `noticed` whether the scanner knows by the time the loop stops early. */
  function AnswerTo(j: Json, decode: Decoder, text: string, broken: bool, noticed: bool): Option<Answer> {
    var (lines, tooLong) := Scanned(Lines(text));
    match RunFrames(j, decode, Empty, FramesFrom("", [], lines, !tooLong && !broken))
    case Broken => None
    case Running(st) => if tooLong || broken then None else Some(AnswerOf(Finished(j, st)))
    case Stopped(st) => if broken && noticed then None else Some(AnswerOf(Finished(j, st)))
  }

  // ---- The loop ----

  lemma RunFramesSplit(j: Json, decode: Decoder, st: State, f: Frame, rest: seq<Frame>)
    requires st.Wf()
    ensures RunFrames(j, decode, st, [f] + rest) ==
            var p := OneFrame(j, decode, st, f); if p.Running? then RunFrames(j, decode, p.st, rest) else p
  {
    hide OneFrame;
    assert ([f] + rest)[0] == f && ([f] + rest)[1..] == rest;
  }

  lemma RunNoFrames(j: Json, decode: Decoder, st: State)
    requires st.Wf()
    ensures RunFrames(j, decode, st, []) == Running(st)
  {
  }

  /** `flushEvent` with data: join the lines and apply the payload. */
  method Flush(buffer: Codex.Reassembler, decode: Decoder, f: Frame) returns (done: bool, failed: bool)
    requires buffer.Valid()
    modifies buffer, buffer.buffers
    ensures buffer.Valid() && fresh(buffer.buffers - old(buffer.buffers))
    ensures OneFrame(buffer.json, decode, old(buffer.model), f) ==
            if failed then Broken else if done then Stopped(buffer.model) else Running(buffer.model)
  {
    hide Applied;
    done, failed := false, false;
    var payload := TrimSpace(f.data);
    if payload == "" {
      return;
    }
    if payload == "[DONE]" {
      done := true;
      return;
    }
    match decode(payload) {
      case None => failed := true;
      case Some(evt) =>
        failed := buffer.Apply(if evt.kind == "" && f.event != "" then evt.(kind := f.event) else evt);
    }
  }

  ghost function Rest(j: Json, decode: Decoder, st: State, event: string, data: seq<string>, lines: seq<string>,
                      flush: bool): Progress
    requires st.Wf()
  {
    RunFrames(j, decode, st, FramesFrom(event, data, lines, flush))
  }

  lemma RestOfBlankLine(j: Json, decode: Decoder, st: State, event: string, data: seq<string>, line: string,
                        rest: seq<string>, flush: bool)
    requires st.Wf() && TrimCR(line) == ""
    ensures data == [] ==>
            Rest(j, decode, st, event, data, [line] + rest, flush) == Rest(j, decode, st, "", [], rest, flush)
    ensures data != [] ==>
      Rest(j, decode, st, event, data, [line] + rest, flush) ==
      (var p := OneFrame(j, decode, st, Frame(event, Join(data)));
       if p.Running? then Rest(j, decode, p.st, "", [], rest, flush) else p)
  {
    hide OneFrame, RunFrames, Join;
    assert ([line] + rest)[0] == line && ([line] + rest)[1..] == rest;
    if data != [] {
      RunFramesSplit(j, decode, st, Frame(event, Join(data)), FramesFrom("", [], rest, flush));
    } else {
      assert [] + FramesFrom("", [], rest, flush) == FramesFrom("", [], rest, flush);
    }
  }

  lemma RestOfLine(j: Json, decode: Decoder, st: State, event: string, data: seq<string>, line: string,
                   rest: seq<string>, flush: bool)
    requires st.Wf() && TrimCR(line) != ""
    ensures var l := TrimCR(line);
      Rest(j, decode, st, event, data, [line] + rest, flush) ==
      if ":" <= l then Rest(j, decode, st, event, data, rest, flush)
      else if EVENT <= l then Rest(j, decode, st, TrimSpace(l[|EVENT|..]), data, rest, flush)
      else if DATA <= l then Rest(j, decode, st, event, data + [Payload(l)], rest, flush)
      else Rest(j, decode, st, event, data, rest, flush)
  {
    hide OneFrame, RunFrames, Join, TrimCR, TrimSpace, Payload;
    assert ([line] + rest)[0] == line && ([line] + rest)[1..] == rest;
  }

  /** The body of the line loop. */
  method TakeLine(buffer: Codex.Reassembler, decode: Decoder, event: string, data: seq<string>, text: string,
                  ghost rest: seq<string>, ghost flush: bool)
    returns (event': string, data': seq<string>, done: bool, failed: bool)
    requires buffer.Valid()
    modifies buffer, buffer.buffers
    ensures buffer.Valid() && fresh(buffer.buffers - old(buffer.buffers))
    ensures Rest(buffer.json, decode, old(buffer.model), event, data, [text] + rest, flush) ==
            if failed then Broken else if done then Stopped(buffer.model)
            else Rest(buffer.json, decode, buffer.model, event', data', rest, flush)
  {
    hide OneFrame, Rest, TrimCR, TrimSpace, Payload, Join;
    event', data', done, failed := event, data, false, false;
    var line := TrimCR(text);
    if line == "" {
      RestOfBlankLine(buffer.json, decode, buffer.model, event, data, text, rest, flush);
      if data != [] {
        done, failed := Flush(buffer, decode, Frame(event, Join(data)));
      }
      event', data' := "", [];
      return;
    }
    RestOfLine(buffer.json, decode, buffer.model, event, data, text, rest, flush);
    if ":" <= line {
      return;
    }
    if EVENT <= line {
      event' := TrimSpace(line[|EVENT|..]);
      return;
    }
    if DATA <= line {
      data' := data + [Payload(line)];
    }
  }

  lemma RestAtEnd(j: Json, decode: Decoder, st: State, event: string, data: seq<string>, flush: bool)
    requires st.Wf()
    ensures Rest(j, decode, st, event, data, [], flush) ==
            if data == [] || !flush then Running(st) else OneFrame(j, decode, st, Frame(event, Join(data)))
  {
    hide OneFrame, Join;
    if data != [] && flush {
      var f := Frame(event, Join(data));
      assert FramesFrom(event, data, [], flush) == [f] + [];
      RunFramesSplit(j, decode, st, f, []);
    }
  }

  /** All the lines; `done` tells whether a `[DONE]` was seen. Pending data is applied at the
      end only if reading has not failed. */
  method ReadLines(buffer: Codex.Reassembler, decode: Decoder, lines: seq<string>, flush: bool)
    returns (done: bool, failed: bool)
    requires buffer.Valid()
    modifies buffer, buffer.buffers
    ensures buffer.Valid() && fresh(buffer.buffers - old(buffer.buffers))
    ensures RunFrames(buffer.json, decode, old(buffer.model), FramesFrom("", [], lines, flush)) ==
            if failed then Broken else if done then Stopped(buffer.model) else Running(buffer.model)
  {
    hide OneFrame, RunFrames, FramesFrom, Join;
    done, failed := false, false;
    ghost var st := buffer.model;
    var event, data, n := "", [], 0;
    assert lines[0..] == lines;
    while n < |lines|
      invariant 0 <= n <= |lines| && !done && !failed && buffer.Valid() && fresh(buffer.buffers - old(buffer.buffers))
      invariant Rest(buffer.json, decode, buffer.model, event, data, lines[n..], flush) ==
                Rest(buffer.json, decode, st, "", [], lines, flush)
    {
      assert lines[n..] == [lines[n]] + lines[n + 1..];
      event, data, done, failed := TakeLine(buffer, decode, event, data, lines[n], lines[n + 1..], flush);
      if failed || done {
        return;
      }
      n := n + 1;
    }
    assert lines[n..] == [];
    RestAtEnd(buffer.json, decode, buffer.model, event, data, flush);
    if data != [] && flush {
      done, failed := Flush(buffer, decode, Frame(event, Join(data)));
    }
  }

  /** `consumeCodexSSE`: the answer depends on the frames of the text alone, and is the
      one that the reassembler's model gives for them. A line that is too long and a failed
      connection are errors, unless the stream was done before. */
  method Consume(json: Json, decode: Decoder, text: string, broken: bool, noticed: bool) returns (r: Option<Answer>)
    ensures r == AnswerTo(json, decode, text, broken, noticed)
  {
    hide OneFrame, RunFrames, FramesFrom, Lines, Finished, Scanned;
    var buffer := new Codex.Reassembler(json);
    var (lines, tooLong) := Scanned(Lines(text));
    var done, failed := ReadLines(buffer, decode, lines, !tooLong && !broken);
    if failed {
      return None;
    }
    if if done then broken && noticed else tooLong || broken {
      return None;
    }
    buffer.Finish();
    var calls := buffer.List();
    r := Some(Answer(buffer.content, calls));
  }

  // ---- From the text of a stream to its answer ----

  /** The events of frames that neither stop the stream nor break it. */
  ghost predicate Plain(decode: Decoder, frames: seq<Frame>) {
    forall n :: 0 <= n < |frames| ==>
      Meaning(decode, frames[n]).Skip? || (Meaning(decode, frames[n]).Do? && !Fails(Meaning(decode, frames[n]).evt))
  }

  function EventsOf(decode: Decoder, frames: seq<Frame>): seq<Event> {
    if frames == [] then []
    else
      var m := Meaning(decode, frames[|frames| - 1]);
      EventsOf(decode, frames[..|frames| - 1]) + if m.Do? then [m.evt] else []
  }

  lemma {:induction false} RunFramesSnoc(j: Json, decode: Decoder, st: State, frames: seq<Frame>, f: Frame)
    requires st.Wf()
    ensures RunFrames(j, decode, st, frames + [f]) ==
            var p := RunFrames(j, decode, st, frames); if p.Running? then OneFrame(j, decode, p.st, f) else p
    decreases |frames|
  {
    hide OneFrame;
    if frames == [] {
      assert [] + [f] == [f];
      RunFramesSplit(j, decode, st, f, []);
    } else {
      assert frames + [f] == [frames[0]] + (frames[1..] + [f]);
      RunFramesSplit(j, decode, st, frames[0], frames[1..] + [f]);
      var p := OneFrame(j, decode, st, frames[0]);
      if p.Running? {
        RunFramesSnoc(j, decode, p.st, frames[1..], f);
      }
    }
  }

  lemma {:induction false} PlainFramesAreEvents(j: Json, decode: Decoder, frames: seq<Frame>)
    requires Plain(decode, frames)
    ensures RunFrames(j, decode, Empty, frames) == Running(RunEvents(j, Empty, EventsOf(decode, frames)))
  {
    hide Applied, Meaning, RunFrames;
    if frames != [] {
      var m := |frames| - 1;
      PlainFramesAreEvents(j, decode, frames[..m]);
      assert frames == frames[..m] + [frames[m]];
      RunFramesSnoc(j, decode, Empty, frames[..m], frames[m]);
      var before, d := EventsOf(decode, frames[..m]), Meaning(decode, frames[m]);
      if d.Do? {
        assert (before + [d.evt])[..|before|] == before;
      } else {
        assert before + [] == before;
      }
    } else {
      RunNoFrames(j, decode, Empty);
    }
  }

  /** Nothing after a frame that stops or breaks the run has any effect. */
  lemma {:induction false} NothingAfterTheEnd(j: Json, decode: Decoder, st: State, frames: seq<Frame>,
                                              later: seq<Frame>)
    requires st.Wf() && !RunFrames(j, decode, st, frames).Running?
    ensures RunFrames(j, decode, st, frames + later) == RunFrames(j, decode, st, frames)
    decreases |later|
  {
    hide OneFrame, RunFrames;
    if later == [] {
      assert frames + later == frames;
    } else {
      var m := |later| - 1;
      NothingAfterTheEnd(j, decode, st, frames, later[..m]);
      assert frames + later == (frames + later[..m]) + [later[m]];
      RunFramesSnoc(j, decode, st, frames + later[..m], later[m]);
    }
  }

  /** A written stream of plain frames, up to `[DONE]` and whatever follows it, is
      answered by the fold of its events, also when the connection fails after that. */
  lemma WrittenStreamIsAnswered(j: Json, decode: Decoder, frames: seq<Frame>, done: Frame, later: seq<Frame>,
                                broken: bool, noticed: bool)
    requires forall f :: f in frames + [done] + later ==> Encodable(f)
    requires forall line :: line in AllLines(frames + [done] + later) ==> |line| < MAX_LINE
    requires Plain(decode, frames) && Meaning(decode, done).Stop? && !(broken && noticed)
    ensures AnswerTo(j, decode, Encode(frames + [done] + later), broken, noticed) ==
            Some(AnswerOf(Finished(j, RunEvents(j, Empty, EventsOf(decode, frames)))))
  {
    hide Encodable, Plain, Meaning, FramesFrom, Lines, AllLines, Terminated, RunFrames, RunEvents, Finished, Scanned;
    var all := frames + [done] + later;
    AllLinesHaveNoLF(all);
    LinesOfTerminated(AllLines(all));
    ReadFrames(all, !broken);
    PlainFramesAreEvents(j, decode, frames);
    RunFramesSnoc(j, decode, Empty, frames, done);
    NothingAfterTheEnd(j, decode, Empty, frames + [done], later);
  }

  /** A line that is too long is an error, unless the stream was done before it. */
  lemma TooLongIsAnError(j: Json, decode: Decoder, text: string, broken: bool, noticed: bool)
    requires exists line :: line in Lines(text) && |line| >= MAX_LINE
    requires !RunFrames(j, decode, Empty, FramesFrom("", [], Scanned(Lines(text)).0, false)).Stopped?
    ensures AnswerTo(j, decode, text, broken, noticed) == None
  {
    hide RunFrames, FramesFrom, Lines, Finished, Scanned;
  }

  /** So is a connection that fails, unless the stream was done before it. */
  lemma BrokenIsAnError(j: Json, decode: Decoder, text: string, noticed: bool)
    requires !RunFrames(j, decode, Empty, FramesFrom("", [], Scanned(Lines(text)).0, false)).Stopped?
    ensures AnswerTo(j, decode, text, true, noticed) == None
  {
    hide RunFrames, FramesFrom, Lines, Finished, Scanned;
  }

  // ---- The same, of events ----

  /** The payload of the frame is the event `raw`; a missing kind is the event name. */
  ghost predicate Carries(decode: Decoder, f: Frame, evt: Event) {
    && TrimSpace(f.data) != "" && TrimSpace(f.data) != "[DONE]" && decode(TrimSpace(f.data)).Some?
    && var raw := decode(TrimSpace(f.data)).value;
       evt == if raw.kind == "" && f.event != "" then raw.(kind := f.event) else raw
  }

  /** The kinds that announce a failure, and a response that has failed. */
  predicate Announces(evt: Event) {
    evt.kind in {"response.failed", "error"} || (evt.kind == "response.completed" && evt.response.status == "failed")
  }

  lemma CarriesMeans(decode: Decoder, f: Frame, evt: Event)
    requires Carries(decode, f, evt)
    ensures Meaning(decode, f) == Do(evt) && (Fails(evt) <==> Announces(evt))
  {
  }

  lemma {:induction false} CarriedEvents(decode: Decoder, frames: seq<Frame>, evts: seq<Event>)
    requires |frames| == |evts|
    requires forall n :: 0 <= n < |evts| ==> Carries(decode, frames[n], evts[n]) && !Announces(evts[n])
    ensures Plain(decode, frames) && EventsOf(decode, frames) == evts
  {
    hide Carries, Meaning, Fails, Announces;
    forall n | 0 <= n < |frames| ensures Meaning(decode, frames[n]) == Do(evts[n]) && !Fails(evts[n]) {
      CarriesMeans(decode, frames[n], evts[n]);
    }
    if frames != [] {
      var m := |frames| - 1;
      CarriedEvents(decode, frames[..m], evts[..m]);
      assert evts == evts[..m] + [evts[m]];
    }
  }

  /** Events written one to a frame, and then `[DONE]` and anything else: the answer is what the
      reassembler makes of these events in their order. */
  lemma WrittenEventsAreAnswered(j: Json, decode: Decoder, frames: seq<Frame>, evts: seq<Event>, done: Frame,
                                 later: seq<Frame>, broken: bool, noticed: bool)
    requires forall f :: f in frames + [done] + later ==> Encodable(f)
    requires forall line :: line in AllLines(frames + [done] + later) ==> |line| < MAX_LINE
    requires |frames| == |evts| && TrimSpace(done.data) == "[DONE]" && !(broken && noticed)
    requires forall n :: 0 <= n < |evts| ==> Carries(decode, frames[n], evts[n]) && !Announces(evts[n])
    ensures AnswerTo(j, decode, Encode(frames + [done] + later), broken, noticed) ==
            Some(AnswerOf(Finished(j, RunEvents(j, Empty, evts))))
  {
    hide Carries, Announces, Encodable, AllLines, AnswerTo, RunEvents, Finished, Plain;
    CarriedEvents(decode, frames, evts);
    WrittenStreamIsAnswered(j, decode, frames, done, later, broken, noticed);
  }

  /** `[DONE]` may be missing at the end of a text. */
  lemma EndNeedsNoDone(j: Json, decode: Decoder, frames: seq<Frame>, evts: seq<Event>, noticed: bool)
    requires (forall f :: f in frames ==> Encodable(f)) && forall line :: line in AllLines(frames) ==> |line| < MAX_LINE
    requires |frames| == |evts|
    requires forall n :: 0 <= n < |evts| ==> Carries(decode, frames[n], evts[n]) && !Announces(evts[n])
    ensures AnswerTo(j, decode, Encode(frames), false, noticed) ==
            Some(AnswerOf(Finished(j, RunEvents(j, Empty, evts))))
  {
    hide Carries, Announces, Encodable, Plain, FramesFrom, Lines, AllLines, Terminated, RunFrames, RunEvents, Finished;
    hide Scanned;
    AllLinesHaveNoLF(frames);
    LinesOfTerminated(AllLines(frames));
    ReadFrames(frames, true);
    CarriedEvents(decode, frames, evts);
    PlainFramesAreEvents(j, decode, frames);
  }

  /** A frame after them that announces a failure, or is no event at all, is an error whatever
      comes later. */
  lemma FailureIsAnError(j: Json, decode: Decoder, frames: seq<Frame>, evts: seq<Event>, bad: Frame,
                         later: seq<Frame>, broken: bool, noticed: bool)
    requires forall f :: f in frames + [bad] + later ==> Encodable(f)
    requires forall line :: line in AllLines(frames + [bad] + later) ==> |line| < MAX_LINE
    requires |frames| == |evts| && TrimSpace(bad.data) != "" && TrimSpace(bad.data) != "[DONE]"
    requires forall n :: 0 <= n < |evts| ==> Carries(decode, frames[n], evts[n]) && !Announces(evts[n])
    requires decode(TrimSpace(bad.data)).Some? ==> exists evt :: Carries(decode, bad, evt) && Announces(evt)
    ensures AnswerTo(j, decode, Encode(frames + [bad] + later), broken, noticed) == None
  {
    hide Encodable, Plain, FramesFrom, Lines, AllLines, Terminated, RunFrames, RunEvents, Finished, Scanned, Announces;
    var all := frames + [bad] + later;
    AllLinesHaveNoLF(all);
    LinesOfTerminated(AllLines(all));
    ReadFrames(all, !broken);
    CarriedEvents(decode, frames, evts);
    PlainFramesAreEvents(j, decode, frames);
    RunFramesSnoc(j, decode, Empty, frames, bad);
    BadFrame(j, decode, RunEvents(j, Empty, evts), bad);
    NothingAfterTheEnd(j, decode, Empty, frames + [bad], later);
  }

  lemma BadFrame(j: Json, decode: Decoder, st: State, bad: Frame)
    requires st.Wf() && TrimSpace(bad.data) != "" && TrimSpace(bad.data) != "[DONE]"
    requires decode(TrimSpace(bad.data)).Some? ==> exists evt :: Carries(decode, bad, evt) && Announces(evt)
    ensures OneFrame(j, decode, st, bad) == Broken
  {
    hide Applied;
  }
}
