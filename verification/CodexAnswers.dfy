/** What the answer says, read off the events of the stream: internal/model/providers/codex/codex.go. */
module CodexAnswers {
  import opened Wrappers
  import opened Strings
  import opened CodexModel
  import opened CodexSafety
  import opened CodexInterleaving
  import opened CodexThreads

  // ---- The text of the answer ----

  lemma Associative(a: string, b: string, c: string)
    ensures a + (b + c) == (a + b) + c
  {
  }

  function PartText(part: OutputText): string {
    if part.kind in {"output_text", "text", "input_text"} then part.text else ""
  }

  lemma FirstPart(part: OutputText, rest: seq<OutputText>)
    ensures OutputTextOf([part] + rest) == PartText(part) + OutputTextOf(rest)
  {
    assert ([part] + rest)[1..] == rest;
  }

  lemma NoParts()
    ensures OutputTextOf([]) == ""
  {
  }

  /** Parts of the three text kinds count, others do not, and the order is that of the list. */
  lemma {:induction false} OutputTextSnoc(a: seq<OutputText>, part: OutputText)
    ensures OutputTextOf(a + [part]) == OutputTextOf(a) + PartText(part)
  {
    hide OutputTextOf, PartText;
    NoParts();
    if a == [] {
      FirstPart(part, []);
      assert a + [part] == [part] + [];
    } else {
      OutputTextSnoc(a[1..], part);
      FirstPart(a[0], a[1..] + [part]);
      FirstPart(a[0], a[1..]);
      assert a == [a[0]] + a[1..] && a + [part] == [a[0]] + (a[1..] + [part]);
      Associative(PartText(a[0]), OutputTextOf(a[1..]), PartText(part));
    }
  }

  function TextDelta(evt: Event): string {
    if evt.kind == "response.output_text.delta" then evt.delta else ""
  }

  /** The deltas of the text in the order of the stream. */
  function TextDeltas(evts: seq<Event>): string {
    if evts == [] then "" else TextDelta(evts[0]) + TextDeltas(evts[1..])
  }

  /** The first message with a text among the items of a response. */
  function FirstMessage(items: seq<Item>): string {
    if items == [] then ""
    else if items[0].kind == "message" && OutputTextOf(items[0].content) != "" then OutputTextOf(items[0].content)
    else FirstMessage(items[1..])
  }

  /** The whole text that an event offers to an answer that has none yet. */
  function Offer(evt: Event): string {
    if evt.kind == "response.output_text.done" then evt.text
    else if evt.kind == "response.output_item.done" && evt.item.kind == "message" then OutputTextOf(evt.item.content)
    else if evt.kind == "response.completed" && evt.response.status != "failed" then FirstMessage(evt.response.output)
    else ""
  }

  lemma {:induction false} FirstMessageSnoc(items: seq<Item>, item: Item)
    ensures FirstMessage(items + [item]) ==
            if FirstMessage(items) != "" then FirstMessage(items)
            else if item.kind == "message" then OutputTextOf(item.content) else ""
  {
    if items == [] {
      assert [item][1..] == [] && items + [item] == [item];
    } else {
      FirstMessageSnoc(items[1..], item);
      assert items + [item] == [items[0]] + (items[1..] + [item]);
    }
  }

  lemma {:induction false} CompletedMeans(content: string, items: seq<Item>)
    ensures CompletedText(content, items) == if content == "" then FirstMessage(items) else content
  {
    hide OutputTextOf;
    if items != [] {
      var m := |items| - 1;
      CompletedMeans(content, items[..m]);
      FirstMessageSnoc(items[..m], items[m]);
      assert items == items[..m] + [items[m]];
    }
  }

  lemma TextMeans(content: string, evt: Event)
    ensures Text(content, evt) == if content == "" then TextDelta(evt) + Offer(evt) else content + TextDelta(evt)
  {
    hide OutputTextOf, FirstMessage;
    if evt.kind == "response.completed" {
      CompletedMeans(content, evt.response.output);
    }
  }

  lemma FirstDeltaOf(evt: Event, rest: seq<Event>)
    ensures TextDeltas([evt] + rest) == TextDelta(evt) + TextDeltas(rest)
  {
    assert ([evt] + rest)[1..] == rest;
  }

  lemma {:induction false} TextDeltasSnoc(evts: seq<Event>, evt: Event)
    ensures TextDeltas(evts + [evt]) == TextDeltas(evts) + TextDelta(evt)
  {
    hide TextDeltas, TextDelta;
    NoDeltas();
    if evts == [] {
      FirstDeltaOf(evt, []);
      assert evts + [evt] == [evt] + [];
    } else {
      TextDeltasSnoc(evts[1..], evt);
      FirstDeltaOf(evts[0], evts[1..] + [evt]);
      FirstDeltaOf(evts[0], evts[1..]);
      assert evts == [evts[0]] + evts[1..] && evts + [evt] == [evts[0]] + (evts[1..] + [evt]);
      Associative(TextDelta(evts[0]), TextDeltas(evts[1..]), TextDelta(evt));
    }
  }

  lemma NoDeltas()
    ensures TextDeltas([]) == ""
  {
  }

  /** Event `n` is the first that brings any text. */
  ghost predicate TextStarts(evts: seq<Event>, n: nat) {
    && n <= |evts|
    && (forall k :: 0 <= k < n ==> TextDelta(evts[k]) == "" && Offer(evts[k]) == "")
    && (n < |evts| ==> TextDelta(evts[n]) + Offer(evts[n]) != "")
  }

  /** The text is that of the first event that brings any, followed by all later deltas; what
      is offered later is ignored. */
  lemma {:induction false} TextIsFirstOfferThenDeltas(evts: seq<Event>, n: nat)
    requires TextStarts(evts, n)
    ensures AllText("", evts) == if n == |evts| then "" else Offer(evts[n]) + TextDeltas(evts[n..])
  {
    hide Text, TextDelta, TextDeltas, Offer, AllText;
    if evts == [] {
      NoText();
    } else {
      var m := |evts| - 1;
      assert evts[..m] + [evts[m]] == evts;
      TextSnoc(evts[..m], evts[m]);
      TextIsFirstOfferThenDeltas(evts[..m], if n < m then n else m);
      if n == m {
        FirstText(evts[m]);
        assert evts[m..] == [evts[m]];
      } else if n < m {
        LaterText(evts, n, m);
        assert evts[n..m + 1] == evts[n..];
      }
    }
  }

  lemma NoText()
    ensures AllText("", []) == ""
  {
  }

  lemma TextSnoc(evts: seq<Event>, evt: Event)
    ensures AllText("", evts + [evt]) ==
            var before := AllText("", evts);
            if before == "" then TextDelta(evt) + Offer(evt) else before + TextDelta(evt)
  {
    hide Text, TextDelta, Offer;
    assert (evts + [evt])[..|evts|] == evts;
    TextMeans(AllText("", evts), evt);
  }

  /** No event brings a delta and offers a whole text. */
  lemma FirstText(evt: Event)
    ensures TextDelta(evt) == "" || Offer(evt) == ""
    ensures TextDelta(evt) + Offer(evt) == Offer(evt) + TextDeltas([evt])
  {
    NoDeltas();
    FirstDeltaOf(evt, []);
    assert [evt] + [] == [evt];
  }

  lemma LaterText(evts: seq<Event>, n: nat, m: nat)
    requires n < m < |evts| && TextDelta(evts[n]) + Offer(evts[n]) != ""
    ensures Offer(evts[n]) + TextDeltas(evts[..m][n..]) != ""
    ensures evts[n..m + 1] == evts[..m][n..] + [evts[m]]
    ensures Offer(evts[n]) + TextDeltas(evts[n..m + 1]) ==
            Offer(evts[n]) + TextDeltas(evts[..m][n..]) + TextDelta(evts[m])
  {
    hide TextDelta, TextDeltas, Offer;
    var run := evts[..m][n..];
    assert run == [evts[n]] + run[1..] && evts[n..m + 1] == run + [evts[m]];
    FirstDeltaOf(evts[n], run[1..]);
    TextDeltasSnoc(run, evts[m]);
    Associative(Offer(evts[n]), TextDeltas(run), TextDelta(evts[m]));
  }

  lemma {:induction false} FinishingKeepsText(j: Json, st: State, n: nat)
    requires st.Wf() && n <= |st.calls|
    ensures Flushed(j, st, n).content == st.content
  {
    hide Normalize, Blank, Decimal;
    if n > 0 {
      FinishingKeepsText(j, st, n - 1);
    }
  }

  lemma AnswerText(j: Json, evts: seq<Event>)
    ensures Finished(j, RunEvents(j, Empty, evts)).content == AllText("", evts)
  {
    hide RunEvents, AllText, AllOps, Flushed;
    EventsAreOps(j, Empty, evts);
    FinishingKeepsText(j, RunEvents(j, Empty, evts), |RunEvents(j, Empty, evts).calls|);
  }

  /** When nothing but deltas brings text before the first delta that is not empty, the text
      of the answer is the deltas of the stream. */
  lemma DeltasAreTheText(j: Json, evts: seq<Event>, n: nat)
    requires n < |evts| && TextDelta(evts[n]) != "" && forall k :: 0 <= k < n ==> Offer(evts[k]) == ""
    ensures Finished(j, RunEvents(j, Empty, evts)).content == TextDeltas(evts)
  {
    hide RunEvents, TextDelta, TextDeltas, Offer, AllText, Finished;
    AnswerText(j, evts);
    var k := FirstDelta(evts, n);
    FirstText(evts[k]);
    TextIsFirstOfferThenDeltas(evts, k);
    SilentStart(evts, k);
  }

  /** When no delta brings any text, it is the first that is offered whole. */
  lemma OfferIsTheText(j: Json, evts: seq<Event>, n: nat)
    requires TextStarts(evts, n) && TextDeltas(evts) == ""
    ensures Finished(j, RunEvents(j, Empty, evts)).content == if n == |evts| then "" else Offer(evts[n])
  {
    hide RunEvents, TextDelta, TextDeltas, Offer, AllText, Finished;
    AnswerText(j, evts);
    TextIsFirstOfferThenDeltas(evts, n);
    SilentStart(evts, n);
  }

  lemma {:induction false} FirstDelta(evts: seq<Event>, n: nat) returns (k: nat)
    requires n < |evts| && TextDelta(evts[n]) != ""
    ensures k <= n && TextDelta(evts[k]) != "" && forall i :: 0 <= i < k ==> TextDelta(evts[i]) == ""
  {
    if m: nat :| m < n && TextDelta(evts[m]) != "" {
      k := FirstDelta(evts, m);
    } else {
      k := n;
    }
  }

  lemma {:induction false} SilentStart(evts: seq<Event>, n: nat)
    requires n <= |evts| && forall k :: 0 <= k < n ==> TextDelta(evts[k]) == ""
    ensures TextDeltas(evts) == TextDeltas(evts[n..])
  {
    hide TextDelta;
    if n == 0 {
      assert evts[0..] == evts;
    } else {
      SilentStart(evts[1..], n - 1);
      assert evts[1..][n - 1..] == evts[n..];
    }
  }

  // ---- The calls of the answer ----

  /** Events that reach one buffer without closing it. */
  predicate Touches(evt: Event) {
    || (evt.kind == "response.output_item.added" && evt.item.kind == "function_call")
    || evt.kind == "response.function_call_arguments.delta"
    || evt.kind == "response.function_call_arguments.done"
  }

  predicate Closes(evt: Event) {
    evt.kind == "response.output_item.done" && evt.item.kind == "function_call"
  }

  /** The arguments that an event gives whole, and the piece that it adds to them. */
  function Whole(evt: Event): string {
    if evt.kind == "response.function_call_arguments.delta" then ""
    else if evt.kind == "response.function_call_arguments.done" then evt.arguments
    else evt.item.arguments
  }

  function Piece(evt: Event): string {
    if evt.kind == "response.function_call_arguments.delta" then evt.delta else ""
  }

  function NameIn(evt: Event): string {
    if evt.kind == "response.function_call_arguments.delta" || evt.kind == "response.function_call_arguments.done"
    then evt.name else evt.item.name
  }

  function Pieces(evts: seq<Event>): string {
    if evts == [] then "" else Piece(evts[0]) + Pieces(evts[1..])
  }

  lemma {:induction false} PiecesSnoc(evts: seq<Event>, evt: Event)
    ensures Pieces(evts + [evt]) == Pieces(evts) + Piece(evt)
  {
    if evts == [] {
      assert [evt][1..] == [] && evts + [evt] == [evt];
    } else {
      PiecesSnoc(evts[1..], evt);
      assert evts + [evt] == [evts[0]] + (evts[1..] + [evt]);
    }
  }

  lemma OneOpEach(evt: Event)
    requires Touches(evt) || Closes(evt)
    ensures |Ops(evt)| == 1
    ensures var op := Ops(evt)[0];
      op.name == NameIn(evt) && op.arguments == Whole(evt) && op.delta == Piece(evt) && op.close == Closes(evt)
  {
  }

  lemma {:induction false} OpsOfTouches(evts: seq<Event>)
    requires forall n :: 0 <= n < |evts| ==> Touches(evts[n])
    ensures |AllOps(evts)| == |evts|
    ensures forall n :: 0 <= n < |evts| ==> Ops(evts[n]) == [AllOps(evts)[n]]
  {
    hide Ops, Touches;
    if evts != [] {
      OpsOfTouches(evts[..|evts| - 1]);
      OneOpEach(evts[|evts| - 1]);
    }
  }

  lemma {:induction false} DeltasArePieces(evts: seq<Event>)
    requires forall n :: 0 <= n < |evts| ==> Touches(evts[n])
    ensures Deltas(AllOps(evts)) == Pieces(evts)
  {
    hide Ops, Touches, Piece;
    if evts != [] {
      var m := |evts| - 1;
      DeltasArePieces(evts[..m]);
      OneOpEach(evts[m]);
      PiecesSnoc(evts[..m], evts[m]);
      DeltasSnoc(AllOps(evts[..m]), Ops(evts[m])[0]);
      assert evts == evts[..m] + [evts[m]];
    }
  }

  lemma OpsSuffix(evts: seq<Event>, k: nat)
    requires k <= |evts| && forall n :: 0 <= n < |evts| ==> Touches(evts[n])
    ensures k <= |AllOps(evts)| && AllOps(evts)[k..] == AllOps(evts[k..])
  {
    hide Ops, Touches;
    OpsOfTouches(evts);
    OpsOfTouches(evts[k..]);
    forall n | 0 <= n < |evts| - k ensures AllOps(evts)[k..][n] == AllOps(evts[k..])[n] {
      assert evts[k..][n] == evts[k + n];
      assert [AllOps(evts)[k + n]][0] == [AllOps(evts[k..])[n]][0];
    }
  }

  /** The first event with a name names the call. */
  predicate Names(evts: seq<Event>, f: nat) {
    && f <= |evts| && (forall n :: 0 <= n < f ==> NameIn(evts[n]) == "")
    && (f < |evts| ==> NameIn(evts[f]) != "")
  }

  /** Event `k` is the last one that gives the arguments whole, or the first if none does. */
  predicate Fills(evts: seq<Event>, k: nat) {
    && k < |evts| && (Whole(evts[k]) != "" || k == 0)
    && forall n :: k < n < |evts| ==> Whole(evts[n]) == ""
  }

  lemma {:induction false} NameIsFirst(j: Json, own: seq<Op>, f: nat)
    requires own != [] && NoneCloses(own) && f <= |own| && forall n :: 0 <= n < f ==> own[n].name == ""
    requires f < |own| ==> own[f].name != ""
    ensures OneRun(j, own).open_.Some?
    ensures OneRun(j, own).open_.value.name == if f < |own| then own[f].name else ""
  {
    hide Edited, OneRun;
    var m := |own| - 1;
    LastOfSlice(own, 0);
    OneRunSnoc(j, own[..m], own[m]);
    if m > 0 {
      NameIsFirst(j, own[..m], if f < m then f else m);
    } else {
      OpenRun(j, own[..m]);
    }
  }

  lemma TouchOps(evts: seq<Event>)
    requires forall n :: 0 <= n < |evts| ==> Touches(evts[n])
    ensures |AllOps(evts)| == |evts| && NoneCloses(AllOps(evts))
    ensures forall n :: 0 <= n < |evts| ==>
      AllOps(evts)[n].arguments == Whole(evts[n]) && AllOps(evts)[n].name == NameIn(evts[n])
  {
    hide Ops, Touches, NameIn, Whole, AllOps;
    OpsOfTouches(evts);
    forall n | 0 <= n < |evts|
      ensures AllOps(evts)[n].arguments == Whole(evts[n]) && AllOps(evts)[n].name == NameIn(evts[n])
      ensures !AllOps(evts)[n].close
    {
      OneOpEach(evts[n]);
      TouchesDoNotClose(evts[n]);
      assert Ops(evts[n])[0] == AllOps(evts)[n];
    }
  }

  /** The buffer of a call, read off its events: the first name, and the last arguments given
      whole followed by all later pieces. */
  lemma BufferOfCall(j: Json, evts: seq<Event>, k: nat, f: nat)
    requires evts != [] && (forall n :: 0 <= n < |evts| ==> Touches(evts[n])) && Names(evts, f) && Fills(evts, k)
    ensures var one := OneRun(j, AllOps(evts));
      && one.open_.Some? && one.shown.None?
      && one.open_.value.name == (if f < |evts| then NameIn(evts[f]) else "")
      && one.open_.value.input == Whole(evts[k]) + Pieces(evts[k..])
  {
    hide Ops, Touches, NameIn, Edited, OneRun, Deltas, AllOps, Pieces;
    var own := AllOps(evts);
    TouchOps(evts);
    InputIsLastArgumentsThenDeltas(j, own, k);
    OpsSuffix(evts, k);
    DeltasArePieces(evts[k..]);
    NameIsFirst(j, own, f);
  }

  lemma TouchesDoNotClose(evt: Event)
    requires Touches(evt)
    ensures !Closes(evt)
  {
  }

  // ---- From the stream to the listed call ----

  lemma {:induction false} FlushedIgnoresText(j: Json, st: State, n: nat, text: string)
    requires st.Wf() && n <= |st.calls|
    ensures Flushed(j, st.(content := text), n) == Flushed(j, st, n).(content := text)
  {
    hide Emitted;
    if n > 0 {
      FlushedIgnoresText(j, st, n - 1, text);
      EmittedIgnoresText(j, Flushed(j, st, n - 1), n - 1, text);
    }
  }

  lemma AnswersIgnoreText(st: State, text: string, c: string, entry: Option<Entry>)
    ensures Answers(st.(content := text), c, entry) <==> Answers(st, c, entry)
  {
  }

  /** What a threaded stream of events says about a call is computed from its own operations. */
  lemma AnswerToCall(j: Json, owner: map<string, string>, evts: seq<Event>, c: string)
    requires Threaded(j, owner, AllOps(evts)) && AllKnown(owner, AllOps(evts)) && c != ""
    ensures Answers(Finished(j, RunEvents(j, Empty, evts)), c, OneEnd(j, OneRun(j, Own(owner, AllOps(evts), c))))
  {
    hide RunEvents, RunOps, AllOps, AllText, Threads, AllKnown, Answers, OneEnd, OneRun, Own, Flushed;
    var st, text := RunOps(j, Empty, AllOps(evts)), AllText("", evts);
    EventsAreOps(j, Empty, evts);
    FlushedIgnoresText(j, st, |st.calls|, text);
    InterleavingIsIrrelevant(j, owner, AllOps(evts), c);
    AnswersIgnoreText(Finished(j, st), text, c, OneEnd(j, OneRun(j, Own(owner, AllOps(evts), c))));
  }

  /** `mine` are the events of `c`, in order. */
  ghost predicate EventsOfCall(owner: map<string, string>, evts: seq<Event>, c: string, mine: seq<Event>) {
    AllConsistent(owner, AllOps(evts)) && Own(owner, AllOps(evts), c) == AllOps(mine)
  }

  /** A call that is still open at the end is listed with its first name, and its last whole
      arguments followed by all later pieces, normalised; whatever else the stream holds. */
  lemma OpenCallIsListed(j: Json, owner: map<string, string>, evts: seq<Event>, c: string, mine: seq<Event>,
                         k: nat, f: nat)
    requires Threaded(j, owner, AllOps(evts)) && AllKnown(owner, AllOps(evts)) && c != ""
    requires EventsOfCall(owner, evts, c, mine) && mine != [] && forall n :: 0 <= n < |mine| ==> Touches(mine[n])
    requires Names(mine, f) && f < |mine| && !Blank(NameIn(mine[f])) && Fills(mine, k)
    ensures Answers(Finished(j, RunEvents(j, Empty, evts)), c,
                    Some(Entry(NameIn(mine[f]), Normalize(j, Whole(mine[k]) + Pieces(mine[k..])))))
  {
    hide RunEvents, AllOps, Threaded, AllKnown, Answers, OneRun, Own, Finished, Touches, Names, Fills;
    hide Normalize, Pieces;
    AnswerToCall(j, owner, evts, c);
    BufferOfCall(j, mine, k, f);
  }

  /** A call that is closed by its last event is listed with its first name; its input is that
      event's arguments if it has some, and is normalised twice. */
  lemma ClosedCallIsListed(j: Json, owner: map<string, string>, evts: seq<Event>, c: string, mine: seq<Event>,
                           last: Event, k: nat, f: nat)
    requires Threaded(j, owner, AllOps(evts)) && AllKnown(owner, AllOps(evts)) && c != "" && Closes(last)
    requires EventsOfCall(owner, evts, c, mine + [last])
    requires mine != [] && forall n :: 0 <= n < |mine| ==> Touches(mine[n])
    requires Names(mine + [last], f) && f <= |mine| && !Blank(NameIn((mine + [last])[f])) && Fills(mine, k)
    ensures var input := if Whole(last) != "" then Whole(last) else Whole(mine[k]) + Pieces(mine[k..]);
      Answers(Finished(j, RunEvents(j, Empty, evts)), c,
              Some(Entry(NameIn((mine + [last])[f]), Normalize(j, Normalize(j, input)))))
  {
    hide RunEvents, Threaded, AllKnown, Answers, Own, Finished, Touches, Normalize, Pieces, Ops, Blank, NameIn;
    hide OneRun, OneEnd, AllOps, Names, Whole;
    AnswerToCall(j, owner, evts, c);
    NamesPrefix(mine, last, f);
    BufferOfCall(j, mine, k, f);
    TouchOps(mine);
    OneOpEach(last);
    LastOps(mine, last);
    ClosedCallIsNormalisedTwice(j, AllOps(mine), Ops(last)[0]);
    var b := Filled(OneRun(j, AllOps(mine)), Ops(last)[0]);
    assert b.input == if Whole(last) != "" then Whole(last) else Whole(mine[k]) + Pieces(mine[k..]);
    assert b.name == NameIn((mine + [last])[f]);
  }

  lemma LastOps(mine: seq<Event>, last: Event)
    requires Closes(last)
    ensures |Ops(last)| == 1 && AllOps(mine + [last]) == AllOps(mine) + [Ops(last)[0]] && Piece(last) == ""
  {
    OneOpEach(last);
    assert (mine + [last])[..|mine|] == mine;
  }

  lemma NamesPrefix(mine: seq<Event>, last: Event, f: nat)
    requires Names(mine + [last], f)
    ensures f <= |mine| ==> Names(mine, f) && NameIn((mine + [last])[f]) != ""
    ensures f < |mine| ==> (mine + [last])[f] == mine[f]
    ensures f == |mine| ==> (mine + [last])[f] == last
  {
    hide NameIn;
    forall n | 0 <= n < f && n < |mine| ensures NameIn(mine[n]) == "" {
      assert (mine + [last])[n] == mine[n];
    }
  }
}
