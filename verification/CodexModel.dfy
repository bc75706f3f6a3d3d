/** The tool-call reassembler as a function of its event stream, on values:
    internal/model/providers/codex/codex.go. Pointers are positions in creation order. */
module CodexModel {
  import opened Wrappers
  import opened Strings

  /** `contract.ToolCall`. */
  datatype Call = Call(id: string, name: string, input: string)

  /** What the reassembler asks of encoding/json: whether a text is valid, and what
      decoding it into a Go string yields, if that succeeds. */
  datatype Json = Json(valid: string -> bool, unquote: string -> Option<string>) {
    /** An object literal is not a string; decoding a string literal drops its quotes. */
    ghost predicate Lawful() {
      && valid("{}") && unquote("{}") == None
      && forall s {:trigger unquote(s)} :: unquote(s).Some? ==> |unquote(s).value| < |s|
    }
  }

  datatype OutputText = OutputText(kind: string, text: string)

  datatype Item = Item(kind: string, id: string, callID: string, name: string, arguments: string,
                       content: seq<OutputText>)

  datatype Response = Response(status: string, output: seq<Item>, error: Option<string>)

  /** A decoded event payload; absent JSON fields are empty. */
  datatype Event = Event(kind: string, delta: string, text: string, name: string, callID: string, itemID: string,
                         arguments: string, item: Item, response: Response, error: Option<string>)

  /** `calls[k]` is the `k`-th buffer ever created (`toolOrder`); the maps and the
      emitted list refer to buffers by that position. */
  datatype State = State(content: string, calls: seq<Call>, byItem: map<string, nat>, byCall: map<string, nat>,
                         emitted: seq<nat>)
  {
    ghost predicate Wf() {
      && (forall k :: k in byItem ==> byItem[k] < |calls|)
      && (forall k :: k in byCall ==> byCall[k] < |calls|)
      && (forall k :: 0 <= k < |emitted| ==> emitted[k] < |calls|)
    }
  }

  const Empty := State("", [], map[], map[], [])

  // ---- The helpers of the source ----

  function Normalize(j: Json, raw: string): string {
    var s := TrimSpace(raw);
    if s == "" then "{}"
    else
      var t := match j.unquote(s) case Some(e) => TrimSpace(e) case None => s;
      if t == "" || !j.valid(t) then "{}" else t
  }

  function OutputTextOf(content: seq<OutputText>): string {
    if content == [] then ""
    else
      (if content[0].kind == "output_text" || content[0].kind == "text" || content[0].kind == "input_text"
       then content[0].text else "") + OutputTextOf(content[1..])
  }

  /** Where `ensureCodexToolBuffer` finds or puts the buffer for an event. */
  function Target(st: State, item: string, call: string): nat {
    if call != "" && call in st.byCall then st.byCall[call]
    else if item != "" && item in st.byItem then st.byItem[item]
    else |st.calls|
  }

  function Ensured(st: State, item: string, call: string, name: string): (r: State)
    requires st.Wf()
    ensures r.Wf() && Target(st, item, call) < |r.calls|
  {
    var i := Target(st, item, call);
    var calls := if i == |st.calls| then st.calls + [Call("", "", "")] else st.calls;
    var c := calls[i];
    var c1 := if c.name == "" && name != "" then c.(name := name) else c;
    var c2 := if call != "" then c1.(id := call) else c1;
    st.(calls := calls[i := c2],
        byCall := if call != "" then st.byCall[call := i] else st.byCall,
        byItem := if item != "" then st.byItem[item := i] else st.byItem)
  }

  /** The first emitted entry, from the `k`-th on, whose call has this ID, or the length. */
  function FindEmitted(calls: seq<Call>, emitted: seq<nat>, id: string, k: nat): (r: nat)
    requires k <= |emitted| && forall n :: 0 <= n < |emitted| ==> emitted[n] < |calls|
    ensures k <= r <= |emitted|
    ensures forall n :: k <= n < r ==> calls[emitted[n]].id != id
    ensures r < |emitted| ==> calls[emitted[r]].id == id
    decreases |emitted| - k
  {
    if k == |emitted| || calls[emitted[k]].id == id then k else FindEmitted(calls, emitted, id, k + 1)
  }

  predicate Blank(name: string) {
    TrimSpace(name) == ""
  }

  /** `appendCodexToolCall`. */
  function Emitted(j: Json, st: State, i: nat): (r: State)
    requires st.Wf() && i < |st.calls|
    ensures r.Wf() && |r.calls| == |st.calls|
  {
    if Blank(st.calls[i].name) then st
    else
      var c := st.calls[i];
      var id := if c.id == "" then "call_" + Decimal(|st.emitted| + 1) else c.id;
      var c' := Call(id, c.name, Normalize(j, c.input));
      var calls := st.calls[i := c'];
      var k := FindEmitted(calls, st.emitted, id, 0);
      if k < |st.emitted| then
        var e := st.emitted[k];
        st.(calls := calls[e := Call(calls[e].id, c'.name, c'.input)])
      else st.(calls := calls, emitted := st.emitted + [i])
  }

  /** `removeCodexToolBuffer`: the given IDs and every other key of buffer `i`. */
  function Removed(st: State, i: nat, item: string, call: string): (r: State)
    requires st.Wf()
    ensures r.Wf() && r.calls == st.calls
  {
    st.(byItem := map k | k in st.byItem && st.byItem[k] != i && (item == "" || k != item) :: st.byItem[k],
        byCall := map k | k in st.byCall && st.byCall[k] != i && (call == "" || k != call) :: st.byCall[k])
  }

  // ---- What one event does to the buffers ----

  /** An event touches one buffer: it replaces its input by `arguments` when these are
      not empty, then appends `delta`, and possibly emits and forgets the buffer. */
  datatype Op = Op(item: string, call: string, name: string, arguments: string, delta: string, close: bool)

  function Edited(input: string, op: Op): string {
    (if op.arguments != "" then op.arguments else input) + op.delta
  }

  function Touched(st: State, op: Op): (r: State)
    requires st.Wf()
    ensures r.Wf() && Target(st, op.item, op.call) < |r.calls|
  {
    var i := Target(st, op.item, op.call);
    var s := Ensured(st, op.item, op.call, op.name);
    s.(calls := s.calls[i := s.calls[i].(input := Edited(s.calls[i].input, op))])
  }

  function OpStep(j: Json, st: State, op: Op): (r: State)
    requires st.Wf()
    ensures r.Wf()
  {
    var i := Target(st, op.item, op.call);
    var s := Touched(st, op);
    if op.close then Removed(Emitted(j, s, i), i, op.item, op.call) else s
  }

  function ItemOp(item: Item, close: bool): Op {
    Op(item.id, item.callID, item.name, item.arguments, "", close)
  }

  /** The buffer operations of one event (`response.completed` may have several). */
  function Ops(evt: Event): seq<Op> {
    match evt.kind
    case "response.output_item.added" => if evt.item.kind == "function_call" then [ItemOp(evt.item, false)] else []
    case "response.function_call_arguments.delta" => [Op(evt.itemID, evt.callID, evt.name, "", evt.delta, false)]
    case "response.function_call_arguments.done" => [Op(evt.itemID, evt.callID, evt.name, evt.arguments, "", false)]
    case "response.output_item.done" => if evt.item.kind == "function_call" then [ItemOp(evt.item, true)] else []
    case "response.completed" => if evt.response.status == "failed" then [] else CompletedOps(evt.response.output)
    case _ => []
  }

  function CompletedOps(items: seq<Item>): seq<Op> {
    if items == [] then []
    else CompletedOps(items[..|items| - 1]) +
         if items[|items| - 1].kind == "function_call" then [ItemOp(items[|items| - 1], true)] else []
  }

  function CompletedText(content: string, items: seq<Item>): string {
    if items == [] then content
    else
      var before := CompletedText(content, items[..|items| - 1]);
      if items[|items| - 1].kind == "message" && before == "" then OutputTextOf(items[|items| - 1].content) else before
  }

  /** What the event does to the text of the answer. */
  function Text(content: string, evt: Event): string {
    match evt.kind
    case "response.output_text.delta" => content + evt.delta
    case "response.output_text.done" => if content == "" && evt.text != "" then evt.text else content
    case "response.output_item.done" =>
      if evt.item.kind == "message" && content == "" then OutputTextOf(evt.item.content) else content
    case "response.completed" => if evt.response.status == "failed" then content
    else CompletedText(content, evt.response.output)
    case _ => content
  }

  function Fails(evt: Event): bool {
    evt.kind == "response.failed" || evt.kind == "error" ||
      (evt.kind == "response.completed" && evt.response.status == "failed")
  }

  function RunOps(j: Json, st: State, ops: seq<Op>): (r: State)
    requires st.Wf()
    ensures r.Wf()
  {
    if ops == [] then st else OpStep(j, RunOps(j, st, ops[..|ops| - 1]), ops[|ops| - 1])
  }

  /** The final loop over `toolOrder`, up to position `n`. */
  function Flushed(j: Json, st: State, n: nat): (r: State)
    requires st.Wf() && n <= |st.calls|
    ensures r.Wf() && |r.calls| == |st.calls|
  {
    if n == 0 then st else Emitted(j, Flushed(j, st, n - 1), n - 1)
  }

  function Finished(j: Json, st: State): State
    requires st.Wf()
  {
    Flushed(j, st, |st.calls|)
  }

  /** `out.ToolCalls` */
  function ListedCalls(st: State): seq<Call>
    requires st.Wf()
  {
    seq(|st.emitted|, n requires 0 <= n < |st.emitted| => st.calls[st.emitted[n]])
  }

  // ---- Whole events ----

  function Applied(j: Json, st: State, evt: Event): (r: State)
    requires st.Wf()
    ensures r.Wf()
  {
    RunOps(j, st, Ops(evt)).(content := Text(st.content, evt))
  }

  function RunEvents(j: Json, st: State, evts: seq<Event>): (r: State)
    requires st.Wf()
    ensures r.Wf()
  {
    if evts == [] then st else Applied(j, RunEvents(j, st, evts[..|evts| - 1]), evts[|evts| - 1])
  }

  function AllOps(evts: seq<Event>): seq<Op> {
    if evts == [] then [] else AllOps(evts[..|evts| - 1]) + Ops(evts[|evts| - 1])
  }

  function AllText(content: string, evts: seq<Event>): string {
    if evts == [] then content else Text(AllText(content, evts[..|evts| - 1]), evts[|evts| - 1])
  }

  lemma RunOpsSnoc(j: Json, st: State, ops: seq<Op>, op: Op)
    requires st.Wf()
    ensures RunOps(j, st, ops + [op]) == OpStep(j, RunOps(j, st, ops), op)
  {
    assert (ops + [op])[..|ops|] == ops;
  }

  lemma {:induction false} RunOpsAppend(j: Json, st: State, a: seq<Op>, b: seq<Op>)
    requires st.Wf()
    ensures RunOps(j, st, a + b) == RunOps(j, RunOps(j, st, a), b)
  {
    hide OpStep;
    if b == [] {
      assert a + b == a;
    } else {
      var m := |b| - 1;
      RunOpsAppend(j, st, a, b[..m]);
      assert a + b == (a + b[..m]) + [b[m]];
      RunOpsSnoc(j, st, a + b[..m], b[m]);
    }
  }

  lemma TouchedIgnoresText(st: State, op: Op, text: string)
    requires st.Wf()
    ensures Target(st.(content := text), op.item, op.call) == Target(st, op.item, op.call)
    ensures Touched(st.(content := text), op) == Touched(st, op).(content := text)
  {
    hide Edited;
  }

  lemma EmittedIgnoresText(j: Json, st: State, i: nat, text: string)
    requires st.Wf() && i < |st.calls|
    ensures Emitted(j, st.(content := text), i) == Emitted(j, st, i).(content := text)
  {
    hide Normalize, Decimal, Blank;
  }

  lemma RemovedIgnoresText(st: State, i: nat, item: string, call: string, text: string)
    requires st.Wf()
    ensures Removed(st.(content := text), i, item, call) == Removed(st, i, item, call).(content := text)
  {
  }

  /** Buffers and text do not interfere. */
  lemma OpStepIgnoresText(j: Json, st: State, op: Op, text: string)
    requires st.Wf()
    ensures OpStep(j, st.(content := text), op) == OpStep(j, st, op).(content := text)
  {
    hide Touched, Emitted, Removed, Target;
    TouchedIgnoresText(st, op, text);
    if op.close {
      var i, s := Target(st, op.item, op.call), Touched(st, op);
      EmittedIgnoresText(j, s, i, text);
      RemovedIgnoresText(Emitted(j, s, i), i, op.item, op.call, text);
    }
  }

  lemma {:induction false} RunOpsIgnoresText(j: Json, st: State, ops: seq<Op>, text: string)
    requires st.Wf()
    ensures RunOps(j, st.(content := text), ops) == RunOps(j, st, ops).(content := text)
  {
    hide OpStep;
    if ops != [] {
      RunOpsIgnoresText(j, st, ops[..|ops| - 1], text);
      OpStepIgnoresText(j, RunOps(j, st, ops[..|ops| - 1]), ops[|ops| - 1], text);
    }
  }

  /** A stream of events is its buffer operations, in order, beside its text. */
  lemma {:induction false} EventsAreOps(j: Json, st: State, evts: seq<Event>)
    requires st.Wf()
    ensures RunEvents(j, st, evts) == RunOps(j, st, AllOps(evts)).(content := AllText(st.content, evts))
  {
    hide OpStep, Ops, Text;
    if evts != [] {
      var m := |evts| - 1;
      EventsAreOps(j, st, evts[..m]);
      var s, ops := RunOps(j, st, AllOps(evts[..m])), Ops(evts[m]);
      RunOpsIgnoresText(j, s, ops, AllText(st.content, evts[..m]));
      RunOpsAppend(j, st, AllOps(evts[..m]), ops);
    } else {
      RunNoOps(j, st);
    }
  }

  lemma RunNoOps(j: Json, st: State)
    requires st.Wf()
    ensures RunOps(j, st, []) == st == st.(content := st.content)
  {
  }
}
