/** The reassembler as the source runs it, on shared mutable buffers:
    internal/model/providers/codex/codex.go. Every method is proved to do to the heap
    what the corresponding function of `CodexModel` does to its values. */
module Codex {
  import opened Strings
  import opened CodexModel
  import opened CodexSafety

  class ToolCall {
    var id: string
    var name: string
    var input: string

    constructor ()
      ensures id == "" && name == "" && input == ""
    {
      id, name, input := "", "", "";
    }

    ghost function Value(): Call
      reads this
    {
      Call(id, name, input)
    }
  }

  // ---- Positions stand for objects ----

  ghost predicate Distinct(order: seq<ToolCall>) {
    forall i, j :: 0 <= i < j < |order| ==> order[i] != order[j]
  }

  lemma DistinctFrom(order: seq<ToolCall>, i: nat)
    requires Distinct(order) && i < |order|
    ensures forall p :: 0 <= p < |order| && p != i ==> order[p] != order[i]
  {
  }

  lemma DistinctAppend(order: seq<ToolCall>, tc: ToolCall)
    requires Distinct(order) && tc !in order
    ensures Distinct(order + [tc])
  {
  }

  /** The heap map leads to the object where the model map leads to its position. */
  ghost predicate MapMatches(order: seq<ToolCall>, h: map<string, ToolCall>, m: map<string, nat>) {
    h.Keys == m.Keys && forall k :: k in m ==> m[k] < |order| && h[k] == order[m[k]]
  }

  ghost predicate ListMatches(order: seq<ToolCall>, h: seq<ToolCall>, m: seq<nat>) {
    |h| == |m| && forall n :: 0 <= n < |m| ==> m[n] < |order| && h[n] == order[m[n]]
  }

  lemma MatchesAppend(order: seq<ToolCall>, tc: ToolCall, h: map<string, ToolCall>, m: map<string, nat>)
    requires MapMatches(order, h, m)
    ensures MapMatches(order + [tc], h, m)
  {
  }

  lemma ListMatchesAppend(order: seq<ToolCall>, tc: ToolCall, h: seq<ToolCall>, m: seq<nat>)
    requires ListMatches(order, h, m)
    ensures ListMatches(order + [tc], h, m)
  {
  }

  lemma MatchesUpdate(order: seq<ToolCall>, h: map<string, ToolCall>, m: map<string, nat>, key: string, i: nat)
    requires MapMatches(order, h, m) && i < |order|
    ensures MapMatches(order, h[key := order[i]], m[key := i])
  {
  }

  ghost function Without(h: map<string, ToolCall>, tc: ToolCall): map<string, ToolCall> {
    map k | k in h && h[k] != tc :: h[k]
  }

  lemma MatchesWithout(order: seq<ToolCall>, h: map<string, ToolCall>, m: map<string, nat>, i: nat, key: string)
    requires Distinct(order) && i < |order| && MapMatches(order, h, m)
    ensures MapMatches(order, Without(if key != "" then h - {key} else h, order[i]),
                       map k | k in m && m[k] != i && (key == "" || k != key) :: m[k])
  {
  }

  lemma RemovedMatches(order: seq<ToolCall>, hItem: map<string, ToolCall>, hCall: map<string, ToolCall>, st: State,
                       i: nat, item: string, call: string)
    requires Distinct(order) && st.Wf() && i < |order| && MapMatches(order, hItem, st.byItem) &&
             MapMatches(order, hCall, st.byCall)
    ensures var r := Removed(st, i, item, call);
      && r.Wf() && r.calls == st.calls && r.emitted == st.emitted && r.content == st.content
      && MapMatches(order, Without(if item != "" then hItem - {item} else hItem, order[i]), r.byItem)
      && MapMatches(order, Without(if call != "" then hCall - {call} else hCall, order[i]), r.byCall)
  {
    hide MapMatches, Without, Distinct;
    MatchesWithout(order, hItem, st.byItem, i, item);
    MatchesWithout(order, hCall, st.byCall, i, call);
  }

  ghost function Opened(st: State, item: string, call: string): (r: State)
    requires st.Wf()
    ensures r.Wf()
  {
    if Target(st, item, call) == |st.calls| then st.(calls := st.calls + [Call("", "", "")]) else st
  }

  /** The value that `Ensured` gives to the buffer it reaches, and the entries it adds. */
  lemma EnsuredShape(st: State, item: string, call: string, name: string)
    requires st.Wf()
    ensures var m, o, i := Ensured(st, item, call, name), Opened(st, item, call), Target(st, item, call);
      && i < |o.calls| && m.Wf() && m.emitted == o.emitted && m.content == o.content
      && m.calls == o.calls[i := Call(if call != "" then call else o.calls[i].id,
                                      if o.calls[i].name == "" && name != "" then name else o.calls[i].name,
                                      o.calls[i].input)]
      && m.byCall == (if call != "" then o.byCall[call := i] else o.byCall)
      && m.byItem == (if item != "" then o.byItem[item := i] else o.byItem)
  {
  }

  /** The listed entry that an emission overwrites, or the end of the list. */
  ghost function EmittedEntry(j: Json, st: State, i: nat): nat
    requires st.Wf() && i < |st.calls|
  {
    var id := FinalId(st, i);
    FindEmitted(st.calls[i := Call(id, st.calls[i].name, Normalize(j, st.calls[i].input))], st.emitted, id, 0)
  }

  lemma EmittedShape(j: Json, st: State, i: nat)
    requires st.Wf() && i < |st.calls|
    ensures var m, c, k := Emitted(j, st, i), st.calls[i], EmittedEntry(j, st, i);
      var c' := Call(FinalId(st, i), c.name, Normalize(j, c.input));
      && m.Wf() && m.content == st.content && m.byItem == st.byItem && m.byCall == st.byCall
      && k == FindEmitted(st.calls[i := c'], st.emitted, c'.id, 0)
      && (Blank(c.name) ==> m == st)
      && (!Blank(c.name) && k < |st.emitted| ==>
            m.emitted == st.emitted &&
            m.calls == st.calls[i := c'][st.emitted[k] := Call(st.calls[i := c'][st.emitted[k]].id, c'.name, c'.input)])
      && (!Blank(c.name) && k == |st.emitted| ==> m.emitted == st.emitted + [i] && m.calls == st.calls[i := c'])
  {
  }

  lemma MatchesLookup(order: seq<ToolCall>, h: map<string, ToolCall>, m: map<string, nat>, key: string)
    requires MapMatches(order, h, m)
    ensures key in h <==> key in m
    ensures key in m ==> m[key] < |order| && h[key] == order[m[key]]
  {
  }

  ghost predicate Values(order: seq<ToolCall>, calls: seq<Call>)
    reads order
  {
    |order| == |calls| && forall i :: 0 <= i < |order| ==>
      order[i].id == calls[i].id && order[i].name == calls[i].name && order[i].input == calls[i].input
  }

  lemma ValuesAt(order: seq<ToolCall>, calls: seq<Call>, i: nat)
    requires Values(order, calls) && i < |order|
    ensures i < |calls| && order[i].Value() == calls[i]
  {
  }

  class Reassembler {
    const json: Json
    var content: string
    var toolCalls: seq<ToolCall>
    var byItem: map<string, ToolCall>
    var byCall: map<string, ToolCall>
    var order: seq<ToolCall>
    ghost var model: State
    ghost var buffers: set<ToolCall>  // the objects of `order`

    /** The fields are `model`, with the objects of `order` in the place of positions. */
    ghost predicate Valid()
      reads this, buffers
    {
      && buffers == (set o | o in order) && model.Wf() && content == model.content && Distinct(order) &&
         Values(order, model.calls)
      && MapMatches(order, byItem, model.byItem) && MapMatches(order, byCall, model.byCall)
      && ListMatches(order, toolCalls, model.emitted)
    }

    constructor (json: Json)
      ensures Valid() && model == Empty && this.json == json && order == []
    {
      this.json := json;
      content, toolCalls, byItem, byCall, order := "", [], map[], map[], [];
      model, buffers := Empty, {};
    }

    /** `ensureCodexToolBuffer`, up to the buffer it finds or creates. */
    method FindBuffer(itemID: string, callID: string) returns (tc: ToolCall)
      requires Valid()
      modifies this
      ensures Valid() && model == Opened(old(model), itemID, callID)
      ensures Target(old(model), itemID, callID) < |order| && tc == order[Target(old(model), itemID, callID)]
      ensures fresh(buffers - old(buffers))
    {
      hide MapMatches, ListMatches, Distinct;
      ghost var i, m := Target(model, itemID, callID), Opened(model, itemID, callID);
      MatchesLookup(order, byCall, model.byCall, callID);
      MatchesLookup(order, byItem, model.byItem, itemID);
      var found: ToolCall? := null;
      if callID != "" && callID in byCall {
        found := byCall[callID];
      }
      if found == null && itemID != "" && itemID in byItem {
        found := byItem[itemID];
      }
      if found == null {
        tc := new ToolCall();
        MatchesAppend(order, tc, byItem, model.byItem);
        MatchesAppend(order, tc, byCall, model.byCall);
        ListMatchesAppend(order, tc, toolCalls, model.emitted);
        DistinctAppend(order, tc);
        order := order + [tc];
        buffers := buffers + {tc};
      } else {
        tc := found;
      }
      model := m;
    }

    /** Assignments to the fields of one buffer. */
    method Assign(tc: ToolCall, ghost i: nat, id: string, name: string, input: string)
      requires Valid() && i < |order| && order[i] == tc
      modifies this`model, tc
      ensures Valid() && model == old(model).(calls := old(model).calls[i := Call(id, name, input)])
      ensures tc.id == id && tc.name == name && tc.input == input
    {
      hide MapMatches, ListMatches, Distinct;
      DistinctFrom(order, i);
      tc.id, tc.name, tc.input := id, name, input;
      model := model.(calls := model.calls[i := Call(id, name, input)]);
    }

    /** `ensureCodexToolBuffer` */
    method EnsureBuffer(itemID: string, callID: string, name: string) returns (tc: ToolCall)
      requires Valid()
      modifies this, buffers
      ensures Valid() && model == Ensured(old(model), itemID, callID, name)
      ensures Target(old(model), itemID, callID) < |order| && tc == order[Target(old(model), itemID, callID)]
      ensures fresh(buffers - old(buffers))
    {
      hide Ensured, Opened, MapMatches, ListMatches, Distinct, Values;
      ghost var i, m := Target(model, itemID, callID), Ensured(model, itemID, callID, name);
      EnsuredShape(model, itemID, callID, name);
      tc := FindBuffer(itemID, callID);
      assert tc in order;
      ValuesAt(order, model.calls, i);
      Assign(tc, i, if callID != "" then callID else tc.id,
             if tc.name == "" && name != "" then name else tc.name, tc.input);
      if callID != "" {
        MatchesUpdate(order, byCall, model.byCall, callID, i);
        byCall := byCall[callID := tc];
      }
      if itemID != "" {
        MatchesUpdate(order, byItem, model.byItem, itemID, i);
        byItem := byItem[itemID := tc];
      }
      model := m;
    }

    /** `removeCodexToolBuffer` */
    method RemoveBuffer(tc: ToolCall, ghost i: nat, itemID: string, callID: string)
      requires Valid() && i < |order| && order[i] == tc
      modifies this
      ensures Valid() && model == Removed(old(model), i, itemID, callID) && order == old(order) &&
              buffers == old(buffers)
    {
      hide Removed, MapMatches, ListMatches, Values;
      RemovedMatches(order, byItem, byCall, model, i, itemID, callID);
      if callID != "" {
        byCall := byCall - {callID};
      }
      if itemID != "" {
        byItem := byItem - {itemID};
      }
      byItem := WithoutBuffer(byItem, tc);
      byCall := WithoutBuffer(byCall, tc);
      model := Removed(model, i, itemID, callID);
    }

    /** Deleting, while ranging over a map, the entries that lead to `tc`. */
    static method WithoutBuffer(m: map<string, ToolCall>, tc: ToolCall) returns (r: map<string, ToolCall>)
      ensures r == Without(m, tc)
    {
      r := m;
      var todo := m.Keys;
      while todo != {}
        invariant todo <= m.Keys
        invariant r == map k | k in m && (m[k] != tc || k in todo) :: m[k]
      {
        var id :| id in todo;
        todo := todo - {id};
        if r[id] == tc {
          r := r - {id};
        }
      }
    }

    /** The search loop of `appendCodexToolCall`. */
    method FindListed(id: string) returns (n: nat)
      requires Valid()
      ensures n == FindEmitted(model.calls, model.emitted, id, 0)
    {
      hide MapMatches, Distinct, Values;
      n := 0;
      while n < |toolCalls|
        invariant 0 <= n <= |toolCalls|
        invariant FindEmitted(model.calls, model.emitted, id, 0) == FindEmitted(model.calls, model.emitted, id, n)
      {
        ValuesAt(order, model.calls, model.emitted[n]);
        if toolCalls[n].id == id {
          return;
        }
        n := n + 1;
      }
    }

    /** `appendCodexToolCall` */
    method AppendToolCall(tc: ToolCall, ghost i: nat)
      requires Valid() && i < |order| && order[i] == tc
      modifies this, buffers
      ensures Valid() && model == Emitted(json, old(model), i) && order == old(order) && buffers == old(buffers)
    {
      hide Emitted, MapMatches, Distinct, Normalize, TrimSpace, Decimal, Values, EmittedEntry;
      ValuesAt(order, model.calls, i);
      ghost var m, k := Emitted(json, model, i), EmittedEntry(json, model, i);
      EmittedShape(json, model, i);
      if TrimSpace(tc.name) == "" {
        return;
      }
      assert tc in order;
      var id := if tc.id == "" then "call_" + Decimal(|toolCalls| + 1) else tc.id;
      Assign(tc, i, id, tc.name, Normalize(json, tc.input));
      var n := FindListed(id);
      if n < |toolCalls| {
        var existing := toolCalls[n];
        ValuesAt(order, model.calls, model.emitted[n]);
        assert existing in order;
        Assign(existing, model.emitted[n], existing.id, tc.name, tc.input);
      } else {
        toolCalls := toolCalls + [tc];
        model := m;
      }
    }

    /** What the tool branches share: reach the buffer, replace or extend its input, and
        possibly emit and forget it. */
    method Touch(itemID: string, callID: string, name: string, arguments: string, delta: string, close: bool)
      requires Valid()
      modifies this, buffers
      ensures Valid() && model == OpStep(json, old(model), Op(itemID, callID, name, arguments, delta, close))
      ensures fresh(buffers - old(buffers))
    {
      hide Ensured, Emitted, Removed, Target, MapMatches, ListMatches, Distinct, Values;
      ghost var i := Target(model, itemID, callID);
      var tc := EnsureBuffer(itemID, callID, name);
      ValuesAt(order, model.calls, i);
      assert tc in order;
      Assign(tc, i, tc.id, tc.name, (if arguments != "" then arguments else tc.input) + delta);
      if close {
        AppendToolCall(tc, i);
        RemoveBuffer(tc, i, itemID, callID);
      }
    }

    /** `applyCodexSSEPayload` on a decoded event; `failed` is the error return. */
    method Apply(evt: Event) returns (failed: bool)
      requires Valid()
      modifies this, buffers
      ensures Valid() && failed == Fails(evt)
      ensures !failed ==> model == Applied(json, old(model), evt)
      ensures fresh(buffers - old(buffers))
    {
      hide OpStep;
      failed := false;
      ghost var st := model;
      RunNoOps(json, st);
      match evt.kind {
        case "response.output_text.delta" =>
          SetContent(content + evt.delta);
        case "response.output_text.done" =>
          if content == "" && evt.text != "" {
            SetContent(evt.text);
          }
        case "response.output_item.added" =>
          if evt.item.kind == "function_call" {
            Touch(evt.item.id, evt.item.callID, evt.item.name, evt.item.arguments, "", false);
            RunOneOp(json, st, ItemOp(evt.item, false));
          }
        case "response.function_call_arguments.delta" =>
          Touch(evt.itemID, evt.callID, evt.name, "", evt.delta, false);
          RunOneOp(json, st, Op(evt.itemID, evt.callID, evt.name, "", evt.delta, false));
        case "response.function_call_arguments.done" =>
          Touch(evt.itemID, evt.callID, evt.name, evt.arguments, "", false);
          RunOneOp(json, st, Op(evt.itemID, evt.callID, evt.name, evt.arguments, "", false));
        case "response.output_item.done" =>
          if evt.item.kind == "function_call" {
            Touch(evt.item.id, evt.item.callID, evt.item.name, evt.item.arguments, "", true);
            RunOneOp(json, st, ItemOp(evt.item, true));
          } else if evt.item.kind == "message" && content == "" {
            SetContent(OutputTextOf(evt.item.content));
          }
        case "response.completed" =>
          if evt.response.status == "failed" {
            return true;
          }
          Complete(evt.response.output);
        case "response.failed" =>
          return true;
        case "error" =>
          return true;
        case _ =>
      }
    }

    method SetContent(text: string)
      requires Valid()
      modifies this`content, this`model
      ensures Valid() && model == old(model).(content := text)
    {
      hide MapMatches, ListMatches, Distinct, Values;
      content := text;
      model := model.(content := text);
    }

    /** The body of the loop of `applyCodexCompletedFallback`. */
    method CompleteItem(item: Item)
      requires Valid()
      modifies this, buffers
      ensures Valid() && model == CompletedItem(json, old(model), item)
      ensures fresh(buffers - old(buffers))
    {
      hide OpStep, MapMatches, ListMatches, Distinct, Values, OutputTextOf;
      if item.kind == "message" {
        if content == "" {
          SetContent(OutputTextOf(item.content));
        }
      } else if item.kind == "function_call" {
        Touch(item.id, item.callID, item.name, item.arguments, "", true);
      }
    }

    /** The loop of `applyCodexCompletedFallback`. */
    method Complete(output: seq<Item>)
      requires Valid()
      modifies this, buffers
      ensures Valid()
      ensures model ==
              RunOps(json, old(model), CompletedOps(output)).(content := CompletedText(old(model).content, output))
      ensures fresh(buffers - old(buffers))
    {
      hide OpStep, MapMatches, ListMatches, Distinct, Values, CompletedItem, RunOps;
      ghost var st := model;
      RunNoOps(json, st);
      var n := 0;
      assert output[..0] == [];
      while n < |output|
        invariant 0 <= n <= |output| && Valid()
        invariant model ==
                  RunOps(json, st, CompletedOps(output[..n])).(content := CompletedText(st.content, output[..n]))
        invariant fresh(buffers - old(buffers))
      {
        CompletedStep(json, st, output[..n], output[n]);
        assert output[..n + 1] == output[..n] + [output[n]];
        CompleteItem(output[n]);
        n := n + 1;
      }
      assert output[..n] == output;
    }

    /** The final loop over `toolOrder`. */
    method Finish()
      requires Valid()
      modifies this, buffers
      ensures Valid() && model == Finished(json, old(model)) && order == old(order) && buffers == old(buffers)
    {
      hide Emitted, MapMatches, ListMatches, Distinct;
      ghost var st := model;
      var n := 0;
      while n < |order|
        invariant 0 <= n <= |order| == |st.calls| && Valid() && order == old(order) && buffers == old(buffers)
        invariant model == Flushed(json, st, n)
      {
        AppendToolCall(order[n], n);
        n := n + 1;
      }
    }

    /** The values of `out.ToolCalls`. */
    method List() returns (calls: seq<Call>)
      requires Valid()
      ensures calls == ListedCalls(model)
    {
      hide MapMatches, Distinct, Values;
      calls := [];
      var n := 0;
      while n < |toolCalls|
        invariant 0 <= n <= |toolCalls| && |calls| == n
        invariant forall k :: 0 <= k < n ==> calls[k] == model.calls[model.emitted[k]]
      {
        ValuesAt(order, model.calls, model.emitted[n]);
        calls := calls + [Call(toolCalls[n].id, toolCalls[n].name, toolCalls[n].input)];
        n := n + 1;
      }
    }
  }

  lemma RunOneOp(j: Json, st: State, op: Op)
    requires st.Wf()
    ensures RunOps(j, st, [op]) == OpStep(j, st, op) && OpStep(j, st, op).content == st.content
  {
    RunOpsSnoc(j, st, [], op);
    RunNoOps(j, st);
    assert [] + [op] == [op];
  }

  ghost function CompletedItem(j: Json, st: State, item: Item): State
    requires st.Wf()
  {
    if item.kind == "message" && st.content == "" then st.(content := OutputTextOf(item.content))
    else if item.kind == "function_call" then OpStep(j, st, ItemOp(item, true))
    else st
  }

  lemma CompletedStep(j: Json, st: State, items: seq<Item>, item: Item)
    requires st.Wf()
    ensures var s := RunOps(j, st, CompletedOps(items)).(content := CompletedText(st.content, items));
      CompletedItem(j, s, item) ==
        RunOps(j, st, CompletedOps(items + [item])).(content := CompletedText(st.content, items + [item]))
  {
    hide OpStep, OutputTextOf;
    assert (items + [item])[..|items|] == items;
    var s := RunOps(j, st, CompletedOps(items));
    OpStepIgnoresText(j, s, ItemOp(item, true), CompletedText(st.content, items));
    if item.kind == "function_call" {
      RunOpsSnoc(j, st, CompletedOps(items), ItemOp(item, true));
    } else {
      assert CompletedOps(items) + [] == CompletedOps(items);
    }
  }
}
