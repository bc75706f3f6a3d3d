/** What every event stream keeps: internal/model/providers/codex/codex.go. */
module CodexSafety {
  import opened Strings
  import opened CodexModel

  /** The listed calls have distinct, non-empty IDs and visible names. */
  ghost predicate Listed(st: State) {
    && st.Wf()
    && (forall m, n :: 0 <= m < n < |st.emitted| ==> st.calls[st.emitted[m]].id != st.calls[st.emitted[n]].id)
    && (forall n :: 0 <= n < |st.emitted| ==> st.calls[st.emitted[n]].id != "" && !Blank(st.calls[st.emitted[n]].name))
  }

  /** ... and neither map leads to one. */
  ghost predicate Safe(st: State) {
    && Listed(st)
    && (forall k :: k in st.byItem ==> st.byItem[k] !in st.emitted)
    && (forall k :: k in st.byCall ==> st.byCall[k] !in st.emitted)
  }

  /** The IDs that the answer lists, in order. */
  ghost function EmittedIds(st: State): seq<string>
    requires st.Wf()
  {
    seq(|st.emitted|, n requires 0 <= n < |st.emitted| => st.calls[st.emitted[n]].id)
  }

  lemma TargetNotEmitted(st: State, item: string, call: string)
    requires Safe(st)
    ensures Target(st, item, call) !in st.emitted && Target(st, item, call) <= |st.calls|
  {
    forall n | 0 <= n < |st.emitted| ensures st.emitted[n] < |st.calls| {
    }
  }

  /** Filling a buffer leaves every emitted call as it is. */
  lemma TouchedKeepsEmitted(st: State, op: Op)
    requires Safe(st)
    ensures var s := Touched(st, op);
      Safe(s) && s.emitted == st.emitted && forall n :: 0 <= n < |st.emitted| ==>
        s.calls[st.emitted[n]] == st.calls[st.emitted[n]]
  {
    TargetNotEmitted(st, op.item, op.call);
    var i := Target(st, op.item, op.call);
    forall n | 0 <= n < |st.emitted| ensures st.emitted[n] != i {
      assert st.emitted[n] in st.emitted;
    }
  }

  function FinalId(st: State, i: nat): string
    requires i < |st.calls|
  {
    if st.calls[i].id == "" then "call_" + Decimal(|st.emitted| + 1) else st.calls[i].id
  }

  /** What emitting position `i` changes: its own ID if it had none, names only to
      visible ones, and at the end of the list if its ID was not there yet. */
  lemma EmittedEffect(j: Json, st: State, i: nat)
    requires st.Wf() && i < |st.calls| && !Blank(st.calls[i].name)
    ensures var s, id := Emitted(j, st, i), FinalId(st, i);
      && s.byItem == st.byItem && s.byCall == st.byCall
      && (forall p :: 0 <= p < |st.calls| ==> s.calls[p].id == if p == i then id else st.calls[p].id)
      && (forall p :: 0 <= p < |st.calls| && !Blank(st.calls[p].name) ==> !Blank(s.calls[p].name))
      && (s.emitted == st.emitted ||
          (s.emitted == st.emitted + [i] && forall n :: 0 <= n < |st.emitted| && st.emitted[n] != i ==>
           st.calls[st.emitted[n]].id != id))
      && (i in st.emitted && st.calls[i].id != "" ==> s.emitted == st.emitted)
  {
    var id := FinalId(st, i);
    var calls := st.calls[i := Call(id, st.calls[i].name, Normalize(j, st.calls[i].input))];
    var k := FindEmitted(calls, st.emitted, id, 0);
    if i in st.emitted {
      var n :| 0 <= n < |st.emitted| && st.emitted[n] == i;
      assert calls[st.emitted[n]].id == id;
    }
  }

  lemma ListedExtends(st: State, s: State, i: nat)
    requires Listed(st) && s.Wf() && |s.calls| == |st.calls| && i < |st.calls|
    requires forall p :: 0 <= p < |st.calls| && p != i ==> s.calls[p].id == st.calls[p].id
    requires forall p :: 0 <= p < |st.calls| && !Blank(st.calls[p].name) ==> !Blank(s.calls[p].name)
    requires i in st.emitted ==> s.emitted == st.emitted && s.calls[i].id == st.calls[i].id
    requires s.emitted == st.emitted ||
             (s.emitted == st.emitted + [i] && s.calls[i].id != "" && !Blank(s.calls[i].name) &&
              forall n :: 0 <= n < |st.emitted| && st.emitted[n] != i ==> st.calls[st.emitted[n]].id != s.calls[i].id)
    ensures Listed(s) && EmittedIds(st) <= EmittedIds(s)
  {
    forall n | 0 <= n < |st.emitted| ensures s.calls[st.emitted[n]].id == st.calls[st.emitted[n]].id {
      assert st.emitted[n] in st.emitted;
    }
    if s.emitted != st.emitted {
      forall n | 0 <= n < |st.emitted| ensures st.emitted[n] != i {
        assert st.emitted[n] in st.emitted;
      }
    }
  }

  /** Emitting keeps the list of IDs or extends it by one. */
  lemma EmittedKeepsListed(j: Json, st: State, i: nat)
    requires Listed(st) && i < |st.calls|
    ensures var s := Emitted(j, st, i);
      && Listed(s) && s.byItem == st.byItem && s.byCall == st.byCall
      && (s.emitted == st.emitted || s.emitted == st.emitted + [i])
      && EmittedIds(st) <= EmittedIds(s)
  {
    if !Blank(st.calls[i].name) {
      EmittedEffect(j, st, i);
      if i in st.emitted {
        var n :| 0 <= n < |st.emitted| && st.emitted[n] == i;
      }
      ListedExtends(st, Emitted(j, st, i), i);
    }
  }

  /** Emitting a buffer and forgetting every key that leads to it. */
  lemma ClosedSafe(j: Json, s: State, i: nat, item: string, call: string)
    requires Safe(s) && i < |s.calls|
    ensures var r := Removed(Emitted(j, s, i), i, item, call);
      Safe(r) && EmittedIds(s) <= EmittedIds(r)
  {
    EmittedKeepsListed(j, s, i);
    var e := Emitted(j, s, i);
    forall k | k in s.byItem && s.byItem[k] != i ensures s.byItem[k] !in e.emitted {
      NotAppended(s.emitted, e.emitted, i, s.byItem[k]);
    }
    forall k | k in s.byCall && s.byCall[k] != i ensures s.byCall[k] !in e.emitted {
      NotAppended(s.emitted, e.emitted, i, s.byCall[k]);
    }
    assert EmittedIds(Removed(e, i, item, call)) == EmittedIds(e);
  }

  lemma OpStepSafe(j: Json, st: State, op: Op)
    requires Safe(st)
    ensures Safe(OpStep(j, st, op)) && EmittedIds(st) <= EmittedIds(OpStep(j, st, op))
  {
    TouchedKeepsEmitted(st, op);
    assert EmittedIds(Touched(st, op)) == EmittedIds(st);
    if op.close {
      ClosedSafe(j, Touched(st, op), Target(st, op.item, op.call), op.item, op.call);
    }
  }

  lemma NotAppended(before: seq<nat>, after: seq<nat>, i: nat, x: nat)
    requires after == before || after == before + [i]
    ensures x !in before && x != i ==> x !in after
  {
  }

  /** Over any stream of buffer operations from the empty state. */
  lemma {:induction false} RunSafe(j: Json, ops: seq<Op>)
    ensures Safe(RunOps(j, Empty, ops))
  {
    if ops != [] {
      RunSafe(j, ops[..|ops| - 1]);
      OpStepSafe(j, RunOps(j, Empty, ops[..|ops| - 1]), ops[|ops| - 1]);
    }
  }

  /** What has been listed stays listed, in the same order, whatever comes next. */
  lemma {:induction false} ListedStaysListed(j: Json, ops: seq<Op>, n: nat)
    requires n <= |ops|
    ensures EmittedIds(RunOps(j, Empty, ops[..n])) <= EmittedIds(RunOps(j, Empty, ops))
  {
    if n < |ops| {
      var m := |ops| - 1;
      assert ops[..m][..n] == ops[..n];
      ListedStaysListed(j, ops[..m], n);
      RunSafe(j, ops[..m]);
      OpStepSafe(j, RunOps(j, Empty, ops[..m]), ops[m]);
    } else {
      assert ops[..n] == ops;
    }
  }

  /** An emission changes itself and at most the listed call with its ID. */
  lemma EmittedChangesOne(j: Json, st: State, i: nat, p: nat)
    requires st.Wf() && i < |st.calls| && p < |st.calls| && p != i
    ensures Emitted(j, st, i).calls[p].id == st.calls[p].id
    ensures Emitted(j, st, i).calls[p] != st.calls[p] ==> p in st.emitted && st.calls[p].id == FinalId(st, i)
  {
  }

  /** Only an emission with the same ID can still change an emitted call. */
  lemma EmittedOnlyOverwritten(j: Json, st: State, op: Op, n: nat)
    requires Safe(st) && n < |st.emitted|
    ensures var p, s := st.emitted[n], OpStep(j, st, op);
      && s.calls[p].id == st.calls[p].id
      && (s.calls[p] != st.calls[p] ==>
          op.close && FinalId(Touched(st, op), Target(st, op.item, op.call)) == st.calls[p].id)
  {
    var p, i := st.emitted[n], Target(st, op.item, op.call);
    TouchedKeepsEmitted(st, op);
    TargetNotEmitted(st, op.item, op.call);
    assert p in st.emitted;
    if op.close {
      EmittedChangesOne(j, Touched(st, op), i, p);
    }
  }

  /** The final loop. */
  lemma {:induction false} FlushListed(j: Json, st: State, n: nat)
    requires Listed(st) && n <= |st.calls|
    ensures Listed(Flushed(j, st, n)) && EmittedIds(st) <= EmittedIds(Flushed(j, st, n))
  {
    hide Emitted;
    if n > 0 {
      FlushListed(j, st, n - 1);
      EmissionKeepsPrefix(j, EmittedIds(st), Flushed(j, st, n - 1), n - 1, Flushed(j, st, n));
    }
  }

  lemma EmissionKeepsPrefix(j: Json, ids: seq<string>, s: State, i: nat, e: State)
    requires Listed(s) && ids <= EmittedIds(s) && i < |s.calls| && e == Emitted(j, s, i)
    ensures Listed(e) && ids <= EmittedIds(e)
  {
    EmittedKeepsListed(j, s, i);
  }

  /** For any stream at all: the answer lists distinct, non-empty IDs and visible names. */
  lemma AnswerIsWellFormed(j: Json, ops: seq<Op>)
    ensures Listed(Finished(j, RunOps(j, Empty, ops)))
  {
    RunSafe(j, ops);
    FlushListed(j, RunOps(j, Empty, ops), |RunOps(j, Empty, ops).calls|);
  }
}
