/** What scheduling and running sub-tasks comes to, said without the model's own functions for
    it: internal/orchestrator/task/coordinator.go. */
module DagResults {
  import opened Wrappers
  import opened Graphs
  import opened Dag
  import opened DagRun
  import Strings

  // ---- The order inside a batch ----

  /** In every batch an ID is a proper prefix of each later one, or has the smaller character
      where the two first differ. */
  lemma BatchesAreInIdOrder(ts: seq<Option<SubTask>>, batches: Layers, n: nat, i: nat, j: nat)
    requires Resolves(ts, Success(batches)) && n < |batches| && i < j < |batches[n]|
    ensures var a, b := batches[n][i].id, batches[n][j].id;
      exists k :: 0 <= k <= |a| && k < |b| && a[..k] == b[..k] && (k == |a| || a[k] < b[k])
  {
    hide LongestChain, Table, DepsOf;
    assert Ids(batches[n])[i] == batches[n][i].id && Ids(batches[n])[j] == batches[n][j].id;
    Strings.LessMeans(batches[n][i].id, batches[n][j].id);
  }

  // ---- The result of one task ----

  lemma {:induction false} FirstBlocked(deps: seq<string>, results: Results, k: nat)
    requires k < |deps| && forall j :: 0 <= j < k ==> deps[j] in results && results[deps[j]].success
    requires deps[k] in results && !results[deps[k]].success
    ensures Blocked(deps, results) == Some(DependencyFailed(deps[k]))
  {
    if k > 0 {
      assert deps[0] in results && results[deps[0]].success;
      FirstBlocked(deps[1..], results, k - 1);
    }
  }

  lemma {:induction false} NotesOfAll(deps: seq<string>, results: Results)
    requires forall i :: 0 <= i < |deps| ==> deps[i] in results && results[deps[i]].success
    ensures Scratchpad(deps, results) ==
            seq(|deps|, i requires 0 <= i < |deps| => "Dependency " + deps[i] + " Output: " + results[deps[i]].output)
  {
    if deps != [] {
      NotesOfAll(deps[1..], results);
    }
  }

  lemma {:induction false} FirstSuccess(cfg: Config, t: SubTask, pad: seq<string>, m: nat, n: nat)
    requires m <= n < cfg.retryMax && cfg.engine(t, pad, n).Success?
    requires forall k :: m <= k < n ==> cfg.engine(t, pad, k).Failure?
    ensures Attempts(cfg, t, pad, m) == SubTaskResult(t.id, true, cfg.engine(t, pad, n).value, None)
    decreases n - m
  {
    if m < n {
      FirstSuccess(cfg, t, pad, m + 1, n);
    }
  }

  lemma {:induction false} AllFail(cfg: Config, t: SubTask, pad: seq<string>, m: nat)
    requires m < cfg.retryMax && forall k :: m <= k < cfg.retryMax ==> cfg.engine(t, pad, k).Failure?
    ensures Attempts(cfg, t, pad, m) ==
            SubTaskResult(t.id, false, "", Some(EngineError(cfg.engine(t, pad, cfg.retryMax - 1).error)))
    decreases cfg.retryMax - m
  {
    if m + 1 < cfg.retryMax {
      AllFail(cfg, t, pad, m + 1);
    }
  }

  lemma NotBlocked(deps: seq<string>, results: Results)
    requires forall i :: 0 <= i < |deps| ==> deps[i] in results && results[deps[i]].success
    ensures Blocked(deps, results).None?
  {
    hide Blocked;
    BlockedMeaning(deps, results);
  }

  /** A task with an unsuccessful dependency fails because of the first of them. Any other is
      given one note for each entry of its list, in that order, and its result is the first
      successful attempt on these notes, or the last of `retryMax` failures. */
  lemma TaskResult(cfg: Config, tab: TaskTable, final: Results, id: string)
    requires cfg.Valid() && Solves(cfg, tab, final) && Closed(DepsOf(tab)) && id in tab
    ensures id in final && forall i :: 0 <= i < |tab[id].deps| ==> tab[id].deps[i] in final
    ensures var deps := tab[id].deps;
      forall k :: 0 <= k < |deps| && !final[deps[k]].success && (forall j :: 0 <= j < k ==> final[deps[j]].success) ==>
        final[id] == SubTaskResult(tab[id].id, false, "", Some(DependencyFailed(deps[k])))
    ensures var deps := tab[id].deps;
      (forall i :: 0 <= i < |deps| ==> final[deps[i]].success) ==>
        var notes :=
          seq(|deps|, i requires 0 <= i < |deps| => "Dependency " + deps[i] + " Output: " + final[deps[i]].output);
        && (final[id].success <==> exists n :: 0 <= n < cfg.retryMax && cfg.engine(tab[id], notes, n).Success?)
        && (forall n ::
              0 <= n < cfg.retryMax && cfg.engine(tab[id], notes, n).Success? &&
              (forall m :: 0 <= m < n ==> cfg.engine(tab[id], notes, m).Failure?) ==>
              final[id] == SubTaskResult(tab[id].id, true, cfg.engine(tab[id], notes, n).value, None))
        && ((forall n :: 0 <= n < cfg.retryMax ==> cfg.engine(tab[id], notes, n).Failure?) ==>
              final[id] == SubTaskResult(tab[id].id, false, "",
                                         Some(EngineError(cfg.engine(tab[id], notes, cfg.retryMax - 1).error))))
  {
    hide Blocked, Attempts, Scratchpad;
    var t, deps := tab[id], tab[id].deps;
    assert final[id] == Outcome(cfg, t, final);
    forall i | 0 <= i < |deps| ensures deps[i] in final {
      assert deps[i] in DepsOf(tab)[id] && deps[i] in DepsOf(tab);
    }
    forall k | 0 <= k < |deps| && !final[deps[k]].success && forall j :: 0 <= j < k ==> final[deps[j]].success
      ensures final[id] == SubTaskResult(t.id, false, "", Some(DependencyFailed(deps[k])))
    {
      FirstBlocked(deps, final, k);
    }
    if forall i :: 0 <= i < |deps| ==> final[deps[i]].success {
      var notes :=
        seq(|deps|, i requires 0 <= i < |deps| => "Dependency " + deps[i] + " Output: " + final[deps[i]].output);
      NotBlocked(deps, final);
      NotesOfAll(deps, final);
      assert final[id] == Attempts(cfg, t, notes, 0);
      forall n | 0 <= n < cfg.retryMax && cfg.engine(t, notes, n).Success? &&
        forall m :: 0 <= m < n ==> cfg.engine(t, notes, m).Failure?
        ensures final[id] == SubTaskResult(t.id, true, cfg.engine(t, notes, n).value, None)
      {
        FirstSuccess(cfg, t, notes, 0, n);
      }
      if forall n :: 0 <= n < cfg.retryMax ==> cfg.engine(t, notes, n).Failure? {
        AllFail(cfg, t, notes, 0);
      } else {
        var n := LeastSuccess(cfg, t, notes, 0);
        FirstSuccess(cfg, t, notes, 0, n);
      }
    }
  }

  lemma {:induction false} LeastSuccess(cfg: Config, t: SubTask, pad: seq<string>, m: nat) returns (n: nat)
    requires exists k :: m <= k < cfg.retryMax && cfg.engine(t, pad, k).Success?
    ensures m <= n < cfg.retryMax && cfg.engine(t, pad, n).Success?
    ensures forall k :: m <= k < n ==> cfg.engine(t, pad, k).Failure?
    decreases cfg.retryMax - m
  {
    if cfg.engine(t, pad, m).Success? {
      n := m;
    } else {
      n := LeastSuccess(cfg, t, pad, m + 1);
    }
  }

  // ---- What the retries cost ----

  /** A task that is done has called the engine up to its first success, or `retryMax` times,
      on the notes of its dependencies, and has slept 1, 2, 3, ... times the base in between;
      a blocked one has called it never. */
  lemma RetriesAreExact(cfg: Config, tab: TaskTable, batches: Layers, run: seq<State>, n: nat, t: SubTask,
                        notes: seq<string>)
    requires cfg.Valid() && Plan(tab, batches) && Execution(cfg, batches, run) && n < |run|
    requires run[n].batch < |batches| && t in batches[run[n].batch]
    requires t.id in run[n].phase && run[n].phase[t.id].Finished?
    requires |notes| == |t.deps| && forall i :: 0 <= i < |t.deps| && t.deps[i] in run[n].results ==>
      notes[i] == "Dependency " + t.deps[i] + " Output: " + run[n].results[t.deps[i]].output
    ensures forall i :: 0 <= i < |t.deps| ==> t.deps[i] in run[n].results
    ensures (exists i :: 0 <= i < |t.deps| && !run[n].results[t.deps[i]].success) ==>
              Get(run[n].runs, t.id) == 0 && Get(run[n].backoff, t.id) == 0
    ensures (forall i :: 0 <= i < |t.deps| ==> run[n].results[t.deps[i]].success) ==>
      var calls := Get(run[n].runs, t.id);
      && 1 <= calls <= cfg.retryMax && 2 * Get(run[n].backoff, t.id) == cfg.retryBackoff * ((calls - 1) * calls)
      && (forall m :: 0 <= m < calls - 1 ==> cfg.engine(t, notes, m).Failure?)
      && (calls < cfg.retryMax ==> cfg.engine(t, notes, calls - 1).Success?)
  {
    hide Plan, Next, Blocked, Scratchpad, Get;
    var s := run[n];
    DoneIsSpent(cfg, tab, batches, run, n, t);
    NoMissingResult(cfg, tab, batches, run, n, t);
    BlockedMeaning(t.deps, s.results);
    if forall i :: 0 <= i < |t.deps| ==> s.results[t.deps[i]].success {
      NotBlocked(t.deps, s.results);
      NotesOfAll(t.deps, s.results);
      var calls := Get(s.runs, t.id);
      TwiceBackoffClosedForm(cfg.retryBackoff, calls - 1);
      assert Tried(cfg, t, s.results, calls - 1) && Scratchpad(t.deps, s.results) == notes;
    }
  }

  lemma DoneIsSpent(cfg: Config, tab: TaskTable, batches: Layers, run: seq<State>, n: nat, t: SubTask)
    requires cfg.Valid() && Plan(tab, batches) && Execution(cfg, batches, run) && n < |run|
    requires run[n].batch < |batches| && t in batches[run[n].batch]
    requires t.id in run[n].phase && run[n].phase[t.id].Finished?
    ensures Spent(cfg, t, run[n].results, Get(run[n].runs, t.id), 2 * Get(run[n].backoff, t.id))
    ensures Get(run[n].runs, t.id) <= cfg.retryMax
  {
    hide Plan, Spent, Next, Get;
    LayeredIsSeparate(tab, batches) by { PlanIsLayered(tab, batches); }
    ReachableInv(cfg, batches, run, n);
    assert TaskInv(cfg, run[n], t);
  }

  lemma PlanIsLayered(tab: TaskTable, batches: Layers)
    requires Plan(tab, batches)
    ensures Layered(tab, batches)
  {
  }

  // ---- The order of the results ----

  /** `a` has the shorter longest dependency chain, or one of the same length and the smaller ID. */
  ghost predicate Sooner(g: Graph, a: string, b: string) {
    exists m, n :: LongestChain(g, a, m) && LongestChain(g, b, n) &&
      (m < n || (m == n && Strings.Less(a, b)))
  }

  ghost predicate InOrder(g: Graph, ordered: seq<SubTaskResult>) {
    forall i, j :: 0 <= i < j < |ordered| ==> Sooner(g, ordered[i].id, ordered[j].id)
  }

  ghost predicate DepthBelow(g: Graph, ordered: seq<SubTaskResult>, k: nat) {
    forall i :: 0 <= i < |ordered| ==> Above(g, ordered[i].id, k)
  }

  ghost predicate Above(g: Graph, id: string, k: nat) {
    exists m: nat :: m < k && LongestChain(g, id, m)
  }

  lemma OutcomeOfBatch(cfg: Config, tab: TaskTable, batches: Layers, k: nat, i: nat)
    requires cfg.Valid() && Plan(tab, batches) && k < |batches| && i < |batches[k]|
    ensures var r := BatchOutcome(cfg, batches[k], ResultsAfter(cfg, batches, k));
      r[i].id == batches[k][i].id == Ids(batches[k])[i] && LongestChain(DepsOf(tab), r[i].id, k)
  {
    hide LongestChain, DepsOf, Outcome, ResultsAfter, Closed;
    assert batches[k][i] in batches[k];
    OutcomeShape(cfg, batches[k][i], ResultsAfter(cfg, batches, k));
  }

  lemma {:induction false} OrderedSoFar(cfg: Config, tab: TaskTable, batches: Layers, k: nat)
    requires cfg.Valid() && Plan(tab, batches) && k <= |batches|
    ensures InOrder(DepsOf(tab), OrderedAfter(cfg, batches, k))
    ensures DepthBelow(DepsOf(tab), OrderedAfter(cfg, batches, k), k)
  {
    hide LongestChain, DepsOf, ResultsAfter, BatchOutcome, Ids, Closed;
    if k > 0 {
      OrderedSoFar(cfg, tab, batches, k - 1);
      var g, before, ids := DepsOf(tab), OrderedAfter(cfg, batches, k - 1), Ids(batches[k - 1]);
      var new_ := BatchOutcome(cfg, batches[k - 1], ResultsAfter(cfg, batches, k - 1));
      assert |new_| == |batches[k - 1]| == |ids| by { SameLength(cfg, batches, k - 1); }
      forall i | 0 <= i < |new_| ensures new_[i].id == ids[i] && LongestChain(g, new_[i].id, k - 1) {
        OutcomeOfBatch(cfg, tab, batches, k - 1, i);
      }
      AppendInOrder(g, before, new_, k - 1);
    }
  }

  lemma SameLength(cfg: Config, batches: Layers, k: nat)
    requires cfg.Valid() && k < |batches|
    ensures |BatchOutcome(cfg, batches[k], ResultsAfter(cfg, batches, k))| == |batches[k]| == |Ids(batches[k])|
  {
  }

  lemma AppendInOrder(g: Graph, before: seq<SubTaskResult>, new_: seq<SubTaskResult>, k: nat)
    requires InOrder(g, before) && DepthBelow(g, before, k)
    requires forall i :: 0 <= i < |new_| ==> LongestChain(g, new_[i].id, k)
    requires forall i, j :: 0 <= i < j < |new_| ==> Strings.Less(new_[i].id, new_[j].id)
    ensures InOrder(g, before + new_) && DepthBelow(g, before + new_, k + 1)
  {
    hide LongestChain;
    var all := before + new_;
    forall i, j | 0 <= i < j < |all| ensures Sooner(g, all[i].id, all[j].id) {
      if i < |before| {
        assert all[i] == before[i];
        if j < |before| {
          assert all[j] == before[j];
        } else {
          assert all[j] == new_[j - |before|];
          assert Above(g, before[i].id, k);
        }
      } else {
        assert all[i] == new_[i - |before|] && all[j] == new_[j - |before|];
      }
    }
    forall i | 0 <= i < |all| ensures Above(g, all[i].id, k + 1) {
      if i < |before| {
        assert all[i] == before[i] && Above(g, before[i].id, k);
      } else {
        assert all[i] == new_[i - |before|];
      }
    }
  }

  /** However its goroutines interleave, a finished run lists its results by the length of the
      longest dependency chain, and those of one length by ID. */
  lemma ResultsAreInOrder(cfg: Config, tab: TaskTable, batches: Layers, run: seq<State>, i: nat, j: nat)
    requires cfg.Valid() && Plan(tab, batches) && Execution(cfg, batches, run) && run[|run| - 1].batch == |batches|
    requires i < j < |run[|run| - 1].ordered|
    ensures var a, b, g := run[|run| - 1].ordered[i].id, run[|run| - 1].ordered[j].id, DepsOf(tab);
      exists m, n :: LongestChain(g, a, m) && LongestChain(g, b, n) &&
        (m < n || (m == n && exists k ::
           0 <= k <= |a| && k < |b| && a[..k] == b[..k] && (k == |a| || a[k] < b[k])))
  {
    hide LongestChain, DepsOf, Plan, OrderedAfter, ResultsAfter, Next;
    InterleavingIsIrrelevant(cfg, tab, batches, run, |run| - 1);
    OrderedSoFar(cfg, tab, batches, |batches|);
    var a, b := run[|run| - 1].ordered[i].id, run[|run| - 1].ordered[j].id;
    Strings.LessMeans(a, b);
    assert Sooner(DepsOf(tab), a, b);
  }
}
