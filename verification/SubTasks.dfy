/** Cleaning up the sub-tasks that a model proposes, before they are scheduled:
    internal/orchestrator/task/manager.go. */
module SubTasks {
  import opened Wrappers
  import opened Strings
  import opened Graphs
  import opened Dag

  /** A decoded sub-task; absent fields are empty. */
  datatype Proposal = Proposal(id: string, description: string, priority: int, deps: seq<string>)

  datatype Ranked = Ranked(task: SubTask, priority: int)

  // ---- One task ----

  function Fallback(n: nat): string {
    "task-" + Decimal(n)
  }

  function IdsOf(out: seq<Ranked>): set<string> {
    set r | r in out :: r.task.id
  }

  /** Its own ID, unless there is none or it is taken; then one made from the position. */
  function ChosenId(used: set<string>, n: nat, p: Proposal): string {
    var id := TrimSpace(p.id);
    if id == "" || id == "<nil>" || id in used then Fallback(n + 1) else id
  }

  predicate Wanted(dep: string, id: string) {
    dep != "" && dep != id
  }

  /** The trimmed dependencies, without blanks, the task itself, and repetitions. */
  function CleanDeps(deps: seq<string>, id: string): seq<string> {
    if deps == [] then []
    else
      var before, dep := CleanDeps(deps[..|deps| - 1], id), TrimSpace(deps[|deps| - 1]);
      if Wanted(dep, id) && dep !in before then before + [dep] else before
  }

  predicate Kept(p: Proposal) {
    TrimSpace(p.description) != ""
  }

  function Cleaned(out: seq<Ranked>, p: Proposal): Ranked {
    var id := ChosenId(IdsOf(out), |out|, p);
    Ranked(SubTask(id, TrimSpace(p.description), CleanDeps(p.deps, id)),
           if p.priority <= 0 then |out| + 1 else p.priority)
  }

  function Normalized(ps: seq<Proposal>): seq<Ranked> {
    if ps == [] then []
    else
      var out, p := Normalized(ps[..|ps| - 1]), ps[|ps| - 1];
      if Kept(p) then out + [Cleaned(out, p)] else out
  }

  /** `normalizeSubTasks` */
  method NormalizeSubTasks(tasks: seq<Proposal>) returns (out: seq<Ranked>)
    ensures out == Normalized(tasks)
  {
    hide TrimSpace, Fallback, CleanDeps;
    out := [];
    var used: set<string> := {};
    var i := 0;
    while i < |tasks|
      invariant 0 <= i <= |tasks| && out == Normalized(tasks[..i]) && used == IdsOf(out)
    {
      var task := tasks[i];
      assert tasks[..i + 1][..i] == tasks[..i];
      i := i + 1;
      var description := TrimSpace(task.description);
      if description != "" {
        var id := TrimSpace(task.id);
        if id == "" || id == "<nil>" {
          id := Fallback(|out| + 1);
        }
        if id in used {
          id := Fallback(|out| + 1);
        }
        used := used + {id};
        var deps := CleanDependencies(task.deps, id);
        var priority := if task.priority <= 0 then |out| + 1 else task.priority;
        out := out + [Ranked(SubTask(id, description, deps), priority)];
      }
    }
    assert tasks[..i] == tasks;
  }

  /** The inner loop over the dependencies. */
  method CleanDependencies(list: seq<string>, id: string) returns (deps: seq<string>)
    ensures deps == CleanDeps(list, id)
  {
    hide TrimSpace;
    deps := [];
    var seenDeps: set<string> := {};
    var i := 0;
    while i < |list|
      invariant 0 <= i <= |list| && deps == CleanDeps(list[..i], id) && seenDeps == Elements(deps)
    {
      assert list[..i + 1][..i] == list[..i];
      var cleanDep := TrimSpace(list[i]);
      i := i + 1;
      if cleanDep != "" && cleanDep != id && cleanDep !in seenDeps {
        seenDeps := seenDeps + {cleanDep};
        deps := deps + [cleanDep];
      }
    }
    assert list[..i] == list;
  }

  // ---- What the scheduler can count on ----

  predicate AskedFor(deps: seq<string>, d: string) {
    exists i :: 0 <= i < |deps| && TrimSpace(deps[i]) == d
  }

  lemma AskedForSnoc(deps: seq<string>, d: string)
    requires deps != []
    ensures AskedFor(deps, d) <==> AskedFor(deps[..|deps| - 1], d) || TrimSpace(deps[|deps| - 1]) == d
  {
    hide TrimSpace;
    var m := |deps| - 1;
    if AskedFor(deps, d) {
      var i :| 0 <= i < |deps| && TrimSpace(deps[i]) == d;
      assert i < m ==> deps[..m][i] == deps[i];
    }
    if AskedFor(deps[..m], d) {
      var i :| 0 <= i < m && TrimSpace(deps[..m][i]) == d;
      assert deps[..m][i] == deps[i];
    }
  }

  /** A dependency of the cleaned task is one that was asked for, trimmed, not blank, not the
      task itself, and listed once. */
  lemma {:induction false} DependenciesAreClean(deps: seq<string>, id: string)
    ensures forall d :: d in CleanDeps(deps, id) <==> d != "" && d != id && AskedFor(deps, d)
    ensures forall i, j :: 0 <= i < j < |CleanDeps(deps, id)| ==> CleanDeps(deps, id)[i] != CleanDeps(deps, id)[j]
  {
    hide TrimSpace, AskedFor;
    if deps != [] {
      DependenciesAreClean(deps[..|deps| - 1], id);
      forall d ensures AskedFor(deps, d) <==> AskedFor(deps[..|deps| - 1], d) || TrimSpace(deps[|deps| - 1]) == d {
        AskedForSnoc(deps, d);
      }
    } else {
      NobodyAsked();
    }
  }

  lemma NobodyAsked()
    ensures forall d :: !AskedFor([], d)
  {
  }

  /** `d` is asked for at some place up to which `e` is not. */
  ghost predicate AskedBefore(deps: seq<string>, d: string, e: string) {
    exists m :: 0 <= m < |deps| && TrimSpace(deps[m]) == d && forall l :: 0 <= l <= m ==> TrimSpace(deps[l]) != e
  }

  /** They stay in the order in which they were first asked for. */
  lemma {:induction false} DependenciesKeepOrder(deps: seq<string>, id: string, i: nat, j: nat)
    requires i < j < |CleanDeps(deps, id)|
    ensures AskedBefore(deps, CleanDeps(deps, id)[i], CleanDeps(deps, id)[j])
  {
    hide TrimSpace;
    var m := |deps| - 1;
    var before := CleanDeps(deps[..m], id);
    var d, e := CleanDeps(deps, id)[i], CleanDeps(deps, id)[j];
    assert deps == deps[..m] + [deps[m]];
    if j < |before| {
      DependenciesKeepOrder(deps[..m], id, i, j);
    } else {
      DependenciesAreClean(deps[..m], id);
      assert before[i] in before && AskedFor(deps[..m], d);
      var k :| 0 <= k < m && TrimSpace(deps[..m][k]) == d;
      assert !AskedFor(deps[..m], e);
      forall l | 0 <= l <= k ensures TrimSpace(deps[..m][l]) != e {
      }
      assert AskedBefore(deps[..m], d, e);
    }
    var k :| 0 <= k < m && TrimSpace(deps[..m][k]) == d && forall l :: 0 <= l <= k ==> TrimSpace(deps[..m][l]) != e;
    assert deps[k] == deps[..m][k] && forall l :: 0 <= l <= k ==> deps[l] == deps[..m][l];
  }

  lemma ChosenIdIsFilled(used: set<string>, n: nat, p: Proposal)
    ensures ChosenId(used, n, p) != ""
  {
    assert |Fallback(n + 1)| >= 5;
  }

  lemma {:induction false} NormalizedIsClean(ps: seq<Proposal>)
    ensures forall r :: r in Normalized(ps) ==> r.task.id != "" && r.task.id !in r.task.deps && r.priority >= 1
  {
    hide TrimSpace, CleanDeps, ChosenId;
    if ps != [] {
      var out, p := Normalized(ps[..|ps| - 1]), ps[|ps| - 1];
      NormalizedIsClean(ps[..|ps| - 1]);
      ChosenIdIsFilled(IdsOf(out), |out|, p);
      DependenciesAreClean(p.deps, ChosenId(IdsOf(out), |out|, p));
    }
  }

  /** The `k`-th task of the list is the proposal `p`: trimmed, with a priority of its own or by
      its place, and with its own ID unless there is none or an earlier task has it. */
  ghost predicate Matches(out: seq<Ranked>, k: nat, p: Proposal)
    requires k < |out|
  {
    var r, own := out[k], TrimSpace(p.id);
    && r.task.description == TrimSpace(p.description)
    && r.priority == (if p.priority <= 0 then k + 1 else p.priority)
    && r.task.deps == CleanDeps(p.deps, r.task.id)
    && if own != "" && own != "<nil>" && forall j :: 0 <= j < k ==> out[j].task.id != own then r.task.id == own
       else r.task.id == "task-" + Decimal(k + 1)
  }

  /** `at` lists the proposals with a description. */
  ghost predicate Described(ps: seq<Proposal>, at: seq<nat>) {
    && (forall i, j :: 0 <= i < j < |at| ==> at[i] < at[j])
    && (forall n: nat :: n in at <==> n < |ps| && TrimSpace(ps[n].description) != "")
  }

  /** The list holds one task for each proposal with a description, in the same order. */
  lemma {:induction false} ListMatchesProposals(ps: seq<Proposal>) returns (at: seq<nat>)
    ensures Described(ps, at) && |Normalized(ps)| == |at|
    ensures forall k :: 0 <= k < |at| ==> at[k] < |ps| && Matches(Normalized(ps), k, ps[at[k]])
  {
    if ps == [] {
      at := [];
    } else {
      hide TrimSpace, Kept, CleanDeps, Decimal, Matches, Described, Cleaned, Normalized;
      var m := |ps| - 1;
      var before, p := ps[..m], ps[m];
      at := ListMatchesProposals(before);
      DescribedSnoc(before, p, at);
      assert ps == before + [p];
      NormalizedSnoc(before, p);
      if Kept(p) {
        OneMoreMatches(before, at, p);
        at := at + [m];
      }
    }
  }

  lemma NormalizedSnoc(ps: seq<Proposal>, p: Proposal)
    ensures Normalized(ps + [p]) ==
            if Kept(p) then Normalized(ps) + [Cleaned(Normalized(ps), p)] else Normalized(ps)
  {
    assert (ps + [p])[..|ps|] == ps;
  }

  lemma OneMoreMatches(ps: seq<Proposal>, at: seq<nat>, p: Proposal)
    requires |Normalized(ps)| == |at|
    requires forall k :: 0 <= k < |at| ==> at[k] < |ps| && Matches(Normalized(ps), k, ps[at[k]])
    ensures var all, places := Normalized(ps) + [Cleaned(Normalized(ps), p)], at + [|ps|];
      forall k :: 0 <= k < |places| ==> places[k] <= |ps| && Matches(all, k, (ps + [p])[places[k]])
  {
    hide TrimSpace, CleanDeps, Decimal, Matches, Cleaned, Normalized;
    var out := Normalized(ps);
    LastMatches(out, p);
    forall k | 0 <= k < |out| ensures Matches(out + [Cleaned(out, p)], k, ps[at[k]]) {
      MatchesStays(out, k, ps[at[k]], Cleaned(out, p));
    }
  }

  lemma DescribedSnoc(ps: seq<Proposal>, p: Proposal, at: seq<nat>)
    requires Described(ps, at)
    ensures Described(ps + [p], if Kept(p) then at + [|ps|] else at)
  {
    hide TrimSpace;
    forall i | 0 <= i < |at| ensures at[i] < |ps| {
      assert at[i] in at;
    }
  }

  lemma LastMatches(out: seq<Ranked>, p: Proposal)
    ensures Matches(out + [Cleaned(out, p)], |out|, p)
  {
    hide TrimSpace, CleanDeps, Decimal;
    var own, all := TrimSpace(p.id), out + [Cleaned(out, p)];
    if own in IdsOf(out) {
      var r :| r in out && r.task.id == own;
      var j :| 0 <= j < |out| && out[j] == r;
      assert all[j].task.id == own;
    } else {
      forall j | 0 <= j < |out| ensures all[j].task.id != own {
        assert out[j] in out;
      }
    }
  }

  lemma MatchesStays(out: seq<Ranked>, k: nat, p: Proposal, r: Ranked)
    requires k < |out| && Matches(out, k, p)
    ensures Matches(out + [r], k, p)
  {
    hide TrimSpace, CleanDeps, Decimal;
    assert forall j :: 0 <= j <= k ==> (out + [r])[j] == out[j];
  }

  /** At the `n`-th proposal an ID has to be made up, and the one made up is taken. */
  predicate Clashes(ps: seq<Proposal>, n: int) {
    0 <= n < |ps| && Kept(ps[n]) &&
    var out, id := Normalized(ps[..n]), TrimSpace(ps[n].id);
    (id == "" || id == "<nil>" || id in IdsOf(out)) && Fallback(|out| + 1) in IdsOf(out)
  }

  ghost predicate DistinctIds(out: seq<Ranked>) {
    forall i, j :: 0 <= i < j < |out| ==> out[i].task.id != out[j].task.id
  }

  lemma DistinctSnoc(out: seq<Ranked>, r: Ranked)
    ensures DistinctIds(out + [r]) <==> DistinctIds(out) && r.task.id !in IdsOf(out)
  {
    var more := out + [r];
    if r.task.id in IdsOf(out) {
      var x :| x in out && x.task.id == r.task.id;
      var i :| 0 <= i < |out| && out[i] == x;
      assert more[i].task.id == more[|out|].task.id;
    } else {
      forall i | 0 <= i < |out| ensures out[i].task.id != r.task.id {
        assert out[i] in out;
      }
    }
    if DistinctIds(more) {
      forall i, j | 0 <= i < j < |out| ensures out[i].task.id != out[j].task.id {
        assert more[i].task.id != more[j].task.id;
      }
    }
  }

  lemma ClashesBefore(ps: seq<Proposal>, m: nat, n: int)
    requires m <= |ps|
    ensures Clashes(ps[..m], n) <==> Clashes(ps, n) && n < m
  {
    if 0 <= n < m {
      assert ps[..m][..n] == ps[..n];
    }
  }

  /** The IDs are distinct exactly when no made-up ID is taken already. */
  lemma {:induction false} IdsDistinctIff(ps: seq<Proposal>)
    ensures DistinctIds(Normalized(ps)) <==> forall n :: !Clashes(ps, n)
  {
    hide TrimSpace, CleanDeps, DistinctIds, Fallback;
    if ps == [] {
      assert DistinctIds([]) by { NothingIsDistinct(); }
    } else {
      var m := |ps| - 1;
      var out, p := Normalized(ps[..m]), ps[m];
      IdsDistinctIff(ps[..m]);
      forall n ensures Clashes(ps[..m], n) <==> Clashes(ps, n) && n < m {
        ClashesBefore(ps, m, n);
      }
      DistinctSnoc(out, Cleaned(out, p));
      assert Clashes(ps, m) <==> Kept(p) && Cleaned(out, p).task.id in IdsOf(out);
      assert forall n :: Clashes(ps, n) ==> n <= m;
    }
  }

  lemma NothingIsDistinct()
    ensures DistinctIds([])
  {
  }

  /** It can happen: the second task's made-up ID is the first task's own. */
  lemma MadeUpIdCanBeTaken()
    ensures var ps := [Proposal("task-2", "a", 0, []), Proposal("", "b", 0, [])];
      Clashes(ps, 1) && !DistinctIds(Normalized(ps))
  {
    var p, q := Proposal("task-2", "a", 0, []), Proposal("", "b", 0, []);
    assert [p][..0] == [] && [p, q][..1] == [p];
    TrimmedIsFixed("task-2");
    TrimmedIsFixed("a");
    TrimmedIsFixed("b");
    TrimmedIsFixed("");
    assert Normalized([p]) == [Cleaned([], p)];
    assert Cleaned([], p).task.id == "task-2";
    assert Decimal(2) == "2" && Fallback(2) == "task-2";
    assert Cleaned([], p) in Normalized([p]);
    assert Clashes([p, q], 1);
    IdsDistinctIff([p, q]);
  }

  lemma FallbackInjective(m: nat, n: nat)
    requires Fallback(m) == Fallback(n)
    ensures m == n
  {
    assert Fallback(m)[5..] == Decimal(m) && Fallback(n)[5..] == Decimal(n);
    DecimalInjective(m, n);
  }

  /** No proposal brings an ID that looks like a made-up one. */
  ghost predicate NoTaskNumbers(ps: seq<Proposal>) {
    forall p :: p in ps ==> !("task-" <= TrimSpace(p.id))
  }

  lemma {:induction false} MadeUpIdsGrow(ps: seq<Proposal>, k: nat)
    requires NoTaskNumbers(ps) && k > |Normalized(ps)|
    ensures Fallback(k) !in IdsOf(Normalized(ps))
  {
    hide TrimSpace, CleanDeps, Decimal;
    if ps != [] {
      var m := |ps| - 1;
      var out, p := Normalized(ps[..m]), ps[m];
      MadeUpIdsGrow(ps[..m], k);
      if Kept(p) && ChosenId(IdsOf(out), |out|, p) == Fallback(k) {
        assert "task-" <= Fallback(k);
        FallbackInjective(|out| + 1, k);
      }
    }
  }

  /** Then all IDs are distinct. */
  lemma NoClashWithoutTaskNumbers(ps: seq<Proposal>)
    requires NoTaskNumbers(ps)
    ensures DistinctIds(Normalized(ps))
  {
    hide DistinctIds, TrimSpace, Fallback;
    IdsDistinctIff(ps);
    forall n ensures !Clashes(ps, n) {
      if 0 <= n < |ps| {
        MadeUpIdsGrow(ps[..n], |Normalized(ps[..n])| + 1);
      }
    }
  }

  // ---- Into the scheduler ----

  function Submitted(out: seq<Ranked>): seq<Option<SubTask>> {
    seq(|out|, i requires 0 <= i < |out| => Some(out[i].task))
  }

  /** Once normalised, a list is declared properly exactly when no made-up ID was taken; and
      then the scheduler can only find an unknown dependency or a cycle: no task is missing,
      unnamed, or its own dependency. */
  lemma WhatTheSchedulerCanFind(ps: seq<Proposal>, r: Result<Layers, DagError>)
    requires Resolves(Submitted(Normalized(ps)), r)
    ensures Declared(Submitted(Normalized(ps))) <==> forall n :: !Clashes(ps, n)
    ensures r.Failure? ==> r.error.DuplicateId? || r.error.UnknownDependency? || r.error.Circular?
    ensures r.Failure? && r.error.DuplicateId? <==> exists n :: Clashes(ps, n)
  {
    hide Normalized, Clashes, Table, Acyclic, Layered;
    var out := Normalized(ps);
    var ts := Submitted(out);
    NormalizedIsClean(ps);
    IdsDistinctIff(ps);
    DeclaredIffDistinct(out);
    if r.Failure? {
      FaultsOf(out, r);
    }
  }

  lemma DeclaredIffDistinct(out: seq<Ranked>)
    requires forall r :: r in out ==> r.task.id != ""
    ensures Declared(Submitted(out)) <==> DistinctIds(out)
  {
    var ts := Submitted(out);
    forall i | 0 <= i < |out| ensures out[i] in out && ts[i].Some? && ts[i].value.id != "" {
    }
    if Declared(ts) {
      forall i, j | 0 <= i < j < |out| ensures out[i].task.id != out[j].task.id {
        assert ts[i].value.id != ts[j].value.id;
      }
    }
  }

  lemma FaultsOf(out: seq<Ranked>, r: Result<Layers, DagError>)
    requires forall x :: x in out ==> x.task.id != "" && x.task.id !in x.task.deps
    requires Resolves(Submitted(out), r) && r.Failure?
    ensures r.error.DuplicateId? || r.error.UnknownDependency? || r.error.Circular?
    ensures r.error.DuplicateId? <==> !Declared(Submitted(out))
  {
    hide Table, Acyclic, Closed, Layered;
    var ts := Submitted(out);
    forall i | 0 <= i < |ts| ensures ts[i].Some? && ts[i].value.id != "" && ts[i].value.id !in ts[i].value.deps {
      assert out[i] in out;
    }
    if Declared(ts) && !DepsFine(ts, |ts|) {
      var i, j :| 0 <= i < |ts| && 0 <= j < |ts[i].value.deps| &&
        DepFault(Table(ts), ts[i].value, ts[i].value.deps[j]) == Some(r.error);
      assert ts[i].value.deps[j] in ts[i].value.deps;
    }
  }
}
