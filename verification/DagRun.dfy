/** `ExecuteDAG` as interleaved goroutine steps: internal/orchestrator/task/coordinator.go. */
module DagRun {
  import opened Wrappers
  import opened Graphs
  import opened Dag
  import Strings

  datatype TaskError = DependencyMissing(dep: string) | DependencyFailed(dep: string) | EngineError(message: string)

  datatype SubTaskResult = SubTaskResult(id: string, success: bool, output: string, error: Option<TaskError>)

  /** `engine(t, scratchpad, n)` is the answer of the cognitive engine to attempt `n` of `t`. */
  datatype Config = Config(maxParallel: nat, retryMax: nat, retryBackoff: nat,
                           engine: (SubTask, seq<string>, nat) -> Result<string, string>)
  {
    /** What `NewCoordinator` establishes. */
    predicate Valid() {
      maxParallel >= 1 && retryMax >= 1
    }
  }

  type Results = map<string, SubTaskResult>

  // ---- One task, run to its end ----

  /** The first dependency that has no result, or an unsuccessful one. */
  function Blocked(deps: seq<string>, results: Results): Option<TaskError> {
    if deps == [] then None
    else if deps[0] !in results then Some(DependencyMissing(deps[0]))
    else if !results[deps[0]].success then Some(DependencyFailed(deps[0]))
    else Blocked(deps[1..], results)
  }

  function Scratchpad(deps: seq<string>, results: Results): seq<string> {
    if deps == [] then []
    else
      (if deps[0] in results && results[deps[0]].success
       then ["Dependency " + deps[0] + " Output: " + results[deps[0]].output] else [])
      + Scratchpad(deps[1..], results)
  }

  function Failed(t: SubTask, e: TaskError): SubTaskResult {
    SubTaskResult(t.id, false, "", Some(e))
  }

  /** What attempts `n`, `n + 1`, ... lead to. */
  function Attempts(cfg: Config, t: SubTask, pad: seq<string>, n: nat): SubTaskResult
    requires n < cfg.retryMax
    decreases cfg.retryMax - n
  {
    match cfg.engine(t, pad, n)
    case Success(output) => SubTaskResult(t.id, true, output, None)
    case Failure(e) => if n + 1 < cfg.retryMax then Attempts(cfg, t, pad, n + 1) else Failed(t, EngineError(e))
  }

  function Outcome(cfg: Config, t: SubTask, results: Results): SubTaskResult
    requires cfg.Valid()
  {
    match Blocked(t.deps, results)
    case Some(e) => Failed(t, e)
    case None => Attempts(cfg, t, Scratchpad(t.deps, results), 0)
  }

  // ---- All batches, one after the other ----

  function BatchOutcome(cfg: Config, batch: seq<SubTask>, results: Results): seq<SubTaskResult>
    requires cfg.Valid()
  {
    seq(|batch|, i requires 0 <= i < |batch| => Outcome(cfg, batch[i], results))
  }

  function Merge(results: Results, new_: seq<SubTaskResult>): Results {
    if new_ == [] then results else Merge(results, new_[..|new_| - 1])[new_[|new_| - 1].id := new_[|new_| - 1]]
  }

  /** `resultsByID` after the first `k` batches. */
  function ResultsAfter(cfg: Config, batches: Layers, k: nat): Results
    requires cfg.Valid() && k <= |batches|
  {
    if k == 0 then map[]
    else Merge(ResultsAfter(cfg, batches, k - 1), BatchOutcome(cfg, batches[k - 1], ResultsAfter(cfg, batches, k - 1)))
  }

  /** `ordered` after the first `k` batches. */
  function OrderedAfter(cfg: Config, batches: Layers, k: nat): seq<SubTaskResult>
    requires cfg.Valid() && k <= |batches|
  {
    if k == 0 then []
    else OrderedAfter(cfg, batches, k - 1) + BatchOutcome(cfg, batches[k - 1], ResultsAfter(cfg, batches, k - 1))
  }

  // ---- The goroutines ----

  /** Where the goroutine of one sub-task stands. */
  datatype Phase =
    | Waiting                        // before `sem <- struct{}{}`
    | Checking                       // slot taken, dependencies not yet looked at
    | Running(attempt: nat)          // about to call the engine
    | Sleeping(attempt: nat)         // backing off after a failed attempt
    | Recording(res: SubTaskResult)  // about to write `batchResultByID`
    | Releasing                      // result written, slot still held
    | Finished                       // slot released, `wg.Done()`

  datatype State = State(
    batch: nat,
    sem: nat,                   // slots taken: entries in the channel `sem`
    phase: map<string, Phase>,
    batchResult: Results,
    results: Results,
    ordered: seq<SubTaskResult>,
    runs: map<string, nat>,     // engine calls made for each task
    backoff: map<string, nat>)  // time slept for each task

  function Busy(phase: map<string, Phase>): set<string> {
    set id | id in phase && !phase[id].Waiting? && !phase[id].Finished?
  }

  function StartBatch(batches: Layers, s: State): State {
    if s.batch < |batches| then
      s.(sem := 0, phase := map id | id in Ids(batches[s.batch]) :: Waiting, batchResult := map[])
    else s
  }

  function Init(batches: Layers): State {
    StartBatch(batches, State(0, 0, map[], map[], map[], [], map[], map[]))
  }

  function Get(m: map<string, nat>, id: string): nat {
    if id in m then m[id] else 0
  }

  /** Not done, and not blocked: sending on a full channel and receiving from an empty one block. */
  predicate Enabled(cfg: Config, s: State, id: string) {
    && id in s.phase && !s.phase[id].Finished?
    && (s.phase[id].Waiting? ==> s.sem < cfg.maxParallel)
    && (s.phase[id].Releasing? ==> s.sem > 0)
  }

  function EngineCall(cfg: Config, s: State, t: SubTask, n: nat): State {
    var s' := s.(runs := s.runs[t.id := Get(s.runs, t.id) + 1]);
    match cfg.engine(t, Scratchpad(t.deps, s.results), n)
    case Success(output) => s'.(phase := s.phase[t.id := Recording(SubTaskResult(t.id, true, output, None))])
    case Failure(e) =>
      if n + 1 < cfg.retryMax then
        s'.(phase := s.phase[t.id := Sleeping(n)],
            backoff := s.backoff[t.id := Get(s.backoff, t.id) + cfg.retryBackoff * (n + 1)])
      else s'.(phase := s.phase[t.id := Recording(Failed(t, EngineError(e)))])
  }

  /** One atomic step of the goroutine of `t`. */
  function TaskStep(cfg: Config, s: State, t: SubTask): State
    requires cfg.Valid() && Enabled(cfg, s, t.id)
  {
    match s.phase[t.id]
    case Waiting => s.(phase := s.phase[t.id := Checking], sem := s.sem + 1)
    case Checking =>
      (match Blocked(t.deps, s.results)
       case Some(e) => s.(phase := s.phase[t.id := Recording(Failed(t, e))])
       case None => s.(phase := s.phase[t.id := Running(0)]))
    case Running(n) => EngineCall(cfg, s, t, n)
    case Sleeping(n) => s.(phase := s.phase[t.id := Running(n + 1)])
    case Recording(res) => s.(phase := s.phase[t.id := Releasing], batchResult := s.batchResult[t.id := res])
    case Releasing => s.(phase := s.phase[t.id := Finished], sem := s.sem - 1)
    case Finished => s
  }

  predicate AllFinished(s: State) {
    forall id :: id in s.phase ==> s.phase[id].Finished?
  }

  function Collected(batch: seq<SubTask>, batchResult: Results): seq<SubTaskResult> {
    seq(|batch|, i requires 0 <= i < |batch| =>
      if batch[i].id in batchResult then batchResult[batch[i].id] else SubTaskResult("", false, "", None))
  }

  /** `wg.Wait()` returns: collect the batch in order and open the next one. */
  function Barrier(batches: Layers, s: State): State
    requires s.batch < |batches|
  {
    var new_ := Collected(batches[s.batch], s.batchResult);
    StartBatch(batches, s.(batch := s.batch + 1, results := Merge(s.results, new_), ordered := s.ordered + new_))
  }

  ghost predicate Next(cfg: Config, batches: Layers, s: State, s': State)
    requires cfg.Valid()
  {
    s.batch < |batches| &&
    ( (exists t :: t in batches[s.batch] && Enabled(cfg, s, t.id) && s' == TaskStep(cfg, s, t))
    || (AllFinished(s) && s' == Barrier(batches, s)))
  }

  /** Any interleaving of the goroutines, from the start. */
  ghost predicate Execution(cfg: Config, batches: Layers, run: seq<State>)
    requires cfg.Valid()
  {
    && run != [] && run[0] == Init(batches)
    && forall i :: 0 < i < |run| ==> Next(cfg, batches, run[i - 1], run[i])
  }

  // ---- What every reachable state satisfies ----

  /** Twice the time slept before attempt `n`: the sleeps are 1, 2, ..., n times the base. */
  function TwiceBackoff(base: nat, n: nat): nat {
    if n == 0 then 0 else TwiceBackoff(base, n - 1) + 2 * (base * n)
  }

  lemma {:induction false} TwiceBackoffMonotone(base: nat, n: nat, m: nat)
    requires n <= m
    ensures TwiceBackoff(base, n) <= TwiceBackoff(base, m)
  {
    if n < m {
      TwiceBackoffMonotone(base, n, m - 1);
    }
  }

  lemma {:induction false} TwiceBackoffClosedForm(base: nat, n: nat)
    ensures TwiceBackoff(base, n) == base * (n * (n + 1))
  {
    if n > 0 {
      TwiceBackoffClosedForm(base, n - 1);
      assert (n - 1) * n + 2 * n == n * (n + 1);
      assert base * ((n - 1) * n) + 2 * (base * n) == base * ((n - 1) * n + 2 * n);
    }
  }

  lemma BackoffOfAllRetries(base: nat, max: nat)
    requires max >= 1
    ensures TwiceBackoff(base, max - 1) == base * ((max - 1) * max)
  {
    TwiceBackoffClosedForm(base, max - 1);
  }

  /** The attempts before `n` have all failed, and there were only as many because they did. */
  ghost predicate Tried(cfg: Config, t: SubTask, results: Results, n: nat) {
    && (n > 0 ==> Blocked(t.deps, results).None?)
    && forall m :: 0 <= m < n ==> cfg.engine(t, Scratchpad(t.deps, results), m).Failure?
  }

  /** What a task has used up when it is done: nothing if it was blocked, else one call up to
      the first success, and before each call but the first a sleep. */
  ghost predicate Spent(cfg: Config, t: SubTask, results: Results, runs: nat, slept: nat) {
    if runs == 0 then Blocked(t.deps, results).Some? && slept == 0
    else
      && Blocked(t.deps, results).None? && Tried(cfg, t, results, runs - 1)
      && slept == TwiceBackoff(cfg.retryBackoff, runs - 1)
      && (runs < cfg.retryMax ==> cfg.engine(t, Scratchpad(t.deps, results), runs - 1).Success?)
  }

  ghost predicate TaskInv(cfg: Config, s: State, t: SubTask)
    requires cfg.Valid() && t.id in s.phase
  {
    var runs, slept, pad := Get(s.runs, t.id), 2 * Get(s.backoff, t.id), Scratchpad(t.deps, s.results);
    && runs <= cfg.retryMax && slept <= TwiceBackoff(cfg.retryBackoff, cfg.retryMax - 1)
    && match s.phase[t.id] {
         case Waiting => runs == 0 && slept == 0
         case Checking => runs == 0 && slept == 0
         case Running(n) =>
           n < cfg.retryMax && runs == n && slept == TwiceBackoff(cfg.retryBackoff, n) &&
           Blocked(t.deps, s.results).None? && Tried(cfg, t, s.results, n) &&
           Outcome(cfg, t, s.results) == Attempts(cfg, t, pad, n)
         case Sleeping(n) =>
           n + 1 < cfg.retryMax && runs == n + 1 && slept == TwiceBackoff(cfg.retryBackoff, n + 1) &&
           Tried(cfg, t, s.results, n + 1) && Outcome(cfg, t, s.results) == Attempts(cfg, t, pad, n + 1)
         case Recording(res) => res == Outcome(cfg, t, s.results) && Spent(cfg, t, s.results, runs, slept)
         case Releasing =>
           t.id in s.batchResult && s.batchResult[t.id] == Outcome(cfg, t, s.results) &&
           Spent(cfg, t, s.results, runs, slept)
         case Finished =>
           t.id in s.batchResult && s.batchResult[t.id] == Outcome(cfg, t, s.results) &&
           Spent(cfg, t, s.results, runs, slept)
       }
  }

  /** Engine calls and sleeping stay within what the retry policy allows. */
  ghost predicate WithinRetryPolicy(cfg: Config, s: State)
    requires cfg.Valid()
  {
    forall id :: Get(s.runs, id) <= cfg.retryMax &&
      2 * Get(s.backoff, id) <= TwiceBackoff(cfg.retryBackoff, cfg.retryMax - 1)
  }

  ghost predicate Inv(cfg: Config, batches: Layers, s: State)
    requires cfg.Valid()
  {
    Core(cfg, batches, s) && BatchInv(cfg, batches, s)
  }

  ghost predicate Core(cfg: Config, batches: Layers, s: State)
    requires cfg.Valid()
  {
    && s.batch <= |batches|
    && s.results == ResultsAfter(cfg, batches, s.batch)
    && s.ordered == OrderedAfter(cfg, batches, s.batch)
    && s.sem == |Busy(s.phase)| <= cfg.maxParallel
    && WithinRetryPolicy(cfg, s)
    && (forall id :: id in s.runs || id in s.backoff ==> Opened(batches, s.batch, id))
  }

  /** Some batch up to the `k`-th holds the task. */
  ghost predicate Opened(batches: Layers, k: nat, id: string) {
    exists l :: 0 <= l <= k && l < |batches| && id in Ids(batches[l])
  }

  /** The goroutines are those of the current batch, each where its history puts it. */
  ghost predicate BatchInv(cfg: Config, batches: Layers, s: State)
    requires cfg.Valid()
  {
    s.batch < |batches| ==>
      && s.phase.Keys == Elements(Ids(batches[s.batch]))
      && forall t :: t in batches[s.batch] ==> t.id in s.phase && TaskInv(cfg, s, t)
  }

  /** No ID occurs twice, in one batch or in two. */
  ghost predicate Separate(batches: Layers) {
    forall k, l, i, j ::
      (0 <= k < |batches| && 0 <= l < |batches| && 0 <= i < |batches[k]| && 0 <= j < |batches[l]| &&
       batches[k][i].id == batches[l][j].id) ==> k == l && i == j
  }

  lemma LayeredIsSeparate(tab: TaskTable, batches: Layers)
    requires Layered(tab, batches)
    ensures Separate(batches)
  {
    forall k, l, i, j | 0 <= k < |batches| && 0 <= l < |batches| && 0 <= i < |batches[k]| && 0 <= j < |batches[l]| &&
      batches[k][i].id == batches[l][j].id ensures k == l && i == j
    {
      assert batches[k][i] in batches[k] && batches[l][j] in batches[l];
      LongestChainUnique(DepsOf(tab), batches[k][i].id, k, l);
      assert Ids(batches[k])[i] == Ids(batches[k])[j];
      Strings.LessIrreflexive(batches[k][i].id);
    }
  }

  lemma InitInv(cfg: Config, batches: Layers)
    requires cfg.Valid()
    ensures Inv(cfg, batches, Init(batches))
  {
    assert Busy(Init(batches).phase) == {};
    if batches != [] {
      BatchStarts(cfg, batches, State(0, 0, map[], map[], map[], [], map[], map[]));
    }
  }

  lemma BatchStarts(cfg: Config, batches: Layers, s: State)
    requires cfg.Valid() && s.batch < |batches|
    requires forall t :: t in batches[s.batch] ==> Get(s.runs, t.id) == 0 && Get(s.backoff, t.id) == 0
    ensures StartBatch(batches, s).phase.Keys == Elements(Ids(batches[s.batch]))
    ensures forall t :: t in batches[s.batch] ==>
      t.id in StartBatch(batches, s).phase && TaskInv(cfg, StartBatch(batches, s), t)
  {
    forall t | t in batches[s.batch] ensures t.id in Ids(batches[s.batch]) {
      InIds(batches[s.batch], t);
    }
    assert TwiceBackoff(cfg.retryBackoff, cfg.retryMax - 1) >= 0;
  }

  lemma InIds(b: seq<SubTask>, t: SubTask)
    requires t in b
    ensures t.id in Ids(b)
  {
    var i :| 0 <= i < |b| && b[i] == t;
    assert Ids(b)[i] == t.id;
  }

  lemma OwnEngineCall(cfg: Config, s: State, t: SubTask, n: nat)
    requires cfg.Valid() && t.id in s.phase && s.phase[t.id] == Running(n) && TaskInv(cfg, s, t)
    ensures TaskInv(cfg, EngineCall(cfg, s, t, n), t)
  {
    var s' := EngineCall(cfg, s, t, n);
    assert s'.results == s.results && Get(s'.runs, t.id) == n + 1;
    match cfg.engine(t, Scratchpad(t.deps, s.results), n)
    case Success(_) =>
    case Failure(_) =>
      if n + 1 < cfg.retryMax {
        TwiceBackoffMonotone(cfg.retryBackoff, n + 1, cfg.retryMax - 1);
        assert Get(s'.backoff, t.id) == Get(s.backoff, t.id) + cfg.retryBackoff * (n + 1);
      }
  }

  /** A goroutine's step keeps its own part of the invariant. */
  lemma OwnStep(cfg: Config, s: State, t: SubTask)
    requires cfg.Valid() && Enabled(cfg, s, t.id) && TaskInv(cfg, s, t)
    ensures TaskInv(cfg, TaskStep(cfg, s, t), t)
  {
    if s.phase[t.id].Running? {
      OwnEngineCall(cfg, s, t, s.phase[t.id].attempt);
    } else {
      var s' := TaskStep(cfg, s, t);
      assert s'.runs == s.runs && s'.backoff == s.backoff && s'.results == s.results;
    }
  }

  lemma BusyAfter(phase: map<string, Phase>, id: string, p: Phase)
    ensures Busy(phase[id := p]) == if p.Waiting? || p.Finished? then Busy(phase) - {id} else Busy(phase) + {id}
  {
  }

  /** What a step does to the channel `sem`. */
  lemma StepSlot(cfg: Config, s: State, t: SubTask)
    requires cfg.Valid() && Enabled(cfg, s, t.id)
    ensures var s' := TaskStep(cfg, s, t);
      && t.id in s'.phase && s'.phase == s.phase[t.id := s'.phase[t.id]]
      && match s.phase[t.id]
         case Waiting => s'.phase[t.id].Checking? && s'.sem == s.sem + 1
         case Releasing => s'.phase[t.id].Finished? && s'.sem == s.sem - 1
         case _ => !s'.phase[t.id].Waiting? && !s'.phase[t.id].Finished? && s'.sem == s.sem
  {
    hide Scratchpad, Failed, Blocked, Get, EngineCall;
    if s.phase[t.id].Running? {
      EngineCallShape(cfg, s, t, s.phase[t.id].attempt);
    }
  }

  lemma SlotsRespected(cfg: Config, s: State, t: SubTask)
    requires cfg.Valid() && Enabled(cfg, s, t.id) && s.sem == |Busy(s.phase)| <= cfg.maxParallel
    ensures TaskStep(cfg, s, t).sem == |Busy(TaskStep(cfg, s, t).phase)| <= cfg.maxParallel
  {
    hide TaskStep;
    StepSlot(cfg, s, t);
    BusyAfter(s.phase, t.id, TaskStep(cfg, s, t).phase[t.id]);
    assert t.id in Busy(s.phase) <==> !s.phase[t.id].Waiting?;
    if t.id in Busy(s.phase) {
      assert Busy(s.phase) + {t.id} == Busy(s.phase);
    }
  }

  lemma EngineCallIsLocal(cfg: Config, s: State, t: SubTask, n: nat)
    requires t.id in s.phase
    ensures var s' := EngineCall(cfg, s, t, n);
      && s'.batch == s.batch && s'.results == s.results && s'.ordered == s.ordered
      && s'.phase.Keys == s.phase.Keys
      && s'.runs.Keys <= s.runs.Keys + {t.id} && s'.backoff.Keys <= s.backoff.Keys + {t.id}
      && forall id :: id != t.id ==>
           && Get(s'.runs, id) == Get(s.runs, id) && Get(s'.backoff, id) == Get(s.backoff, id)
           && (id in s.phase ==> s'.phase[id] == s.phase[id])
           && (id in s.batchResult ==> id in s'.batchResult && s'.batchResult[id] == s.batchResult[id])
  {
    hide Get, Scratchpad, Failed;
    var s' := EngineCall(cfg, s, t, n);
    EngineCallShape(cfg, s, t, n);
    forall id | id != t.id ensures Get(s'.runs, id) == Get(s.runs, id) && Get(s'.backoff, id) == Get(s.backoff, id) {
      GetOther(s.runs, t.id, s'.runs[t.id], id);
      if s'.backoff != s.backoff {
        GetOther(s.backoff, t.id, s'.backoff[t.id], id);
      }
    }
  }

  lemma GetOther(m: map<string, nat>, key: string, n: nat, id: string)
    ensures id != key ==> Get(m[key := n], id) == Get(m, id)
  {
  }

  lemma EngineCallShape(cfg: Config, s: State, t: SubTask, n: nat)
    requires t.id in s.phase
    ensures var s' := EngineCall(cfg, s, t, n);
      && s'.batch == s.batch && s'.results == s.results && s'.ordered == s.ordered && s'.batchResult == s.batchResult
      && t.id in s'.runs && s'.runs == s.runs[t.id := s'.runs[t.id]]
      && (s'.backoff == s.backoff || (t.id in s'.backoff && s'.backoff == s.backoff[t.id := s'.backoff[t.id]]))
      && t.id in s'.phase && s'.phase == s.phase[t.id := s'.phase[t.id]]
      && s'.sem == s.sem && (s'.phase[t.id].Recording? || s'.phase[t.id].Sleeping?)
  {
    hide Get, Scratchpad, Failed;
  }

  /** A step of `t` touches nothing that belongs to another task. */
  lemma StepIsLocal(cfg: Config, s: State, t: SubTask)
    requires cfg.Valid() && Enabled(cfg, s, t.id)
    ensures var s' := TaskStep(cfg, s, t);
      && s'.batch == s.batch && s'.results == s.results && s'.ordered == s.ordered
      && s'.phase.Keys == s.phase.Keys
      && s'.runs.Keys <= s.runs.Keys + {t.id} && s'.backoff.Keys <= s.backoff.Keys + {t.id}
      && forall id :: id != t.id ==>
           && Get(s'.runs, id) == Get(s.runs, id) && Get(s'.backoff, id) == Get(s.backoff, id)
           && (id in s.phase ==> s'.phase[id] == s.phase[id])
           && (id in s.batchResult ==> id in s'.batchResult && s'.batchResult[id] == s.batchResult[id])
  {
    hide EngineCall, Scratchpad, Failed, Blocked, Get;
    if s.phase[t.id].Running? {
      EngineCallIsLocal(cfg, s, t, s.phase[t.id].attempt);
    } else {
      var s' := TaskStep(cfg, s, t);
      assert s'.runs == s.runs && s'.backoff == s.backoff;
    }
  }

  /** ... and nobody else's. */
  lemma OthersUntouched(cfg: Config, s: State, t: SubTask, u: SubTask)
    requires cfg.Valid() && Enabled(cfg, s, t.id) && u.id in s.phase && TaskInv(cfg, s, u) && u.id != t.id
    ensures TaskInv(cfg, TaskStep(cfg, s, t), u)
  {
    StepIsLocal(cfg, s, t);
  }

  lemma SameTask(batches: Layers, k: nat, t: SubTask, u: SubTask)
    requires Separate(batches) && k < |batches| && t in batches[k] && u in batches[k] && t.id == u.id
    ensures t == u
  {
    var i :| 0 <= i < |batches[k]| && batches[k][i] == t;
    var j :| 0 <= j < |batches[k]| && batches[k][j] == u;
  }

  lemma TaskStepKeepsBatchInv(cfg: Config, batches: Layers, s: State, t: SubTask)
    requires cfg.Valid() && Separate(batches) && BatchInv(cfg, batches, s)
    requires s.batch < |batches| && t in batches[s.batch] && Enabled(cfg, s, t.id)
    ensures BatchInv(cfg, batches, TaskStep(cfg, s, t))
  {
    var s' := TaskStep(cfg, s, t);
    OwnStep(cfg, s, t);
    StepIsLocal(cfg, s, t);
    forall u | u in batches[s.batch] ensures u.id in s'.phase && TaskInv(cfg, s', u) {
      if u.id != t.id {
        OthersUntouched(cfg, s, t, u);
      } else {
        SameTask(batches, s.batch, t, u);
      }
    }
  }

  lemma TaskStepKeepsCore(cfg: Config, batches: Layers, s: State, t: SubTask)
    requires cfg.Valid() && Core(cfg, batches, s)
    requires s.batch < |batches| && t in batches[s.batch] && Enabled(cfg, s, t.id)
    requires TaskInv(cfg, TaskStep(cfg, s, t), t)
    ensures Core(cfg, batches, TaskStep(cfg, s, t))
  {
    SlotsRespected(cfg, s, t);
    StepIsLocal(cfg, s, t);
    PolicyKept(cfg, s, t);
    InIds(batches[s.batch], t);
    assert Opened(batches, s.batch, t.id);
  }

  lemma PolicyKept(cfg: Config, s: State, t: SubTask)
    requires cfg.Valid() && Enabled(cfg, s, t.id) && WithinRetryPolicy(cfg, s)
    requires t.id in TaskStep(cfg, s, t).phase && TaskInv(cfg, TaskStep(cfg, s, t), t)
    ensures WithinRetryPolicy(cfg, TaskStep(cfg, s, t))
  {
    StepIsLocal(cfg, s, t);
  }

  /** At the barrier every result of the batch is there: the zero value is never collected. */
  lemma CollectedIsOutcome(cfg: Config, batches: Layers, s: State)
    requires cfg.Valid() && Inv(cfg, batches, s) && s.batch < |batches| && AllFinished(s)
    ensures Collected(batches[s.batch], s.batchResult) == BatchOutcome(cfg, batches[s.batch], s.results)
    ensures forall t :: t in batches[s.batch] ==> t.id in s.batchResult
  {
    var b := batches[s.batch];
    forall t | t in b ensures t.id in s.batchResult && s.batchResult[t.id] == Outcome(cfg, t, s.results) {
      assert TaskInv(cfg, s, t);
    }
    forall i | 0 <= i < |b| ensures Collected(b, s.batchResult)[i] == Outcome(cfg, b[i], s.results) {
      assert b[i] in b;
    }
  }

  /** Tasks of a later batch have done nothing yet. */
  lemma LaterTasksAreFresh(cfg: Config, batches: Layers, s: State, t: SubTask)
    requires cfg.Valid() && Separate(batches) && Inv(cfg, batches, s)
    requires s.batch + 1 < |batches| && t in batches[s.batch + 1]
    ensures Get(s.runs, t.id) == 0 && Get(s.backoff, t.id) == 0
  {
    var i :| 0 <= i < |batches[s.batch + 1]| && batches[s.batch + 1][i] == t;
    forall l | 0 <= l <= s.batch ensures t.id !in Ids(batches[l]) {
    }
  }

  lemma BarrierKeepsBatchInv(cfg: Config, batches: Layers, s: State)
    requires cfg.Valid() && Separate(batches) && Inv(cfg, batches, s)
    requires s.batch < |batches|
    ensures BatchInv(cfg, batches, Barrier(batches, s))
  {
    var k := s.batch;
    if k + 1 < |batches| {
      var new_ := Collected(batches[k], s.batchResult);
      var begun := s.(batch := k + 1, results := Merge(s.results, new_), ordered := s.ordered + new_);
      forall t | t in batches[k + 1] ensures Get(begun.runs, t.id) == 0 && Get(begun.backoff, t.id) == 0 {
        LaterTasksAreFresh(cfg, batches, s, t);
      }
      BatchStarts(cfg, batches, begun);
    }
  }

  lemma BarrierKeepsCore(cfg: Config, batches: Layers, s: State)
    requires cfg.Valid() && Core(cfg, batches, s)
    requires s.batch < |batches| && AllFinished(s)
    requires Collected(batches[s.batch], s.batchResult) == BatchOutcome(cfg, batches[s.batch], s.results)
    ensures Core(cfg, batches, Barrier(batches, s))
  {
    hide Get, Merge, Collected, BatchOutcome, TwiceBackoff;
    var s' := Barrier(batches, s);
    assert Busy(s.phase) == {} && Busy(s'.phase) == {};
    assert s'.batch == s.batch + 1 && s'.runs == s.runs && s'.backoff == s.backoff;
    forall id | Opened(batches, s.batch, id) ensures Opened(batches, s'.batch, id) {
    }
  }

  lemma NextKeepsInv(cfg: Config, batches: Layers, s: State, s': State)
    requires cfg.Valid() && Separate(batches) && Inv(cfg, batches, s) && Next(cfg, batches, s, s')
    ensures Inv(cfg, batches, s')
  {
    if t :| t in batches[s.batch] && Enabled(cfg, s, t.id) && s' == TaskStep(cfg, s, t) {
      TaskStepKeepsBatchInv(cfg, batches, s, t);
      assert TaskInv(cfg, TaskStep(cfg, s, t), t) by {
        StepIsLocal(cfg, s, t);
      }
      TaskStepKeepsCore(cfg, batches, s, t);
    } else {
      CollectedIsOutcome(cfg, batches, s);
      BarrierKeepsBatchInv(cfg, batches, s);
      BarrierKeepsCore(cfg, batches, s);
    }
  }

  lemma {:induction false} ReachableInv(cfg: Config, batches: Layers, run: seq<State>, n: nat)
    requires cfg.Valid() && Separate(batches) && Execution(cfg, batches, run) && n < |run|
    ensures Inv(cfg, batches, run[n])
  {
    if n == 0 {
      InitInv(cfg, batches);
    } else {
      ReachableInv(cfg, batches, run, n - 1);
      NextKeepsInv(cfg, batches, run[n - 1], run[n]);
    }
  }

  // ---- Main results over whole executions ----

  /** In every state of every interleaving at most `maxParallel` slots are taken, no
      task has called the engine more than `retryMax` times, and the time it has slept is
      at most `retryBackoff * retryMax * (retryMax - 1) / 2`. */
  lemma EveryStateIsBounded(cfg: Config, tab: TaskTable, batches: Layers, run: seq<State>, n: nat, id: string)
    requires cfg.Valid() && Plan(tab, batches) && Execution(cfg, batches, run) && n < |run|
    ensures run[n].sem == |Busy(run[n].phase)| <= cfg.maxParallel
    ensures Get(run[n].runs, id) <= cfg.retryMax
    ensures 2 * Get(run[n].backoff, id) <= cfg.retryBackoff * ((cfg.retryMax - 1) * cfg.retryMax)
  {
    LayeredIsSeparate(tab, batches);
    ReachableInv(cfg, batches, run, n);
    PolicyBounds(cfg, run[n], id);
  }

  lemma PolicyBounds(cfg: Config, s: State, id: string)
    requires cfg.Valid() && WithinRetryPolicy(cfg, s)
    ensures Get(s.runs, id) <= cfg.retryMax
    ensures 2 * Get(s.backoff, id) <= cfg.retryBackoff * ((cfg.retryMax - 1) * cfg.retryMax)
  {
    BackoffOfAllRetries(cfg.retryBackoff, cfg.retryMax);
  }

  /** Whatever the interleaving, the results and their order are those of running the
      batches one task after the other. */
  lemma InterleavingIsIrrelevant(cfg: Config, tab: TaskTable, batches: Layers, run: seq<State>, n: nat)
    requires cfg.Valid() && Plan(tab, batches) && Execution(cfg, batches, run) && n < |run|
    ensures run[n].batch <= |batches|
    ensures run[n].results == ResultsAfter(cfg, batches, run[n].batch)
    ensures run[n].ordered == OrderedAfter(cfg, batches, run[n].batch)
  {
    LayeredIsSeparate(tab, batches);
    ReachableInv(cfg, batches, run, n);
  }

  lemma SomeoneCanMove(cfg: Config, s: State) returns (id: string)
    requires cfg.Valid() && !AllFinished(s) && s.sem == |Busy(s.phase)|
    ensures Enabled(cfg, s, id)
  {
    id :| id in s.phase && !s.phase[id].Finished?;
    assert id in Busy(s.phase) <==> !s.phase[id].Waiting?;
    if s.phase[id].Waiting? && Busy(s.phase) != {} {
      id :| id in Busy(s.phase);
    }
  }

  /** Not done yet means that some goroutine, or the barrier, can move. */
  lemma NeverStuck(cfg: Config, tab: TaskTable, batches: Layers, run: seq<State>, n: nat)
    requires cfg.Valid() && Plan(tab, batches) && Execution(cfg, batches, run) && n < |run|
    requires run[n].batch < |batches|
    ensures exists s' :: Next(cfg, batches, run[n], s')
  {
    LayeredIsSeparate(tab, batches);
    ReachableInv(cfg, batches, run, n);
    InvCanMove(cfg, batches, run[n]);
  }

  lemma InvCanMove(cfg: Config, batches: Layers, s: State)
    requires cfg.Valid() && BatchInv(cfg, batches, s) && s.batch < |batches| && s.sem == |Busy(s.phase)|
    ensures exists s' :: Next(cfg, batches, s, s')
  {
    if AllFinished(s) {
      assert Next(cfg, batches, s, Barrier(batches, s));
    } else {
      var id := SomeoneCanMove(cfg, s);
      assert id in Elements(Ids(batches[s.batch]));
      var i :| 0 <= i < |batches[s.batch]| && Ids(batches[s.batch])[i] == id;
      var t := batches[s.batch][i];
      assert t in batches[s.batch] && Enabled(cfg, s, t.id);
      assert Next(cfg, batches, s, TaskStep(cfg, s, t));
    }
  }

  // ---- Every execution ends ----

  /** Steps that the goroutine of one task has left. */
  function StepsLeft(cfg: Config, p: Phase): nat {
    match p
    case Waiting => 2 * cfg.retryMax + 4
    case Checking => 2 * cfg.retryMax + 3
    case Running(n) => if n <= cfg.retryMax then 2 * (cfg.retryMax - n) + 2 else 2
    case Sleeping(n) => if n <= cfg.retryMax then 2 * (cfg.retryMax - n) + 1 else 1
    case Recording(_) => 2
    case Releasing => 1
    case Finished => 0
  }

  function BatchStepsLeft(cfg: Config, batch: seq<SubTask>, phase: map<string, Phase>): nat {
    if batch == [] then 0
    else BatchStepsLeft(cfg, batch[..|batch| - 1], phase)
         + var id := batch[|batch| - 1].id; if id in phase then StepsLeft(cfg, phase[id]) else 0
  }

  /** Steps of the batches from the `k`-th on, barriers included. */
  function LaterSteps(cfg: Config, batches: Layers, k: nat): nat
    requires k <= |batches|
    decreases |batches| - k
  {
    if k == |batches| then 0 else |batches[k]| * (2 * cfg.retryMax + 4) + 1 + LaterSteps(cfg, batches, k + 1)
  }

  function Measure(cfg: Config, batches: Layers, s: State): nat {
    if s.batch < |batches| then
      BatchStepsLeft(cfg, batches[s.batch], s.phase) + 1 + LaterSteps(cfg, batches, s.batch + 1)
    else 0
  }

  lemma {:induction false} OneStepLess(cfg: Config, batch: seq<SubTask>, phase: map<string, Phase>, i: nat, p: Phase)
    requires forall j, k :: 0 <= j < k < |batch| ==> batch[j].id != batch[k].id
    requires i < |batch| && batch[i].id in phase && StepsLeft(cfg, p) < StepsLeft(cfg, phase[batch[i].id])
    ensures BatchStepsLeft(cfg, batch, phase[batch[i].id := p]) < BatchStepsLeft(cfg, batch, phase)
  {
    var m := |batch| - 1;
    if i < m {
      OneStepLess(cfg, batch[..m], phase, i, p);
    } else {
      NoStepLess(cfg, batch[..m], phase, batch[i].id, p);
    }
  }

  lemma {:induction false} NoStepLess(cfg: Config, batch: seq<SubTask>, phase: map<string, Phase>, id: string, p: Phase)
    requires id in phase && forall t :: t in batch ==> t.id != id
    ensures BatchStepsLeft(cfg, batch, phase[id := p]) == BatchStepsLeft(cfg, batch, phase)
  {
    if batch != [] {
      assert batch[|batch| - 1] in batch;
      NoStepLess(cfg, batch[..|batch| - 1], phase, id, p);
    }
  }

  lemma {:induction false} FreshBatchSteps(cfg: Config, batch: seq<SubTask>, phase: map<string, Phase>)
    requires forall id :: id in phase ==> phase[id] == Waiting
    ensures BatchStepsLeft(cfg, batch, phase) <= |batch| * (2 * cfg.retryMax + 4)
  {
    if batch != [] {
      FreshBatchSteps(cfg, batch[..|batch| - 1], phase);
      assert |batch| * (2 * cfg.retryMax + 4) == (|batch| - 1) * (2 * cfg.retryMax + 4) + (2 * cfg.retryMax + 4);
    }
  }

  lemma EngineCallDrop(cfg: Config, s: State, t: SubTask, n: nat)
    requires t.id in s.phase && n < cfg.retryMax
    ensures var s' := EngineCall(cfg, s, t, n);
      && s'.phase == s.phase[t.id := s'.phase[t.id]]
      && StepsLeft(cfg, s'.phase[t.id]) < StepsLeft(cfg, Running(n))
  {
  }

  lemma StepsLeftDrop(cfg: Config, s: State, t: SubTask)
    requires cfg.Valid() && Enabled(cfg, s, t.id) && TaskInv(cfg, s, t)
    ensures var s' := TaskStep(cfg, s, t);
      && s'.phase == s.phase[t.id := s'.phase[t.id]]
      && StepsLeft(cfg, s'.phase[t.id]) < StepsLeft(cfg, s.phase[t.id])
  {
    match s.phase[t.id] {
      case Running(n) => EngineCallDrop(cfg, s, t, n);
      case Checking =>
        match Blocked(t.deps, s.results) {
          case Some(_) =>
          case None =>
        }
      case _ =>
    }
  }

  lemma TaskStepDecreases(cfg: Config, batches: Layers, s: State, t: SubTask)
    requires cfg.Valid() && s.batch < |batches| && t in batches[s.batch]
    requires forall j, k :: 0 <= j < k < |batches[s.batch]| ==> batches[s.batch][j].id != batches[s.batch][k].id
    requires Enabled(cfg, s, t.id) && TaskInv(cfg, s, t)
    ensures Measure(cfg, batches, TaskStep(cfg, s, t)) < Measure(cfg, batches, s)
  {
    var b := batches[s.batch];
    var i :| 0 <= i < |b| && b[i] == t;
    StepsLeftDrop(cfg, s, t);
    OneStepLess(cfg, b, s.phase, i, TaskStep(cfg, s, t).phase[t.id]);
    StepKeepsBatch(cfg, s, t);
  }

  lemma StepKeepsBatch(cfg: Config, s: State, t: SubTask)
    requires cfg.Valid() && Enabled(cfg, s, t.id)
    ensures TaskStep(cfg, s, t).batch == s.batch
  {
  }

  lemma BarrierDecreases(cfg: Config, batches: Layers, s: State)
    requires s.batch < |batches|
    ensures Measure(cfg, batches, Barrier(batches, s)) < Measure(cfg, batches, s)
  {
    if s.batch + 1 < |batches| {
      FreshBatchSteps(cfg, batches[s.batch + 1], Barrier(batches, s).phase);
    }
  }

  lemma NextDecreasesMeasure(cfg: Config, batches: Layers, s: State, s': State)
    requires cfg.Valid() && Separate(batches) && BatchInv(cfg, batches, s) && Next(cfg, batches, s, s')
    ensures Measure(cfg, batches, s') < Measure(cfg, batches, s)
  {
    if t :| t in batches[s.batch] && Enabled(cfg, s, t.id) && s' == TaskStep(cfg, s, t) {
      TaskStepDecreases(cfg, batches, s, t);
    } else {
      BarrierDecreases(cfg, batches, s);
    }
  }

  /** No execution is longer than the work that the plan contains. */
  lemma {:induction false} ExecutionsEnd(cfg: Config, tab: TaskTable, batches: Layers, run: seq<State>)
    requires cfg.Valid() && Plan(tab, batches) && Execution(cfg, batches, run)
    ensures Measure(cfg, batches, run[|run| - 1]) + |run| - 1 <= Measure(cfg, batches, Init(batches))
  {
    if |run| > 1 {
      var m := |run| - 1;
      assert Execution(cfg, batches, run[..m]);
      ExecutionsEnd(cfg, tab, batches, run[..m]);
      ReachableMeasure(cfg, tab, batches, run, m);
    }
  }

  lemma ReachableMeasure(cfg: Config, tab: TaskTable, batches: Layers, run: seq<State>, m: nat)
    requires cfg.Valid() && Plan(tab, batches) && Execution(cfg, batches, run) && 0 < m < |run|
    ensures Measure(cfg, batches, run[m]) < Measure(cfg, batches, run[m - 1])
  {
    LayeredIsSeparate(tab, batches);
    ReachableInv(cfg, batches, run, m - 1);
    NextDecreasesMeasure(cfg, batches, run[m - 1], run[m]);
  }

  // ---- What the results mean ----

  lemma {:induction false} Merged(results: Results, new_: seq<SubTaskResult>, id: string)
    requires forall i, j :: 0 <= i < j < |new_| ==> new_[i].id != new_[j].id
    ensures id in Merge(results, new_) <==> id in results || exists i :: 0 <= i < |new_| && new_[i].id == id
    ensures forall i :: 0 <= i < |new_| && new_[i].id == id ==> Merge(results, new_)[id] == new_[i]
    ensures id in results && (forall i :: 0 <= i < |new_| ==> new_[i].id != id) ==>
            Merge(results, new_)[id] == results[id]
  {
    if new_ != [] {
      Merged(results, new_[..|new_| - 1], id);
    }
  }

  lemma {:induction false} AttemptsKeepId(cfg: Config, t: SubTask, pad: seq<string>, n: nat)
    requires n < cfg.retryMax
    ensures Attempts(cfg, t, pad, n).id == t.id
    ensures Attempts(cfg, t, pad, n).error.Some? ==> Attempts(cfg, t, pad, n).error.value.EngineError?
    decreases cfg.retryMax - n
  {
    if n + 1 < cfg.retryMax {
      AttemptsKeepId(cfg, t, pad, n + 1);
    }
  }

  lemma OutcomeShape(cfg: Config, t: SubTask, results: Results)
    requires cfg.Valid()
    ensures Outcome(cfg, t, results).id == t.id
    ensures Outcome(cfg, t, results).success ==> Blocked(t.deps, results).None?
    ensures Outcome(cfg, t, results).error.Some? && !Outcome(cfg, t, results).error.value.EngineError? ==>
              Blocked(t.deps, results) == Outcome(cfg, t, results).error
  {
    AttemptsKeepId(cfg, t, Scratchpad(t.deps, results), 0);
  }

  lemma {:induction false} BlockedMeaning(deps: seq<string>, results: Results)
    ensures Blocked(deps, results).None? <==> forall d :: d in deps ==> d in results && results[d].success
    ensures (forall d :: d in deps ==> d in results) ==>
              !(Blocked(deps, results).Some? && Blocked(deps, results).value.DependencyMissing?)
  {
    if deps != [] {
      BlockedMeaning(deps[1..], results);
      assert deps == [deps[0]] + deps[1..];
    }
  }

  lemma {:induction false} OnlyDependenciesMatter(deps: seq<string>, a: Results, b: Results)
    requires forall d :: d in deps ==> d in a && d in b && a[d] == b[d]
    ensures Blocked(deps, a) == Blocked(deps, b) && Scratchpad(deps, a) == Scratchpad(deps, b)
  {
    if deps != [] {
      OnlyDependenciesMatter(deps[1..], a, b);
    }
  }

  /** One more batch adds the outcomes of that batch and changes nothing else. */
  lemma StageAdds(cfg: Config, batches: Layers, k: nat, id: string)
    requires cfg.Valid() && Separate(batches) && k < |batches|
    ensures var a, b := ResultsAfter(cfg, batches, k), ResultsAfter(cfg, batches, k + 1);
      && (id in b <==> id in a || id in Ids(batches[k]))
      && (forall t :: t in batches[k] && t.id == id ==> id in b && b[id] == Outcome(cfg, t, a))
      && (id in a && id !in Ids(batches[k]) ==> b[id] == a[id])
  {
    var a := ResultsAfter(cfg, batches, k);
    var new_ := BatchOutcome(cfg, batches[k], a);
    forall i | 0 <= i < |new_| ensures new_[i].id == batches[k][i].id {
      OutcomeShape(cfg, batches[k][i], a);
    }
    Merged(a, new_, id);
    forall i | 0 <= i < |batches[k]| && new_[i].id == id ensures id in Ids(batches[k]) {
      assert Ids(batches[k])[i] == id;
    }
    if id in Ids(batches[k]) {
      var i :| 0 <= i < |batches[k]| && Ids(batches[k])[i] == id;
      assert new_[i].id == id;
    }
  }

  lemma {:induction false} StageKeys(cfg: Config, batches: Layers, k: nat, id: string)
    requires cfg.Valid() && Separate(batches) && k <= |batches|
    ensures id in ResultsAfter(cfg, batches, k) <==> exists j :: 0 <= j < k && id in Ids(batches[j])
  {
    if k > 0 {
      StageKeys(cfg, batches, k - 1, id);
      StageAdds(cfg, batches, k - 1, id);
    }
  }

  /** A result, once there, stays. */
  lemma {:induction false} StageStable(cfg: Config, batches: Layers, j: nat, k: nat, id: string)
    requires cfg.Valid() && Separate(batches) && j <= k <= |batches| && id in ResultsAfter(cfg, batches, j)
    ensures id in ResultsAfter(cfg, batches, k) &&
            ResultsAfter(cfg, batches, k)[id] == ResultsAfter(cfg, batches, j)[id]
  {
    if j < k {
      StageStable(cfg, batches, j, k - 1, id);
      StageKeeps(cfg, batches, j, k - 1, id);
    }
  }

  lemma StageKeeps(cfg: Config, batches: Layers, j: nat, k: nat, id: string)
    requires cfg.Valid() && Separate(batches) && j <= k < |batches| && id in ResultsAfter(cfg, batches, j)
    ensures var a, b := ResultsAfter(cfg, batches, k), ResultsAfter(cfg, batches, k + 1);
      id in a ==> id in b && b[id] == a[id]
  {
    NotListedAgain(cfg, batches, j, k, id);
    StageAdds(cfg, batches, k, id);
  }

  lemma NotListedAgain(cfg: Config, batches: Layers, j: nat, k: nat, id: string)
    requires cfg.Valid() && Separate(batches) && j <= k < |batches| && id in ResultsAfter(cfg, batches, j)
    ensures id !in Ids(batches[k])
  {
    StageKeys(cfg, batches, j, id);
    var l :| 0 <= l < j && id in Ids(batches[l]);
    var i :| 0 <= i < |batches[l]| && Ids(batches[l])[i] == id;
    assert batches[l][i].id == id;
  }

  /** A dependency sits in an earlier batch. */
  lemma DependencyEarlier(tab: TaskTable, batches: Layers, k: nat, t: SubTask, d: string) returns (j: nat)
    requires Plan(tab, batches) && k < |batches| && t in batches[k] && d in t.deps
    ensures j < k && d in tab && tab[d] in batches[j]
  {
    var g := DepsOf(tab);
    assert d in g[t.id] && d in g;
    j :| 0 <= j < |batches| && tab[d] in batches[j];
    DependencyIsLower(g, t.id, d, j, k);
  }

  lemma EarlierResultsStay(cfg: Config, tab: TaskTable, batches: Layers, k: nat, t: SubTask, d: string)
    requires cfg.Valid() && Plan(tab, batches) && Separate(batches) && k < |batches| && t in batches[k] && d in t.deps
    ensures var a, b := ResultsAfter(cfg, batches, k), ResultsAfter(cfg, batches, |batches|);
      d in a && d in b && a[d] == b[d]
  {
    var j := DependencyEarlier(tab, batches, k, t, d);
    InIds(batches[j], tab[d]);
    StageKeys(cfg, batches, k, d);
    StageStable(cfg, batches, k, |batches|, d);
  }

  lemma SameDependenciesSameOutcome(cfg: Config, t: SubTask, a: Results, b: Results)
    requires cfg.Valid() && forall d :: d in t.deps ==> d in a && d in b && a[d] == b[d]
    ensures Outcome(cfg, t, a) == Outcome(cfg, t, b)
  {
    OnlyDependenciesMatter(t.deps, a, b);
  }

  lemma StageValue(cfg: Config, batches: Layers, k: nat, t: SubTask)
    requires cfg.Valid() && Separate(batches) && k < |batches| && t in batches[k]
    ensures t.id in ResultsAfter(cfg, batches, |batches|)
    ensures ResultsAfter(cfg, batches, |batches|)[t.id] == Outcome(cfg, t, ResultsAfter(cfg, batches, k))
  {
    StageAdds(cfg, batches, k, t.id);
    StageStable(cfg, batches, k + 1, |batches|, t.id);
  }

  lemma TaskSettles(cfg: Config, tab: TaskTable, batches: Layers, k: nat, t: SubTask, final: Results)
    requires cfg.Valid() && Plan(tab, batches) && Separate(batches) && k < |batches| && t in batches[k]
    requires final == ResultsAfter(cfg, batches, |batches|)
    ensures t.id in final && final[t.id] == Outcome(cfg, t, final)
  {
    var stage := ResultsAfter(cfg, batches, k);
    StageValue(cfg, batches, k, t);
    forall d | d in t.deps ensures d in stage && d in final && stage[d] == final[d] {
      EarlierResultsStay(cfg, tab, batches, k, t, d);
    }
    SameDependenciesSameOutcome(cfg, t, stage, final);
  }

  lemma PlannedIds(tab: TaskTable, batches: Layers)
    requires Plan(tab, batches)
    ensures Placed(batches) == tab.Keys
  {
    forall id ensures id in Placed(batches) <==> id in tab {
      if id in tab {
        var k :| 0 <= k < |batches| && tab[id] in batches[k];
      }
    }
  }

  /** Every task's result is its outcome given the results of the tasks it depends on. */
  ghost predicate Solves(cfg: Config, tab: TaskTable, final: Results)
    requires cfg.Valid()
  {
    final.Keys == tab.Keys && forall id {:trigger Outcome(cfg, tab[id], final)} :: id in tab ==>
      final[id] == Outcome(cfg, tab[id], final)
  }

  lemma FinalKeys(cfg: Config, tab: TaskTable, batches: Layers)
    requires cfg.Valid() && Plan(tab, batches) && Separate(batches)
    ensures ResultsAfter(cfg, batches, |batches|).Keys == tab.Keys
  {
    PlannedIds(tab, batches);
    forall id ensures id in ResultsAfter(cfg, batches, |batches|) <==> id in Placed(batches) {
      StageKeys(cfg, batches, |batches|, id);
      PlacedIffInBatch(batches, id);
      if id in Placed(batches) {
        var j: nat :| InBatch(batches, id, j);
      }
      if j :| 0 <= j < |batches| && id in Ids(batches[j]) {
        assert InBatch(batches, id, j);
      }
    }
  }

  lemma FinalResultsSolve(cfg: Config, tab: TaskTable, batches: Layers)
    requires cfg.Valid() && Plan(tab, batches)
    ensures Solves(cfg, tab, ResultsAfter(cfg, batches, |batches|))
  {
    var final := ResultsAfter(cfg, batches, |batches|);
    LayeredIsSeparate(tab, batches);
    FinalKeys(cfg, tab, batches);
    forall id | id in tab ensures final[id] == Outcome(cfg, tab[id], final) {
      var k :| 0 <= k < |batches| && tab[id] in batches[k];
      TaskSettles(cfg, tab, batches, k, tab[id], final);
    }
  }

  ghost predicate AgreeBelow(batches: Layers, a: Results, b: Results, k: nat) {
    forall j, t :: 0 <= j < k && j < |batches| && t in batches[j] ==> t.id in a && t.id in b && a[t.id] == b[t.id]
  }

  lemma AgreeOnTask(cfg: Config, tab: TaskTable, batches: Layers, a: Results, b: Results, k: nat, t: SubTask)
    requires cfg.Valid() && Plan(tab, batches) && Solves(cfg, tab, a) && Solves(cfg, tab, b)
    requires AgreeBelow(batches, a, b, k) && k < |batches| && t in batches[k]
    ensures t.id in a && t.id in b && a[t.id] == b[t.id]
  {
    forall d | d in t.deps ensures d in a && d in b && a[d] == b[d] {
      var j := DependencyEarlier(tab, batches, k, t, d);
      assert tab[d].id == d;
    }
    SameDependenciesSameOutcome(cfg, t, a, b);
  }

  lemma AgreeOnBatch(cfg: Config, tab: TaskTable, batches: Layers, a: Results, b: Results, k: nat)
    requires cfg.Valid() && Plan(tab, batches) && Solves(cfg, tab, a) && Solves(cfg, tab, b)
    requires AgreeBelow(batches, a, b, k) && k < |batches|
    ensures AgreeBelow(batches, a, b, k + 1)
  {
    forall t | t in batches[k] ensures t.id in a && t.id in b && a[t.id] == b[t.id] {
      AgreeOnTask(cfg, tab, batches, a, b, k, t);
    }
  }

  lemma {:induction false} SolutionsAgree(cfg: Config, tab: TaskTable, batches: Layers, a: Results, b: Results, k: nat)
    requires cfg.Valid() && Plan(tab, batches) && Solves(cfg, tab, a) && Solves(cfg, tab, b) && k <= |batches|
    ensures AgreeBelow(batches, a, b, k)
  {
    if k > 0 {
      SolutionsAgree(cfg, tab, batches, a, b, k - 1);
      AgreeOnBatch(cfg, tab, batches, a, b, k - 1);
    }
  }

  /** There is one solution, so the results depend on the tasks alone. */
  lemma SolutionUnique(cfg: Config, tab: TaskTable, batches: Layers, a: Results, b: Results)
    requires cfg.Valid() && Plan(tab, batches) && Solves(cfg, tab, a) && Solves(cfg, tab, b)
    ensures a == b
  {
    SolutionsAgree(cfg, tab, batches, a, b, |batches|);
    AgreeEverywhere(tab, batches, a, b);
  }

  lemma AgreeEverywhere(tab: TaskTable, batches: Layers, a: Results, b: Results)
    requires Plan(tab, batches) && AgreeBelow(batches, a, b, |batches|) && a.Keys == b.Keys == tab.Keys
    ensures a == b
  {
    forall id | id in tab ensures a[id] == b[id] {
      var j :| 0 <= j < |batches| && tab[id] in batches[j];
    }
  }

  /** The "missing result" branch is unreachable: at any time, the tasks of the current
      batch find a result for each of their dependencies. */
  lemma NoMissingResult(cfg: Config, tab: TaskTable, batches: Layers, run: seq<State>, n: nat, t: SubTask)
    requires cfg.Valid() && Plan(tab, batches) && Execution(cfg, batches, run) && n < |run|
    requires run[n].batch < |batches| && t in batches[run[n].batch]
    ensures forall d :: d in t.deps ==> d in run[n].results
    ensures var b := Blocked(t.deps, run[n].results); !(b.Some? && b.value.DependencyMissing?)
  {
    hide Execution, ResultsAfter, Blocked, Plan;
    InterleavingIsIrrelevant(cfg, tab, batches, run, n);
    forall d | d in t.deps ensures d in run[n].results {
      DependencyHasResult(cfg, tab, batches, run[n].batch, t, d);
    }
    BlockedMeaning(t.deps, run[n].results);
  }

  lemma DependencyHasResult(cfg: Config, tab: TaskTable, batches: Layers, k: nat, t: SubTask, d: string)
    requires cfg.Valid() && Plan(tab, batches) && k < |batches| && t in batches[k] && d in t.deps
    ensures d in ResultsAfter(cfg, batches, k)
  {
    hide ResultsAfter, Layered, Closed;
    LayeredIsSeparate(tab, batches);
    var j := DependencyEarlier(tab, batches, k, t, d);
    InIds(batches[j], tab[d]);
    StageKeys(cfg, batches, k, d);
  }

  /** Nor does any final result report one. */
  lemma NoMissingResultAtLast(cfg: Config, tab: TaskTable, final: Results, id: string)
    requires cfg.Valid() && Closed(DepsOf(tab)) && Solves(cfg, tab, final) && id in tab
    ensures !(final[id].error.Some? && final[id].error.value.DependencyMissing?)
  {
    OutcomeShape(cfg, tab[id], final);
    forall d | d in tab[id].deps ensures d in final {
      assert d in DepsOf(tab)[id] && d in DepsOf(tab);
    }
    BlockedMeaning(tab[id].deps, final);
  }

  /** Success of a task implies success of everything it depends on, at any distance. */
  lemma {:induction false} SuccessNeedsAllDependencies(cfg: Config, tab: TaskTable, final: Results, p: seq<string>)
    requires cfg.Valid() && Solves(cfg, tab, final) && IsChain(DepsOf(tab), p) && final[p[|p| - 1]].success
    ensures forall i :: 0 <= i < |p| ==> p[i] in final && final[p[i]].success
  {
    var m := |p| - 1;
    if m > 0 {
      DirectSuccess(cfg, tab, final, p[m], p[m - 1]);
      assert IsChain(DepsOf(tab), p[..m]);
      SuccessNeedsAllDependencies(cfg, tab, final, p[..m]);
    }
  }

  lemma DirectSuccess(cfg: Config, tab: TaskTable, final: Results, id: string, d: string)
    requires cfg.Valid() && Solves(cfg, tab, final) && id in tab && final[id].success && d in tab[id].deps
    ensures d in final && final[d].success
  {
    OutcomeShape(cfg, tab[id], final);
    BlockedMeaning(tab[id].deps, final);
  }

  ghost predicate OneResultEach(ordered: seq<SubTaskResult>, ids: set<string>, results: Results) {
    && (forall i, j :: 0 <= i < j < |ordered| ==> ordered[i].id != ordered[j].id)
    && (forall i :: 0 <= i < |ordered| ==>
        ordered[i].id in ids && ordered[i].id in results && results[ordered[i].id] == ordered[i])
    && (forall id :: id in ids ==> HasResult(ordered, id))
  }

  ghost predicate HasResult(ordered: seq<SubTaskResult>, id: string) {
    exists i :: 0 <= i < |ordered| && ordered[i].id == id
  }

  lemma OneResultEachAppend(b: seq<SubTaskResult>, ids: set<string>, old_: Results,
                            new_: seq<SubTaskResult>, newIds: seq<string>, results: Results)
    requires OneResultEach(b, ids, old_) && |newIds| == |new_|
    requires forall i :: 0 <= i < |new_| ==>
             new_[i].id == newIds[i] && newIds[i] in results && results[newIds[i]] == new_[i]
    requires forall i, j :: 0 <= i < j < |newIds| ==> newIds[i] != newIds[j]
    requires forall i :: 0 <= i < |newIds| ==> newIds[i] !in ids
    requires forall id :: id in ids && id in old_ ==> id in results && results[id] == old_[id]
    ensures OneResultEach(b + new_, ids + Elements(newIds), results)
  {
    var all := b + new_;
    forall id | id in ids ensures HasResult(all, id) {
      var i :| 0 <= i < |b| && b[i].id == id;
      assert all[i].id == id;
    }
    forall id | id in Elements(newIds) ensures HasResult(all, id) {
      var i :| 0 <= i < |newIds| && newIds[i] == id;
      assert all[|b| + i].id == id;
    }
  }

  /** What batch `k` adds, in a form ready to append. */
  lemma BatchAdds(cfg: Config, batches: Layers, k: nat)
    requires cfg.Valid() && Separate(batches) && k < |batches|
    ensures var a, next := ResultsAfter(cfg, batches, k), ResultsAfter(cfg, batches, k + 1);
      var new_, ids := BatchOutcome(cfg, batches[k], a), Ids(batches[k]);
      && (forall i :: 0 <= i < |new_| ==> new_[i].id == ids[i] && ids[i] in next && next[ids[i]] == new_[i])
      && (forall i, j :: 0 <= i < j < |ids| ==> ids[i] != ids[j])
      && (forall i :: 0 <= i < |ids| ==> ids[i] !in Placed(batches[..k]))
      && (forall id :: id in Placed(batches[..k]) && id in a ==> id in next && next[id] == a[id])
  {
    var a := ResultsAfter(cfg, batches, k);
    var b := batches[k];
    forall i | 0 <= i < |b|
      ensures Outcome(cfg, b[i], a).id == b[i].id && b[i].id in ResultsAfter(cfg, batches, k + 1)
      ensures ResultsAfter(cfg, batches, k + 1)[b[i].id] == Outcome(cfg, b[i], a)
    {
      OutcomeShape(cfg, b[i], a);
      assert b[i] in b;
      InIds(b, b[i]);
      StageAdds(cfg, batches, k, b[i].id);
    }
    forall id | id in Placed(batches[..k]) ensures id !in Ids(b) {
      PlacedIffInBatch(batches[..k], id);
      var l: nat :| InBatch(batches[..k], id, l);
    }
    forall id | id in Placed(batches[..k]) && id in a
      ensures id in ResultsAfter(cfg, batches, k + 1) && ResultsAfter(cfg, batches, k + 1)[id] == a[id]
    {
      StageAdds(cfg, batches, k, id);
    }
  }

  lemma {:induction false} OrderedIsOneEach(cfg: Config, batches: Layers, k: nat)
    requires cfg.Valid() && Separate(batches) && k <= |batches|
    ensures OneResultEach(OrderedAfter(cfg, batches, k), Placed(batches[..k]), ResultsAfter(cfg, batches, k))
  {
    if k > 0 {
      OrderedIsOneEach(cfg, batches, k - 1);
      BatchAdds(cfg, batches, k - 1);
      var a, b := ResultsAfter(cfg, batches, k - 1), batches[k - 1];
      assert batches[..k] == batches[..k - 1] + [b];
      PlacedExtends(batches[..k - 1], b);
      OneResultEachAppend(OrderedAfter(cfg, batches, k - 1), Placed(batches[..k - 1]), a,
                          BatchOutcome(cfg, b, a), Ids(b), ResultsAfter(cfg, batches, k));
    }
  }

  /** A finished execution returns exactly one result for each task: the solution above. */
  lemma FinishedExecution(cfg: Config, tab: TaskTable, batches: Layers, run: seq<State>)
    requires cfg.Valid() && Plan(tab, batches) && Execution(cfg, batches, run)
    requires run[|run| - 1].batch == |batches|
    ensures OneResultEach(run[|run| - 1].ordered, tab.Keys, run[|run| - 1].results)
    ensures Solves(cfg, tab, run[|run| - 1].results)
  {
    InterleavingIsIrrelevant(cfg, tab, batches, run, |run| - 1);
    LayeredIsSeparate(tab, batches);
    OrderedIsOneEach(cfg, batches, |batches|);
    assert batches[..|batches|] == batches;
    PlannedIds(tab, batches);
    FinalResultsSolve(cfg, tab, batches);
  }

  /** From the list of sub-tasks to the results: whatever order its batches resolve in and
      however their goroutines interleave, the finished run has one result for each task, and
      these are the solution of its equations. */
  lemma ResolvedTasksAreExecuted(cfg: Config, ts: seq<Option<SubTask>>, batches: Layers, run: seq<State>)
    requires cfg.Valid() && Resolves(ts, Success(batches)) && Declared(ts)
    requires Execution(cfg, batches, run) && run[|run| - 1].batch == |batches|
    ensures OneResultEach(run[|run| - 1].ordered, Table(ts).Keys, run[|run| - 1].results)
    ensures Solves(cfg, Table(ts), run[|run| - 1].results)
  {
    hide Plan, Execution, Resolves, OneResultEach, Solves;
    ResolvedIsPlan(ts, batches);
    FinishedExecution(cfg, Table(ts), batches, run);
  }
}
