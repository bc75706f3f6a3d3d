/** The sub-task scheduler's layering: internal/orchestrator/task/coordinator.go. */
module Dag {
  import opened Wrappers
  import opened Graphs
  import opened Strings

  datatype SubTask = SubTask(id: string, description: string, deps: seq<string>)

  datatype DagError =
    | NilTask
    | EmptyId
    | DuplicateId(id: string)
    | UnknownDependency(id: string, dep: string)
    | SelfDependency(id: string)
    | Circular

  type Layers = seq<seq<SubTask>>
  type TaskTable = map<string, SubTask>

  // ---- What the declaration of a task list promises ----

  /** The fault that the first pass reports at position `i`, given everything before it. */
  ghost function IdFault(ts: seq<Option<SubTask>>, i: nat): Option<DagError>
    requires i < |ts|
  {
    if ts[i].None? then Some(NilTask)
    else if ts[i].value.id == "" then Some(EmptyId)
    else if exists j :: 0 <= j < i && ts[j].Some? && ts[j].value.id == ts[i].value.id
      then Some(DuplicateId(ts[i].value.id))
    else None
  }

  /** No nil task, no empty ID, no ID twice. */
  ghost predicate Declared(ts: seq<Option<SubTask>>) {
    && (forall i :: 0 <= i < |ts| ==> ts[i].Some? && ts[i].value.id != "")
    && (forall i, j :: 0 <= i < j < |ts| ==> ts[i].value.id != ts[j].value.id)
  }

  ghost function Tasks(ts: seq<Option<SubTask>>): set<SubTask> {
    set o | o in ts && o.Some? :: o.value
  }

  ghost function Table(ts: seq<Option<SubTask>>): TaskTable
    requires Declared(ts)
  {
    map t | t in Tasks(ts) :: t.id := t
  }

  ghost function DepsOf(tab: TaskTable): Graph {
    map id | id in tab :: tab[id].deps
  }

  function DepFault(tab: TaskTable, t: SubTask, dep: string): Option<DagError> {
    if dep !in tab then Some(UnknownDependency(t.id, dep))
    else if dep == t.id then Some(SelfDependency(t.id))
    else None
  }

  /** The first task with a bad dependency, and the first such dependency in it. */
  ghost predicate FirstDepFault(ts: seq<Option<SubTask>>, e: DagError)
    requires Declared(ts)
  {
    exists i, j ::
      && 0 <= i < |ts| && 0 <= j < |ts[i].value.deps|
      && DepFault(Table(ts), ts[i].value, ts[i].value.deps[j]) == Some(e)
      && (forall k :: 0 <= k < j ==> DepFault(Table(ts), ts[i].value, ts[i].value.deps[k]).None?)
      && DepsFine(ts, i)
  }

  ghost predicate DepsFine(ts: seq<Option<SubTask>>, n: nat)
    requires Declared(ts) && n <= |ts|
  {
    forall i, k :: 0 <= i < n && 0 <= k < |ts[i].value.deps| ==>
      DepFault(Table(ts), ts[i].value, ts[i].value.deps[k]).None?
  }

  /** Batch `k` lists, in increasing ID order, exactly the tasks whose longest
      dependency chain has `k` edges; no task is missing and no batch is empty. */
  ghost predicate Layered(tab: TaskTable, batches: Layers) {
    && (forall k :: 0 <= k < |batches| ==> batches[k] != [] && Ascending(Ids(batches[k])))
    && (forall k, t :: 0 <= k < |batches| && t in batches[k] ==>
          t.id in tab && tab[t.id] == t && LongestChain(DepsOf(tab), t.id, k))
    && (forall id :: id in tab ==> exists k :: 0 <= k < |batches| && tab[id] in batches[k])
  }

  function Ids(b: seq<SubTask>): seq<string> {
    seq(|b|, i requires 0 <= i < |b| => b[i].id)
  }

  /** Everything `resolveExecutionBatches` promises about one call. */
  ghost predicate Resolves(ts: seq<Option<SubTask>>, r: Result<Layers, DagError>) {
    && (r.Success? <==> Declared(ts) && Closed(DepsOf(Table(ts))) && Acyclic(DepsOf(Table(ts))))
    && (r.Success? ==> Layered(Table(ts), r.value))
    && (r.Failure? && !Declared(ts) ==>
          exists i :: 0 <= i < |ts| && IdFault(ts, i) == Some(r.error) && forall j :: 0 <= j < i ==>
            IdFault(ts, j).None?)
    && (r.Failure? && Declared(ts) && !DepsFine(ts, |ts|) ==> FirstDepFault(ts, r.error))
    && (r.Failure? && Declared(ts) && DepsFine(ts, |ts|) ==> r.error == Circular)
  }

  /** Batches that a successful call returns for the table `tab`. */
  ghost predicate Plan(tab: TaskTable, batches: Layers) {
    (forall id :: id in tab ==> tab[id].id == id) && Closed(DepsOf(tab)) && Layered(tab, batches)
  }

  lemma ResolvedIsPlan(ts: seq<Option<SubTask>>, batches: Layers)
    requires Resolves(ts, Success(batches))
    ensures Plan(Table(ts), batches)
  {
  }

  // ---- Counting the dependencies that are still open ----

  /** How many entries of `deps` are not in `done`, repeated entries counted each time. */
  ghost function Open(deps: seq<string>, done: set<string>): nat {
    if deps == [] then 0 else Open(deps[1..], done) + if deps[0] in done then 0 else 1
  }

  function Count(s: seq<string>, x: string): nat {
    if s == [] then 0 else Count(s[..|s| - 1], x) + if s[|s| - 1] == x then 1 else 0
  }

  lemma CountSnoc(s: seq<string>, x: string, y: string)
    ensures Count(s + [x], y) == Count(s, y) + if x == y then 1 else 0
  {
    assert (s + [x])[..|s|] == s;
  }

  lemma {:induction false} CountPrefix(s: seq<string>, n: nat, x: string)
    requires n <= |s|
    ensures Count(s[..n], x) <= Count(s, x)
  {
    if n < |s| {
      CountPrefix(s[..|s| - 1], n, x);
      assert s[..|s| - 1][..n] == s[..n];
    } else {
      assert s[..n] == s;
    }
  }

  lemma {:induction false} OpenAppend(a: seq<string>, x: string, done: set<string>)
    ensures Open(a + [x], done) == Open(a, done) + if x in done then 0 else 1
  {
    if a == [] {
      assert [x][1..] == [];
    } else {
      OpenAppend(a[1..], x, done);
      assert (a + [x])[1..] == a[1..] + [x];
    }
  }

  lemma {:induction false} OpenAfter(deps: seq<string>, done: set<string>, id: string)
    requires id !in done
    ensures Open(deps, done) == Open(deps, done + {id}) + Count(deps, id)
  {
    if deps != [] {
      var a, x := deps[..|deps| - 1], deps[|deps| - 1];
      OpenAfter(a, done, id);
      assert deps == a + [x];
      OpenAppend(a, x, done);
      OpenAppend(a, x, done + {id});
    }
  }

  lemma {:induction false} OpenZero(deps: seq<string>, done: set<string>)
    ensures Open(deps, done) == 0 <==> forall d :: d in deps ==> d in done
  {
    if deps != [] {
      OpenZero(deps[1..], done);
      assert deps == [deps[0]] + deps[1..];
    }
  }

  lemma {:induction false} OpenNone(deps: seq<string>)
    ensures Open(deps, {}) == |deps|
  {
    if deps != [] {
      OpenNone(deps[1..]);
    }
  }

  // ---- The layers as sets ----

  ghost function Placed(batches: Layers): set<string> {
    set k, t | 0 <= k < |batches| && t in batches[k] :: t.id
  }

  ghost predicate DownClosed(tab: TaskTable, done: set<string>) {
    forall id, d :: id in done && id in tab && d in tab[id].deps ==> d in done
  }

  /** Tasks outside `done` whose dependencies are all in `done`. */
  ghost function Frontier(tab: TaskTable, done: set<string>): set<string> {
    set id | id in tab && id !in done && forall d :: d in tab[id].deps ==> d in done
  }

  /** Each batch is, in ID order, the frontier left by the batches before it. */
  ghost predicate Peeled(tab: TaskTable, batches: Layers) {
    forall k :: 0 <= k < |batches| ==>
      && batches[k] != []
      && Ascending(Ids(batches[k]))
      && (forall t :: t in batches[k] ==> t.id in tab && tab[t.id] == t)
      && (forall id :: id in Ids(batches[k]) <==> id in Frontier(tab, Placed(batches[..k])))
  }

  lemma PlacedExtends(batches: Layers, b: seq<SubTask>)
    ensures Placed(batches + [b]) == Placed(batches) + Elements(Ids(b))
  {
    var all: Layers := batches + [b];
    forall id | id in Elements(Ids(b)) ensures id in Placed(all) {
      var i :| 0 <= i < |b| && Ids(b)[i] == id;
      assert b[i] in all[|batches|];
    }
    forall id | id in Placed(batches) ensures id in Placed(all) {
      var k, t :| 0 <= k < |batches| && t in batches[k] && t.id == id;
      assert t in all[k];
    }
    forall id | id in Placed(all) ensures id in Placed(batches) + Elements(Ids(b)) {
      var k, t :| 0 <= k < |all| && t in all[k] && t.id == id;
      if k == |batches| {
        var i :| 0 <= i < |b| && b[i] == t;
        assert Ids(b)[i] == id;
      } else {
        assert t in batches[k];
      }
    }
  }

  /** The batch that holds a task. */
  ghost predicate InBatch(batches: Layers, id: string, k: nat) {
    k < |batches| && id in Ids(batches[k])
  }

  lemma PlacedIffInBatch(batches: Layers, id: string)
    ensures id in Placed(batches) <==> exists k: nat :: InBatch(batches, id, k)
  {
    if id in Placed(batches) {
      var k, t :| 0 <= k < |batches| && t in batches[k] && t.id == id;
      var i :| 0 <= i < |batches[k]| && batches[k][i] == t;
      assert Ids(batches[k])[i] == id;
      assert InBatch(batches, id, k);
    }
    if exists k: nat :: InBatch(batches, id, k) {
      var k: nat :| InBatch(batches, id, k);
      var i :| 0 <= i < |batches[k]| && Ids(batches[k])[i] == id;
      assert batches[k][i] in batches[k];
    }
  }

  lemma PlacedByLaterBatches(batches: Layers, id: string, j: nat, k: nat)
    requires k <= |batches|
    ensures j < k && InBatch(batches, id, j) ==> id in Placed(batches[..k])
  {
    if j < k && InBatch(batches, id, j) {
      assert InBatch(batches[..k], id, j);
      PlacedIffInBatch(batches[..k], id);
    }
  }

  lemma InOneBatch(tab: TaskTable, batches: Layers, id: string, j: nat, k: nat)
    requires Peeled(tab, batches) && InBatch(batches, id, j) && InBatch(batches, id, k)
    ensures j == k
  {
    PlacedByLaterBatches(batches, id, j, k);
    PlacedByLaterBatches(batches, id, k, j);
  }

  /** The number of its batch ranks each task, one above some dependency if not 0. */
  ghost predicate BatchRank(tab: TaskTable, batches: Layers, rank: map<string, nat>) {
    && rank.Keys == tab.Keys && Ranked(DepsOf(tab), rank)
    && (forall id :: id in tab ==> InBatch(batches, id, rank[id]))
    && (forall n :: n in tab && rank[n] > 0 ==> JustAbove(tab, rank, n))
  }

  ghost predicate JustAbove(tab: TaskTable, rank: map<string, nat>, n: string)
    requires n in tab && n in rank
  {
    exists d :: d in DepsOf(tab)[n] && d in DepsOf(tab) && d in rank && rank[d] + 1 == rank[n]
  }

  ghost function BatchOf(batches: Layers, id: string): nat {
    if k: nat :| InBatch(batches, id, k) then k else 0
  }

  lemma BatchOfPlaced(tab: TaskTable, batches: Layers, id: string)
    requires tab.Keys <= Placed(batches) && id in tab
    ensures InBatch(batches, id, BatchOf(batches, id))
  {
    hide InBatch, Placed;
    PlacedIffInBatch(batches, id);
  }

  lemma NextBelow(tab: TaskTable, batches: Layers, rank: map<string, nat>, n: string)
    requires Closed(DepsOf(tab)) && Peeled(tab, batches) && rank.Keys == tab.Keys && n in tab && rank[n] > 0
    requires forall id :: id in tab ==> InBatch(batches, id, rank[id])
    ensures JustAbove(tab, rank, n)
  {
    hide InBatch, Peeled, Placed;
    var d, j := DependencyJustBefore(tab, batches, n, rank[n]);
    assert d in DepsOf(tab)[n] && d in DepsOf(tab);
    InOneBatch(tab, batches, d, j, rank[d]);
  }

  lemma BatchesRank(tab: TaskTable, batches: Layers) returns (rank: map<string, nat>)
    requires Closed(DepsOf(tab)) && Peeled(tab, batches) && tab.Keys <= Placed(batches)
    ensures BatchRank(tab, batches, rank)
  {
    hide InBatch, Peeled, Placed, BatchOf, JustAbove, Closed;
    rank := map id | id in tab :: BatchOf(batches, id);
    forall id | id in tab ensures InBatch(batches, id, rank[id]) {
      BatchOfPlaced(tab, batches, id);
    }
    forall n, d | n in tab && d in tab[n].deps && d in tab ensures rank[d] < rank[n] {
      DependencyIsEarlier(tab, batches, n, d, rank[n], rank[d]);
    }
    forall n | n in tab && rank[n] > 0 ensures JustAbove(tab, rank, n) {
      NextBelow(tab, batches, rank, n);
    }
  }

  lemma RankIsLongestChain(tab: TaskTable, batches: Layers, rank: map<string, nat>, t: SubTask, k: nat)
    requires BatchRank(tab, batches, rank) && Peeled(tab, batches) && k < |batches| && t in batches[k]
    ensures t.id in tab && tab[t.id] == t && LongestChain(DepsOf(tab), t.id, k)
  {
    hide LongestChain, Ranked, Frontier, Placed;
    var i :| 0 <= i < |batches[k]| && batches[k][i] == t;
    assert Ids(batches[k])[i] == t.id;
    InOneBatch(tab, batches, t.id, k, rank[t.id]);
    TightRankIsLongestChain(DepsOf(tab), rank, t.id);
  }

  lemma TaskOfBatch(tab: TaskTable, batches: Layers, id: string, k: nat)
    requires Peeled(tab, batches) && id in tab && InBatch(batches, id, k)
    ensures k < |batches| && tab[id] in batches[k]
  {
    hide Frontier;
    var i :| 0 <= i < |batches[k]| && Ids(batches[k])[i] == id;
    assert batches[k][i] in batches[k];
  }

  lemma PeeledShape(tab: TaskTable, batches: Layers)
    requires Peeled(tab, batches)
    ensures forall k :: 0 <= k < |batches| ==> batches[k] != [] && Ascending(Ids(batches[k]))
  {
  }

  /** Peeling frontiers until everything is placed is layering by longest chain. */
  lemma PeeledIsLayered(tab: TaskTable, batches: Layers)
    requires Closed(DepsOf(tab)) && Peeled(tab, batches) && tab.Keys <= Placed(batches)
    ensures Acyclic(DepsOf(tab)) && Layered(tab, batches)
  {
    hide LongestChain, Ranked, Peeled, Placed, Acyclic, Closed, DepsOf, Ascending, Ids, InBatch;
    var rank := BatchesRank(tab, batches);
    RankedIsAcyclic(DepsOf(tab), rank);
    PeeledShape(tab, batches);
    forall k, t | 0 <= k < |batches| && t in batches[k]
      ensures t.id in tab && tab[t.id] == t && LongestChain(DepsOf(tab), t.id, k)
    {
      RankIsLongestChain(tab, batches, rank, t, k);
    }
    forall id | id in tab ensures exists k :: 0 <= k < |batches| && tab[id] in batches[k] {
      TaskOfBatch(tab, batches, id, rank[id]);
    }
  }

  lemma DependencyIsEarlier(tab: TaskTable, batches: Layers, n: string, d: string, k: nat, j: nat)
    requires Peeled(tab, batches) && n in tab && d in tab[n].deps
    requires InBatch(batches, n, k) && InBatch(batches, d, j)
    ensures j < k
  {
    assert n in Frontier(tab, Placed(batches[..k]));
    PlacedIffInBatch(batches[..k], d);
    var i: nat :| InBatch(batches[..k], d, i);
    assert InBatch(batches, d, i);
    InOneBatch(tab, batches, d, i, j);
  }

  lemma DependencyJustBefore(tab: TaskTable, batches: Layers, n: string, k: nat) returns (d: string, j: nat)
    requires Peeled(tab, batches) && InBatch(batches, n, k) && k > 0
    ensures n in tab && d in tab[n].deps && j == k - 1 && InBatch(batches, d, j)
  {
    j := k - 1;
    assert n in Frontier(tab, Placed(batches[..k]));
    assert batches[..k] == batches[..j] + [batches[j]];
    PlacedExtends(batches[..j], batches[j]);
    assert n !in Ids(batches[j]);
    assert n !in Frontier(tab, Placed(batches[..j]));
    d :| d in tab[n].deps && d !in Placed(batches[..j]);
  }

  /** When the frontier is empty, whatever is not placed is stuck in a cycle. */
  lemma EmptyFrontierHasCycle(tab: TaskTable, done: set<string>)
    requires Closed(DepsOf(tab)) && Frontier(tab, done) == {} && !(tab.Keys <= done)
    ensures !Acyclic(DepsOf(tab))
  {
    var g := DepsOf(tab);
    var r := tab.Keys - done;
    forall x | x in r ensures exists d :: d in g[x] && d in r {
      assert x !in Frontier(tab, done);
      var d :| d in tab[x].deps && d !in done;
      assert d in g[x] && d in g;
    }
    var x :| x in tab.Keys && x !in done;
    assert x in r;
    StuckSetHasCycle(g, r);
  }

  // ---- The main results about the specification ----

  /** A table has one layering only. */
  lemma LayeredUnique(tab: TaskTable, a: Layers, b: Layers)
    requires Layered(tab, a) && Layered(tab, b)
    ensures a == b
  {
    if |a| < |b| {
      LayerMatches(tab, b, a, |a|);
    }
    if |b| < |a| {
      LayerMatches(tab, a, b, |b|);
    }
    forall k | 0 <= k < |a| ensures a[k] == b[k] {
      LayerMatches(tab, a, b, k);
      LayerMatches(tab, b, a, k);
      SameMembersSameBatch(a[k], b[k]);
    }
  }

  lemma LayerMatches(tab: TaskTable, a: Layers, b: Layers, k: nat)
    requires Layered(tab, a) && Layered(tab, b) && k < |a|
    ensures k < |b| && forall t :: t in a[k] ==> t in b[k]
  {
    forall t | t in a[k] ensures k < |b| && t in b[k] {
      var j :| 0 <= j < |b| && tab[t.id] in b[j];
      LongestChainUnique(DepsOf(tab), t.id, j, k);
    }
    assert a[k][0] in a[k];
  }

  lemma SameMembersSameBatch(a: seq<SubTask>, b: seq<SubTask>)
    requires Ascending(Ids(a)) && Ascending(Ids(b))
    requires forall t :: t in a <==> t in b
    ensures a == b
  {
    forall x | x in Ids(a) ensures x in Ids(b) {
      var i :| 0 <= i < |a| && Ids(a)[i] == x;
      assert a[i] in b;
      var j :| 0 <= j < |b| && b[j] == a[i];
      assert Ids(b)[j] == x;
    }
    forall x | x in Ids(b) ensures x in Ids(a) {
      var i :| 0 <= i < |b| && Ids(b)[i] == x;
      assert b[i] in a;
      var j :| 0 <= j < |a| && a[j] == b[i];
      assert Ids(a)[j] == x;
    }
    AscendingUnique(Ids(a), Ids(b));
    forall i | 0 <= i < |a| ensures a[i] == b[i] {
      assert a[i] in b;
      var j :| 0 <= j < |b| && b[j] == a[i];
      assert Ids(b)[j] == Ids(a)[i] == Ids(b)[i];
      LessIrreflexive(Ids(b)[i]);
    }
  }

  lemma PermutationKeepsDeclared(ts: seq<Option<SubTask>>, us: seq<Option<SubTask>>)
    requires multiset(ts) == multiset(us) && Declared(ts)
    ensures Declared(us) && Table(us) == Table(ts) && Tasks(us) == Tasks(ts)
  {
    forall o ensures o in us <==> o in ts {
      assert o in multiset(us) <==> o in multiset(ts);
    }
    forall i | 0 <= i < |us| ensures us[i].Some? && us[i].value.id != "" {
      assert us[i] in us;
    }
    forall i, j | 0 <= i < j < |us| ensures us[i].value.id != us[j].value.id {
      assert us[i] in us && us[j] in us;
      Occurrences(ts, us[i]);
      if us[i] == us[j] {
        Repeated(us, i, j);
      }
    }
    assert Tasks(us) == Tasks(ts);
  }

  lemma Repeated<T>(s: seq<T>, i: nat, j: nat)
    requires i < j < |s| && s[i] == s[j]
    ensures multiset(s)[s[i]] >= 2
  {
    assert s == s[..j] + s[j..];
    assert s[i] in s[..j] && s[j] in s[j..];
  }

  lemma {:induction false} Occurrences<T>(s: seq<T>, x: T)
    requires forall i, j :: 0 <= i < j < |s| && s[i] == s[j] == x ==> false
    ensures multiset(s)[x] <= 1
  {
    if s != [] {
      assert s == s[..|s| - 1] + [s[|s| - 1]];
      Occurrences(s[..|s| - 1], x);
      if s[|s| - 1] == x {
        assert x !in s[..|s| - 1];
      }
    }
  }

  /** The pass that reports an error. */
  datatype Pass = Declaring | Linking | ByCycle

  function PassOf(e: DagError): Pass {
    match e
    case UnknownDependency(_, _) => Linking
    case SelfDependency(_) => Linking
    case Circular => ByCycle
    case _ => Declaring
  }

  lemma PassMeans(ts: seq<Option<SubTask>>, r: Result<Layers, DagError>)
    requires Resolves(ts, r) && r.Failure?
    ensures PassOf(r.error) ==
            if !Declared(ts) then Declaring else if !DepsFine(ts, |ts|) then Linking else ByCycle
  {
    hide Layered, Acyclic, Closed, Table, Declared, DepsFine;
  }

  /** Listing the same sub-tasks in another order changes neither success nor the batches,
      nor the pass that fails. */
  lemma OrderOfTasksIsIrrelevant(ts: seq<Option<SubTask>>, us: seq<Option<SubTask>>,
                                 r: Result<Layers, DagError>, q: Result<Layers, DagError>)
    requires multiset(ts) == multiset(us) && Resolves(ts, r) && Resolves(us, q)
    ensures r.Success? <==> q.Success?
    ensures r.Success? ==> r == q
    ensures r.Failure? ==> PassOf(r.error) == PassOf(q.error)
  {
    hide Layered, Acyclic, Closed, Table, Tasks, DepsOf, Declared, DepsFine, FirstDepFault, IdFault;
    if r.Failure? {
      PassMeans(ts, r);
    }
    if q.Failure? {
      PassMeans(us, q);
    }
    if Declared(ts) {
      PermutationKeepsDeclared(ts, us);
      DepsFineIffClosed(ts);
      DepsFineIffClosed(us);
    }
    if Declared(us) {
      PermutationKeepsDeclared(us, ts);
    }
    if r.Success? {
      LayeredUnique(Table(ts), r.value, q.value);
    }
  }

  lemma CircularMeans(ts: seq<Option<SubTask>>, r: Result<Layers, DagError>)
    requires Resolves(ts, r)
    ensures r == Failure(Circular) <==> Declared(ts) && DepsFine(ts, |ts|) && !Acyclic(DepsOf(Table(ts)))
  {
    if Declared(ts) {
      DepsFineIffClosed(ts);
    }
  }

  /** Nothing to report in the second pass is: every dependency is known and none is its own. */
  lemma DepsFineIffClosed(ts: seq<Option<SubTask>>)
    requires Declared(ts)
    ensures DepsFine(ts, |ts|) <==>
              Closed(DepsOf(Table(ts))) && forall t :: t in Tasks(ts) ==> t.id !in t.deps
  {
    var tab := Table(ts);
    if DepsFine(ts, |ts|) {
      forall n, d | n in tab && d in tab[n].deps ensures d in tab && d != n {
        var i :| 0 <= i < |ts| && ts[i] == Some(tab[n]);
        var k :| 0 <= k < |ts[i].value.deps| && ts[i].value.deps[k] == d;
      }
      forall t | t in Tasks(ts) ensures t.id !in t.deps {
        assert tab[t.id] == t;
      }
    }
    if Closed(DepsOf(tab)) && forall t :: t in Tasks(ts) ==> t.id !in t.deps {
      forall i, k | 0 <= i < |ts| && 0 <= k < |ts[i].value.deps|
        ensures DepFault(tab, ts[i].value, ts[i].value.deps[k]).None?
      {
        var t := ts[i].value;
        assert ts[i] in ts && t in Tasks(ts);
        assert tab[t.id] == t && t.deps[k] in t.deps;
        assert t.deps[k] in DepsOf(tab)[t.id] && t.deps[k] in DepsOf(tab);
      }
    }
  }

  // ---- resolveExecutionBatches ----

  method ResolveExecutionBatches(subTasks: seq<Option<SubTask>>) returns (r: Result<Layers, DagError>)
    ensures Resolves(subTasks, r)
  {
    var taskByID: TaskTable, fault := CollectTasks(subTasks);
    if fault.Some? {
      return Failure(fault.value);
    }
    var inDegree, dependents;
    inDegree, dependents, fault := CountDependencies(subTasks, taskByID);
    DepsFineIffClosed(subTasks);
    if fault.Some? {
      SelfDependencyIsCycle(subTasks);
      return Failure(fault.value);
    }
    r := PeelBatches(taskByID, inDegree, dependents);
  }

  lemma SelfDependencyIsCycle(ts: seq<Option<SubTask>>)
    requires Declared(ts)
    ensures Acyclic(DepsOf(Table(ts))) ==> forall t :: t in Tasks(ts) ==> t.id !in t.deps
  {
    var g := DepsOf(Table(ts));
    forall t | t in Tasks(ts) && t.id in t.deps ensures !Acyclic(g) {
      assert Table(ts)[t.id] == t;
      assert IsChain(g, [t.id, t.id]);
    }
  }

  /** First pass: every task present, named and unique. */
  method CollectTasks(subTasks: seq<Option<SubTask>>) returns (taskByID: TaskTable, fault: Option<DagError>)
    ensures fault.None? <==> Declared(subTasks)
    ensures fault.None? ==> taskByID == Table(subTasks)
    ensures fault.Some? ==> exists i :: 0 <= i < |subTasks| && IdFault(subTasks, i) == fault &&
                                        forall j :: 0 <= j < i ==> IdFault(subTasks, j).None?
  {
    hide Table, Tasks, Declared;
    taskByID, fault := map[], None;
    var n := 0;
    NothingDeclared();
    assert subTasks[..0] == [];
    while n < |subTasks|
      invariant 0 <= n <= |subTasks| && fault.None?
      invariant Declared(subTasks[..n]) && taskByID == Table(subTasks[..n])
      invariant forall j :: 0 <= j < n ==> IdFault(subTasks, j).None?
    {
      var entry := subTasks[n];
      TableExtends(subTasks, n);
      if entry.None? {
        assert IdFault(subTasks, n) == Some(NilTask);
        return taskByID, Some(NilTask);
      }
      var task := entry.value;
      if task.id == "" {
        assert IdFault(subTasks, n) == Some(EmptyId);
        return taskByID, Some(EmptyId);
      }
      if task.id in taskByID {
        assert IdFault(subTasks, n) == Some(DuplicateId(task.id));
        return taskByID, Some(DuplicateId(task.id));
      }
      taskByID := taskByID[task.id := task];
      n := n + 1;
    }
    assert subTasks[..n] == subTasks;
  }

  lemma NothingDeclared()
    ensures Declared([]) && Table([]) == map[]
  {
    assert Tasks([]) == {};
  }

  lemma TableExtends(ts: seq<Option<SubTask>>, n: nat)
    requires n < |ts| && Declared(ts[..n])
    ensures ts[n].Some? ==>
              (ts[n].value.id in Table(ts[..n]) <==>
               exists j :: 0 <= j < n && ts[j].Some? && ts[j].value.id == ts[n].value.id)
    ensures Declared(ts[..n + 1]) <==> ts[n].Some? && ts[n].value.id != "" && ts[n].value.id !in Table(ts[..n])
    ensures Declared(ts[..n + 1]) ==> Table(ts[..n + 1]) == Table(ts[..n])[ts[n].value.id := ts[n].value]
    ensures !Declared(ts[..n + 1]) ==> !Declared(ts)
  {
    hide Table;
    var a, b := ts[..n], ts[..n + 1];
    assert forall j :: 0 <= j < n ==> a[j] == ts[j];
    assert forall j :: 0 <= j <= n ==> b[j] == ts[j];
    if ts[n].Some? {
      InTable(a, ts[n].value.id);
      if Declared(b) {
        TableSnoc(a, ts[n].value);
        assert b == a + [ts[n]];
      }
    }
  }

  lemma InTable(ts: seq<Option<SubTask>>, id: string)
    requires Declared(ts)
    ensures id in Table(ts) <==> exists j :: 0 <= j < |ts| && ts[j].value.id == id
  {
    if j :| 0 <= j < |ts| && ts[j].value.id == id {
      assert ts[j] in ts && ts[j].value in Tasks(ts);
    }
    if id in Table(ts) {
      var t := Table(ts)[id];
      assert t in Tasks(ts) && t.id == id;
      var j :| 0 <= j < |ts| && ts[j] == Some(t);
    }
  }

  lemma TableSnoc(ts: seq<Option<SubTask>>, t: SubTask)
    requires Declared(ts) && Declared(ts + [Some(t)])
    ensures Table(ts + [Some(t)]) == Table(ts)[t.id := t]
  {
    assert Tasks(ts + [Some(t)]) == Tasks(ts) + {t};
    var more := ts + [Some(t)];
    assert more[|ts|] == Some(t);
    forall u | u in Tasks(ts) ensures u.id != t.id {
      var j :| 0 <= j < |ts| && ts[j] == Some(u);
      assert more[j] == ts[j];
    }
  }

  /** Second pass: the in-degrees and, for each task, the tasks waiting for it,
      with one entry per listed dependency. */
  ghost predicate Counted(tab: TaskTable, done: set<string>, inDegree: map<string, int>) {
    inDegree.Keys == tab.Keys && forall id :: id in tab ==> inDegree[id] == Open(tab[id].deps, done)
  }

  ghost predicate Linked(tab: TaskTable, dependents: map<string, seq<string>>) {
    && dependents.Keys == tab.Keys
    && (forall d {:trigger Elements(dependents[d])} :: d in tab ==> Elements(dependents[d]) <= tab.Keys)
    && SameCounts(tab.Keys, DepsOf(tab), dependents)
  }

  method CountDependencies(subTasks: seq<Option<SubTask>>, taskByID: TaskTable)
    returns (inDegree: map<string, int>, dependents: map<string, seq<string>>, fault: Option<DagError>)
    requires Declared(subTasks) && taskByID == Table(subTasks)
    ensures fault.None? <==> DepsFine(subTasks, |subTasks|)
    ensures fault.None? ==> Counted(taskByID, {}, inDegree) && Linked(taskByID, dependents)
    ensures fault.Some? ==> FirstDepFault(subTasks, fault.value)
  {
    hide Tallied, SeenUpTo, Table, DepFault, Counted, Linked;
    inDegree := map id | id in taskByID :: 0;
    dependents := map id | id in taskByID :: [];
    fault := None;
    ghost var seen: map<string, seq<string>> := map id | id in taskByID :: [];
    SeenNothing(subTasks, taskByID, seen);
    TalliedNothing(taskByID, seen, inDegree, dependents);
    var n := 0;
    while n < |subTasks|
      invariant 0 <= n <= |subTasks| && fault.None? && DepsFine(subTasks, n)
      invariant Tallied(taskByID, seen, inDegree, dependents)
      invariant SeenUpTo(subTasks, taskByID, seen, n)
    {
      var task := subTasks[n].value;
      SeenHere(subTasks, taskByID, seen, n);
      inDegree, dependents, fault := TallyTask(taskByID, seen, task, inDegree, dependents);
      DepsFineStep(subTasks, n);
      if fault.Some? {
        return;
      }
      SeenOneMore(subTasks, taskByID, seen, n);
      seen := seen[task.id := task.deps];
      n := n + 1;
    }
    SeenEverything(subTasks, taskByID, seen);
    TalliedEverything(taskByID, inDegree, dependents);
  }

  lemma TalliedNothing(tab: TaskTable, seen: map<string, seq<string>>, inDegree: map<string, int>,
                       dependents: map<string, seq<string>>)
    requires seen.Keys == inDegree.Keys == dependents.Keys == tab.Keys
    requires forall id :: id in tab ==> seen[id] == [] && inDegree[id] == 0 && dependents[id] == []
    ensures Tallied(tab, seen, inDegree, dependents)
  {
  }

  lemma TalliedEverything(tab: TaskTable, inDegree: map<string, int>, dependents: map<string, seq<string>>)
    requires Tallied(tab, DepsOf(tab), inDegree, dependents)
    ensures Counted(tab, {}, inDegree) && Linked(tab, dependents)
  {
    hide SameCounts;
    forall id | id in tab ensures inDegree[id] == Open(tab[id].deps, {}) {
      OpenNone(tab[id].deps);
    }
  }

  lemma SeenHere(ts: seq<Option<SubTask>>, tab: TaskTable, seen: Graph, n: nat)
    requires Declared(ts) && SeenUpTo(ts, tab, seen, n) && n < |ts|
    ensures var t := ts[n].value; t.id in tab && tab[t.id] == t && t.id in seen && seen[t.id] == []
  {
  }

  ghost predicate SeenUpTo(ts: seq<Option<SubTask>>, tab: TaskTable, seen: Graph, n: nat)
    requires Declared(ts)
  {
    && seen.Keys == tab.Keys
    && forall i :: 0 <= i < |ts| ==>
         var t := ts[i].value; t.id in tab && tab[t.id] == t && seen[t.id] == if i < n then t.deps else []
  }

  lemma SeenNothing(ts: seq<Option<SubTask>>, tab: TaskTable, seen: Graph)
    requires Declared(ts) && tab == Table(ts) && seen.Keys == tab.Keys
    requires forall id :: id in seen ==> seen[id] == []
    ensures SeenUpTo(ts, tab, seen, 0)
  {
    forall i | 0 <= i < |ts| ensures ts[i].value.id in tab && tab[ts[i].value.id] == ts[i].value {
      assert ts[i] in ts && ts[i].value in Tasks(ts);
    }
  }

  lemma SeenOneMore(ts: seq<Option<SubTask>>, tab: TaskTable, seen: Graph, n: nat)
    requires Declared(ts) && n < |ts| && SeenUpTo(ts, tab, seen, n)
    ensures SeenUpTo(ts, tab, seen[ts[n].value.id := ts[n].value.deps], n + 1)
  {
  }

  lemma DepsFineStep(ts: seq<Option<SubTask>>, n: nat)
    requires Declared(ts) && n < |ts|
    ensures DepsFine(ts, n + 1) <==>
              DepsFine(ts, n) && forall k :: 0 <= k < |ts[n].value.deps| ==>
                DepFault(Table(ts), ts[n].value, ts[n].value.deps[k]).None?
    ensures DepsFine(ts, |ts|) ==> DepsFine(ts, n + 1)
  {
  }

  lemma SeenEverything(ts: seq<Option<SubTask>>, tab: TaskTable, seen: Graph)
    requires Declared(ts) && tab == Table(ts) && SeenUpTo(ts, tab, seen, |ts|)
    ensures seen == DepsOf(tab)
  {
    forall id | id in tab ensures seen[id] == tab[id].deps {
      assert tab[id] in Tasks(ts);
      var i :| 0 <= i < |ts| && ts[i] == Some(tab[id]);
    }
  }

  /** `seen[id]` is the part of the dependency list of `id` already tallied. */
  ghost predicate Tallied(tab: TaskTable, seen: map<string, seq<string>>,
                          inDegree: map<string, int>, dependents: map<string, seq<string>>) {
    && seen.Keys == tab.Keys && inDegree.Keys == tab.Keys && dependents.Keys == tab.Keys
    && (forall id :: id in tab ==> inDegree[id] == |seen[id]|)
    && (forall d {:trigger Elements(dependents[d])} :: d in tab ==> Elements(dependents[d]) <= tab.Keys)
    && SameCounts(tab.Keys, seen, dependents)
  }

  /** Transposing: `id` waits for `d` as often as it lists `d`. */
  ghost predicate SameCounts(keys: set<string>, lists: Graph, dependents: map<string, seq<string>>)
    requires keys == lists.Keys == dependents.Keys
  {
    forall d, id {:trigger Count(dependents[d], id)} {:trigger Count(lists[id], d)} ::
      d in keys && id in keys ==> Count(dependents[d], id) == Count(lists[id], d)
  }

  lemma SameCountsStep(keys: set<string>, lists: Graph, dependents: map<string, seq<string>>, id: string, dep: string)
    requires keys == lists.Keys == dependents.Keys && id in keys && dep in keys
    requires SameCounts(keys, lists, dependents)
    ensures SameCounts(keys, lists[id := lists[id] + [dep]], dependents[dep := dependents[dep] + [id]])
  {
    var lists', dependents' := lists[id := lists[id] + [dep]], dependents[dep := dependents[dep] + [id]];
    forall d, t | d in keys && t in keys ensures Count(dependents'[d], t) == Count(lists'[t], d) {
      CountSnoc(lists[id], dep, d);
      CountSnoc(dependents[dep], id, t);
      assert Count(dependents[d], t) == Count(lists[t], d);
    }
  }

  method TallyTask(tab: TaskTable, ghost seen: map<string, seq<string>>, task: SubTask,
                   inDegree0: map<string, int>, dependents0: map<string, seq<string>>)
    returns (inDegree: map<string, int>, dependents: map<string, seq<string>>, fault: Option<DagError>)
    requires task.id in tab && tab[task.id] == task
    requires Tallied(tab, seen, inDegree0, dependents0) && seen[task.id] == []
    ensures fault.None? <==> forall k :: 0 <= k < |task.deps| ==> DepFault(tab, task, task.deps[k]).None?
    ensures fault.None? ==> Tallied(tab, seen[task.id := task.deps], inDegree, dependents)
    ensures fault.Some? ==> exists j :: 0 <= j < |task.deps| && DepFault(tab, task, task.deps[j]) == fault &&
                                        forall k :: 0 <= k < j ==> DepFault(tab, task, task.deps[k]).None?
  {
    hide Tallied;
    inDegree, dependents, fault := inDegree0, dependents0, None;
    var j := 0;
    TallyDomain(tab, seen, inDegree, dependents);
    assert seen[task.id := task.deps[..0]] == seen;
    while j < |task.deps|
      invariant 0 <= j <= |task.deps| && fault.None?
      invariant forall k :: 0 <= k < j ==> DepFault(tab, task, task.deps[k]).None?
      invariant Tallied(tab, seen[task.id := task.deps[..j]], inDegree, dependents)
    {
      var depID := task.deps[j];
      if depID !in tab {
        return inDegree, dependents, Some(UnknownDependency(task.id, depID));
      }
      if depID == task.id {
        return inDegree, dependents, Some(SelfDependency(task.id));
      }
      TallyDomain(tab, seen[task.id := task.deps[..j]], inDegree, dependents);
      TallyOne(tab, seen[task.id := task.deps[..j]], inDegree, dependents, task.id, depID);
      inDegree := inDegree[task.id := inDegree[task.id] + 1];
      dependents := dependents[depID := dependents[depID] + [task.id]];
      assert task.deps[..j + 1] == task.deps[..j] + [depID];
      assert seen[task.id := task.deps[..j]][task.id := task.deps[..j + 1]] == seen[task.id := task.deps[..j + 1]];
      j := j + 1;
    }
    assert task.deps[..j] == task.deps;
  }

  lemma TallyDomain(tab: TaskTable, seen: map<string, seq<string>>, inDegree: map<string, int>,
                    dependents: map<string, seq<string>>)
    requires Tallied(tab, seen, inDegree, dependents)
    ensures seen.Keys == inDegree.Keys == dependents.Keys == tab.Keys
  {
  }

  lemma TallyOne(tab: TaskTable, seen: map<string, seq<string>>, inDegree: map<string, int>,
                 dependents: map<string, seq<string>>, id: string, dep: string)
    requires Tallied(tab, seen, inDegree, dependents) && id in tab && dep in tab
    ensures Tallied(tab, seen[id := seen[id] + [dep]], inDegree[id := inDegree[id] + 1],
                    dependents[dep := dependents[dep] + [id]])
  {
    SameCountsStep(tab.Keys, seen, dependents, id, dep);
    assert Elements(dependents[dep] + [id]) == Elements(dependents[dep]) + {id};
  }

  function Lookup(tab: TaskTable, ids: seq<string>): seq<SubTask>
    requires forall id :: id in ids ==> id in tab
  {
    seq(|ids|, i requires 0 <= i < |ids| => tab[ids[i]])
  }

  lemma LookupBatch(tab: TaskTable, done: set<string>, ids: seq<string>)
    requires forall id :: id in tab ==> tab[id].id == id
    requires Elements(ids) == Frontier(tab, done)
    ensures forall id :: id in ids ==> id in tab
    ensures Ids(Lookup(tab, ids)) == ids
    ensures forall t :: t in Lookup(tab, ids) ==> t.id in tab && tab[t.id] == t
    ensures forall id :: id in ids <==> id in Frontier(tab, done)
  {
    forall id ensures id in ids <==> id in Elements(ids) {
    }
  }

  /** Third pass: peel off, batch by batch, the tasks with no open dependency. */
  method PeelBatches(taskByID: TaskTable, inDegree0: map<string, int>, dependents: map<string, seq<string>>)
    returns (r: Result<Layers, DagError>)
    requires forall id :: id in taskByID ==> taskByID[id].id == id
    requires Closed(DepsOf(taskByID)) && Counted(taskByID, {}, inDegree0) && Linked(taskByID, dependents)
    ensures r.Success? <==> Acyclic(DepsOf(taskByID))
    ensures r.Success? ==> Layered(taskByID, r.value)
    ensures r.Failure? ==> r.error == Circular
  {
    var inDegree := inDegree0;
    var ready := SortedKeys(set id | id in inDegree && inDegree[id] == 0);
    var processed := 0;
    var batches: Layers := [];
    PeelingStarts(taskByID, inDegree, ready);
    while ready != []
      invariant Peeling(taskByID, batches, processed, inDegree, ready)
      decreases |taskByID| - processed
    {
      batches, processed, inDegree, ready := PeelOne(taskByID, batches, processed, inDegree, ready, dependents);
    }
    PeelingEnds(taskByID, batches, processed, inDegree);
    if processed != |taskByID| {
      return Failure(Circular);
    }
    return Success(batches);
  }

  /** One turn of the loop: the ready tasks become a batch. */
  method PeelOne(tab: TaskTable, batches0: Layers, processed0: nat, inDegree0: map<string, int>,
                 currentIDs: seq<string>,
                 dependents: map<string, seq<string>>)
    returns (batches: Layers, processed: nat, inDegree: map<string, int>, ready: seq<string>)
    requires forall id :: id in tab ==> tab[id].id == id
    requires Linked(tab, dependents) && currentIDs != []
    requires Peeling(tab, batches0, processed0, inDegree0, currentIDs)
    ensures Peeling(tab, batches, processed, inDegree, ready)
    ensures processed0 < processed <= |tab|
  {
    PeelingStep(tab, batches0, processed0, inDegree0, currentIDs);
    batches := batches0 + [Lookup(tab, currentIDs)];
    processed := processed0 + |currentIDs|;
    var next;
    inDegree, next := ReleaseDependents(tab, Placed(batches0), currentIDs, inDegree0, dependents);
    ready := SortedKeys(next);
    PeelingKept(tab, batches0, processed0, inDegree0, currentIDs, inDegree, next, ready);
  }

  lemma PeelingKept(tab: TaskTable, batches: Layers, processed: nat, inDegree0: map<string, int>,
                    currentIDs: seq<string>,
                    inDegree: map<string, int>, next: set<string>, ready: seq<string>)
    requires forall id :: id in tab ==> tab[id].id == id
    requires Peeling(tab, batches, processed, inDegree0, currentIDs) && currentIDs != []
    requires forall id :: id in currentIDs ==> id in tab
    requires Counted(tab, Placed(batches) + Elements(currentIDs), inDegree)
    requires next <= tab.Keys && next !! Placed(batches) + Elements(currentIDs)
    requires forall id :: id in tab ==>
      (inDegree[id] == 0 <==> id in Placed(batches) + Elements(currentIDs) || id in next)
    requires Ascending(ready) && forall id :: id in ready <==> id in next
    ensures Peeling(tab, batches + [Lookup(tab, currentIDs)], processed + |currentIDs|, inDegree, ready)
  {
    hide Peeled, Ascending, Counted, Placed, Frontier, Lookup, DownClosed;
    PeelingStep(tab, batches, processed, inDegree0, currentIDs);
    NextFrontier(tab, Placed(batches), Elements(currentIDs), inDegree, next);
    assert Elements(ready) == next;
  }

  /** What the loop keeps: the batches so far are peeled frontiers, the in-degrees
      count what is still open, and `ready` is the next frontier. */
  ghost predicate Peeling(tab: TaskTable, batches: Layers, processed: nat, inDegree: map<string, int>,
                          ready: seq<string>) {
    var done := Placed(batches);
    && Peeled(tab, batches) && done <= tab.Keys && processed == |done| && DownClosed(tab, done)
    && Counted(tab, done, inDegree) && Ascending(ready) && Elements(ready) == Frontier(tab, done)
  }

  lemma PeelingStarts(tab: TaskTable, inDegree: map<string, int>, ready: seq<string>)
    requires Counted(tab, {}, inDegree) && Ascending(ready)
    requires forall id :: id in ready <==> id in inDegree && inDegree[id] == 0
    ensures Peeling(tab, [], 0, inDegree, ready)
  {
    ZeroDegree(tab, {}, inDegree);
    assert Placed([]) == {};
    forall id ensures id in Elements(ready) <==> id in Frontier(tab, {}) {
    }
  }

  lemma PeelingStep(tab: TaskTable, batches: Layers, processed: nat, inDegree: map<string, int>, ready: seq<string>)
    requires forall id :: id in tab ==> tab[id].id == id
    requires Peeling(tab, batches, processed, inDegree, ready) && ready != []
    ensures forall id :: id in ready ==> id in tab
    ensures Peeled(tab, batches + [Lookup(tab, ready)])
    ensures Placed(batches + [Lookup(tab, ready)]) == Placed(batches) + Elements(ready)
    ensures Placed(batches) + Elements(ready) <= tab.Keys
    ensures |Placed(batches) + Elements(ready)| == processed + |ready| <= |tab|
    ensures Elements(ready) !! Placed(batches)
    ensures forall id :: id in tab ==> (inDegree[id] == 0 <==> id in Placed(batches) + Elements(ready))
  {
    ZeroDegree(tab, Placed(batches), inDegree);
    var done := Placed(batches);
    LookupBatch(tab, done, ready);
    var b := Lookup(tab, ready);
    PeeledExtends(tab, batches, b);
    PlacedExtends(batches, b);
    DistinctWhenAscending(ready);
    assert done !! Elements(ready);
    SubsetSize(done + Elements(ready), tab.Keys);
  }

  lemma PeelingEnds(tab: TaskTable, batches: Layers, processed: nat, inDegree: map<string, int>)
    requires Closed(DepsOf(tab)) && Peeling(tab, batches, processed, inDegree, [])
    ensures processed == |tab| <==> Acyclic(DepsOf(tab))
    ensures processed == |tab| ==> Layered(tab, batches)
  {
    var done := Placed(batches);
    SubsetOfSameSize(done, tab.Keys);
    assert Elements([]) == {};
    if tab.Keys <= done {
      PeeledIsLayered(tab, batches);
    } else {
      EmptyFrontierHasCycle(tab, done);
    }
  }

  /** The inner loops: each dependent of the batch loses one open dependency per
      listed entry; the ones that reach zero form the next batch. */
  method ReleaseDependents(tab: TaskTable, ghost done: set<string>, currentIDs: seq<string>,
                           inDegree0: map<string, int>,
                           dependents: map<string, seq<string>>)
    returns (inDegree: map<string, int>, next: set<string>)
    requires Ascending(currentIDs) && Elements(currentIDs) <= tab.Keys && Elements(currentIDs) !! done
    requires Counted(tab, done, inDegree0) && Linked(tab, dependents)
    requires forall id :: id in tab ==> (inDegree0[id] == 0 <==> id in done + Elements(currentIDs))
    ensures Counted(tab, done + Elements(currentIDs), inDegree)
    ensures next <= tab.Keys && next !! done + Elements(currentIDs)
    ensures forall id :: id in tab ==> (inDegree[id] == 0 <==> id in done + Elements(currentIDs) || id in next)
  {
    hide Ascending, Count, Open, SameCounts;
    inDegree, next := inDegree0, {};
    ghost var settled := done + Elements(currentIDs);
    var n := 0;
    assert done + Elements(currentIDs[..0]) == done;
    while n < |currentIDs|
      invariant 0 <= n <= |currentIDs| && next <= tab.Keys && next !! settled
      invariant Counted(tab, done + Elements(currentIDs[..n]), inDegree)
      invariant forall id :: id in tab ==> (inDegree[id] == 0 <==> id in settled || id in next)
    {
      var id := currentIDs[n];
      ghost var now := done + Elements(currentIDs[..n]);
      NextElement(currentIDs, n);
      OpenAfterAll(tab, now, id, dependents);
      inDegree, next := ReleaseOne(tab, now, settled, id, inDegree, next, dependents[id]);
      assert now + {id} == done + Elements(currentIDs[..n + 1]);
      n := n + 1;
    }
    assert currentIDs[..n] == currentIDs;
  }

  lemma NextFrontier(tab: TaskTable, done: set<string>, ready: set<string>, inDegree: map<string, int>,
                     next: set<string>)
    requires DownClosed(tab, done) && ready == Frontier(tab, done) && Counted(tab, done + ready, inDegree)
    requires next <= tab.Keys && next !! done + ready
    requires forall id :: id in tab ==> (inDegree[id] == 0 <==> id in done + ready || id in next)
    ensures DownClosed(tab, done + ready) && next == Frontier(tab, done + ready)
  {
    ZeroDegree(tab, done + ready, inDegree);
  }

  lemma NextElement(s: seq<string>, n: nat)
    requires Ascending(s) && n < |s|
    ensures Elements(s[..n + 1]) == Elements(s[..n]) + {s[n]}
    ensures s[n] in Elements(s) && s[n] !in Elements(s[..n])
  {
    assert s[..n + 1] == s[..n] + [s[n]];
    LessIrreflexive(s[n]);
  }

  method ReleaseOne(tab: TaskTable, ghost now: set<string>, ghost settled: set<string>, ghost id: string,
                    inDegree0: map<string, int>, next0: set<string>, waiting: seq<string>)
    returns (inDegree: map<string, int>, next: set<string>)
    requires Counted(tab, now, inDegree0)
    requires Elements(waiting) <= tab.Keys
    requires forall t :: t in tab ==> Open(tab[t].deps, now) == Open(tab[t].deps, now + {id}) + Count(waiting, t)
    requires next0 <= tab.Keys && next0 !! settled
    requires forall t :: t in tab ==> (inDegree0[t] == 0 <==> t in settled || t in next0)
    ensures Counted(tab, now + {id}, inDegree)
    ensures next <= tab.Keys && next !! settled
    ensures forall t :: t in tab ==> (inDegree[t] == 0 <==> t in settled || t in next)
  {
    hide Open;
    inDegree, next := inDegree0, next0;
    var j := 0;
    while j < |waiting|
      invariant 0 <= j <= |waiting| && next <= tab.Keys && next !! settled
      invariant inDegree.Keys == tab.Keys
      invariant forall t :: t in tab ==> inDegree[t] == Open(tab[t].deps, now) - Count(waiting[..j], t)
      invariant forall t :: t in tab ==> (inDegree[t] == 0 <==> t in settled || t in next)
    {
      var depID := waiting[j];
      assert depID in Elements(waiting);
      assert waiting[..j + 1] == waiting[..j] + [depID];
      forall t | t in tab ensures Count(waiting[..j + 1], t) == Count(waiting[..j], t) + if t == depID then 1 else 0 {
        CountSnoc(waiting[..j], depID, t);
      }
      CountPrefix(waiting, j + 1, depID);
      inDegree := inDegree[depID := inDegree[depID] - 1];
      if inDegree[depID] == 0 {
        next := next + {depID};
      }
      j := j + 1;
    }
    assert waiting[..j] == waiting;
  }

  lemma OpenAfterAll(tab: TaskTable, now: set<string>, id: string, dependents: map<string, seq<string>>)
    requires Linked(tab, dependents) && id in tab && id !in now
    ensures forall t :: t in tab ==>
      Open(tab[t].deps, now) == Open(tab[t].deps, now + {id}) + Count(dependents[id], t)
  {
    forall t | t in tab ensures Open(tab[t].deps, now) == Open(tab[t].deps, now + {id}) + Count(dependents[id], t) {
      OpenAfter(tab[t].deps, now, id);
      assert DepsOf(tab)[t] == tab[t].deps;
    }
  }

  /** A task has in-degree zero exactly when it is done or next in line. */
  lemma ZeroDegree(tab: TaskTable, done: set<string>, inDegree: map<string, int>)
    requires Counted(tab, done, inDegree) && DownClosed(tab, done)
    ensures forall id :: id in tab ==> (inDegree[id] == 0 <==> id in done || id in Frontier(tab, done))
  {
    forall id | id in tab ensures inDegree[id] == 0 <==> id in done || id in Frontier(tab, done) {
      OpenZero(tab[id].deps, done);
    }
  }

  lemma PeeledExtends(tab: TaskTable, batches: Layers, b: seq<SubTask>)
    requires Peeled(tab, batches) && b != [] && Ascending(Ids(b))
    requires forall t :: t in b ==> t.id in tab && tab[t.id] == t
    requires forall id :: id in Ids(b) <==> id in Frontier(tab, Placed(batches))
    ensures Peeled(tab, batches + [b])
  {
    var all := batches + [b];
    forall k | 0 <= k < |all| ensures all[..k] == batches[..k] {
    }
    assert batches[..|batches|] == batches;
  }

  lemma DistinctWhenAscending(s: seq<string>)
    requires Ascending(s)
    ensures |Elements(s)| == |s|
  {
    forall i, j | 0 <= i < j < |s| ensures s[i] != s[j] {
      LessIrreflexive(s[i]);
    }
    DistinctElements(s);
  }

  lemma SubsetOfSameSize(a: set<string>, b: set<string>)
    requires a <= b
    ensures |a| == |b| <==> a == b
  {
    assert b == a + (b - a);
    assert |b| == |a| + |b - a|;
  }
}
