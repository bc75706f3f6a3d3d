/** Which fault the scheduler reports, and how the order of the sub-tasks decides it:
    internal/orchestrator/task/coordinator.go. */
module DagFaults {
  import opened Wrappers
  import opened Graphs
  import opened Dag

  predicate Named(ts: seq<Option<SubTask>>, i: int, id: string) {
    0 <= i < |ts| && ts[i].Some? && ts[i].value.id == id
  }

  /** The first bad dependency in the list of `t` is its `j`-th. */
  ghost predicate FirstBad(tab: TaskTable, t: SubTask, j: int, e: DagError) {
    && 0 <= j < |t.deps| && DepFault(tab, t, t.deps[j]) == Some(e)
    && forall k :: 0 <= k < j ==> DepFault(tab, t, t.deps[k]).None?
  }

  ghost predicate Unnamed(ts: seq<Option<SubTask>>) {
    exists i :: Named(ts, i, "")
  }

  ghost predicate Twice(ts: seq<Option<SubTask>>, id: string) {
    exists i, j :: 0 <= i < j && Named(ts, i, id) && Named(ts, j, id)
  }

  ghost predicate Misplaced(ts: seq<Option<SubTask>>, e: DagError)
    requires Declared(ts)
  {
    exists t, j :: Some(t) in ts && FirstBad(Table(ts), t, j, e)
  }

  /** The faults of a list, whatever its order: a nil task, an unnamed one, a name used twice;
      if there are none of these, the first bad dependency of each task; else a cycle. */
  ghost predicate Possible(ts: seq<Option<SubTask>>, e: DagError) {
    match e
    case NilTask => None in ts
    case EmptyId => Unnamed(ts)
    case DuplicateId(id) => id != "" && Twice(ts, id)
    case Circular => Declared(ts) && DepsFine(ts, |ts|) && !Acyclic(DepsOf(Table(ts)))
    case _ => Declared(ts) && Misplaced(ts, e)
  }

  // ---- Whatever is reported is possible, in any order ----

  lemma ReportedIsPossible(ts: seq<Option<SubTask>>, r: Result<Layers, DagError>)
    requires Resolves(ts, r) && r.Failure?
    ensures Possible(ts, r.error)
  {
    hide Table, DepsOf, Acyclic, Closed, Layered;
    if !Declared(ts) {
      var i :| 0 <= i < |ts| && IdFault(ts, i) == Some(r.error);
      assert ts[i] in ts;
      if ts[i].Some? {
        assert Named(ts, i, ts[i].value.id);
        if ts[i].value.id != "" {
          var j :| 0 <= j < i && ts[j].Some? && ts[j].value.id == ts[i].value.id;
          assert Named(ts, j, ts[i].value.id);
        }
      }
    } else if !DepsFine(ts, |ts|) {
      DepFaultIsPossible(ts, r.error);
    } else {
      CircularMeans(ts, r);
    }
  }

  /** What each reported error says of the input. */
  lemma ErrorMeans(ts: seq<Option<SubTask>>, r: Result<Layers, DagError>)
    requires Resolves(ts, r) && r.Failure?
    ensures r.error.DuplicateId? ==>
      exists i, j :: 0 <= i < j < |ts| && ts[i].Some? && ts[j].Some? && ts[i].value.id == ts[j].value.id == r.error.id
    ensures r.error.UnknownDependency? ==>
      && (exists t :: Some(t) in ts && t.id == r.error.id && r.error.dep in t.deps)
      && (forall t :: Some(t) in ts ==> t.id != r.error.dep)
    ensures r.error.SelfDependency? ==> exists t :: Some(t) in ts && t.id == r.error.id && r.error.id in t.deps
  {
    hide Acyclic, Closed, Layered, Resolves, FirstDepFault;
    ReportedIsPossible(ts, r);
    if r.error.DuplicateId? {
      var i, j :| 0 <= i < j && Named(ts, i, r.error.id) && Named(ts, j, r.error.id);
    } else if r.error.UnknownDependency? || r.error.SelfDependency? {
      var t, j :| Some(t) in ts && FirstBad(Table(ts), t, j, r.error);
      assert t.deps[j] in t.deps;
      forall u | Some(u) in ts ensures u.id in Table(ts) {
        assert u in Tasks(ts);
      }
    }
  }

  lemma DepFaultIsPossible(ts: seq<Option<SubTask>>, e: DagError)
    requires Declared(ts) && FirstDepFault(ts, e)
    ensures Possible(ts, e)
  {
    hide Table, Acyclic;
    var i, j :| 0 <= i < |ts| && 0 <= j < |ts[i].value.deps| &&
      DepFault(Table(ts), ts[i].value, ts[i].value.deps[j]) == Some(e) &&
      forall k :: 0 <= k < j ==> DepFault(Table(ts), ts[i].value, ts[i].value.deps[k]).None?;
    assert ts[i] in ts && FirstBad(Table(ts), ts[i].value, j, e);
  }

  lemma SameMembers(ts: seq<Option<SubTask>>, us: seq<Option<SubTask>>)
    requires multiset(ts) == multiset(us)
    ensures forall o :: o in ts <==> o in us
  {
    forall o ensures o in ts <==> o in us {
      assert o in multiset(ts) <==> o in multiset(us);
    }
  }

  lemma TwicePermutes(ts: seq<Option<SubTask>>, us: seq<Option<SubTask>>, id: string)
    requires multiset(ts) == multiset(us) && Twice(ts, id)
    ensures Twice(us, id)
  {
    SameMembers(ts, us);
    var i, j :| 0 <= i < j && Named(ts, i, id) && Named(ts, j, id);
    var k, l := 0, 0;
    if ts[i] == ts[j] {
      Repeated(ts, i, j);
      if forall m, n :: 0 <= m < n < |us| && us[m] == us[n] == ts[i] ==> false {
        Occurrences(us, ts[i]);
      }
      k, l :| 0 <= k < l < |us| && us[k] == us[l] == ts[i];
    } else {
      assert ts[i] in us && ts[j] in us;
      k :| 0 <= k < |us| && us[k] == ts[i];
      l :| 0 <= l < |us| && us[l] == ts[j];
    }
    assert Named(us, k, id) && Named(us, l, id);
    assert k != l && (k < l || l < k);
  }

  lemma PossiblePermutes(ts: seq<Option<SubTask>>, us: seq<Option<SubTask>>, e: DagError)
    requires multiset(ts) == multiset(us) && Possible(ts, e)
    ensures Possible(us, e)
  {
    hide Table, Tasks, DepsOf, Acyclic, Declared, DepsFine, Closed, FirstBad;
    SameMembers(ts, us);
    match e {
      case NilTask =>
      case EmptyId =>
        var i :| Named(ts, i, "");
        assert ts[i] in us;
        var k :| 0 <= k < |us| && us[k] == ts[i];
        assert Named(us, k, "");
      case DuplicateId(id) => TwicePermutes(ts, us, id);
      case Circular =>
        PermutationKeepsDeclared(ts, us);
        DepsFineIffClosed(ts);
        DepsFineIffClosed(us);
      case _ => PermutationKeepsDeclared(ts, us);
    }
  }

  // ---- Each possible fault is reported in some order ----

  function Moved(ts: seq<Option<SubTask>>, i: nat): seq<Option<SubTask>>
    requires i < |ts|
  {
    [ts[i]] + ts[..i] + ts[i + 1..]
  }

  lemma MovedIsPermutation(ts: seq<Option<SubTask>>, i: nat)
    requires i < |ts|
    ensures multiset(Moved(ts, i)) == multiset(ts)
  {
    assert ts == ts[..i] + ([ts[i]] + ts[i + 1..]);
  }

  ghost predicate ReportedBy(us: seq<Option<SubTask>>, ts: seq<Option<SubTask>>, e: DagError) {
    multiset(us) == multiset(ts) && Resolves(us, Failure(e))
  }

  lemma IdFaultReported(us: seq<Option<SubTask>>, i: nat, e: DagError)
    requires i < |us| && IdFault(us, i) == Some(e) && forall j :: 0 <= j < i ==> IdFault(us, j).None?
    ensures Resolves(us, Failure(e))
  {
    hide Table, DepsOf, Acyclic, Closed, Layered, DepsFine, FirstDepFault;
    assert !Declared(us);
  }

  lemma DepFaultReported(us: seq<Option<SubTask>>, j: int, e: DagError)
    requires Declared(us) && us != [] && FirstBad(Table(us), us[0].value, j, e)
    ensures Resolves(us, Failure(e))
  {
    hide Table, Layered, Acyclic, Closed, IdFault;
    var t := us[0].value;
    assert DepsFine(us, 0);
    assert FirstDepFault(us, e);
    assert !DepsFine(us, |us|);
    DepsFineIffClosed(us);
    SelfDependencyIsCycle(us);
  }

  lemma PossibleIsReported(ts: seq<Option<SubTask>>, e: DagError) returns (us: seq<Option<SubTask>>)
    requires Possible(ts, e)
    ensures ReportedBy(us, ts, e)
  {
    hide Table, Tasks, DepsOf, Acyclic, Closed, Declared, Layered, DepsFine, FirstBad, Resolves;
    match e {
      case NilTask =>
        var i :| 0 <= i < |ts| && ts[i] == None;
        us := Moved(ts, i);
        MovedIsPermutation(ts, i);
        IdFaultReported(us, 0, e);
      case EmptyId =>
        var i :| Named(ts, i, "");
        us := Moved(ts, i);
        MovedIsPermutation(ts, i);
        IdFaultReported(us, 0, e);
      case DuplicateId(id) => us := DuplicateFirst(ts, id);
      case Circular =>
        us := ts;
        CycleReported(ts);
      case _ =>
        var t, j :| Some(t) in ts && FirstBad(Table(ts), t, j, e);
        var i :| 0 <= i < |ts| && ts[i] == Some(t);
        us := Moved(ts, i);
        MovedIsPermutation(ts, i);
        PermutationKeepsDeclared(ts, us);
        DepFaultReported(us, j, e);
    }
  }

  lemma CycleReported(ts: seq<Option<SubTask>>)
    requires Possible(ts, Circular)
    ensures Resolves(ts, Failure(Circular))
  {
    hide Table, DepsOf, Acyclic, Closed, Layered;
  }

  lemma DuplicateFirst(ts: seq<Option<SubTask>>, id: string) returns (us: seq<Option<SubTask>>)
    requires id != "" && Twice(ts, id)
    ensures ReportedBy(us, ts, DuplicateId(id))
  {
    hide Resolves;
    var i, j :| 0 <= i < j && Named(ts, i, id) && Named(ts, j, id);
    var vs := Moved(ts, i);
    MovedIsPermutation(ts, i);
    assert vs[j] == ts[j];
    us := Moved(vs, j);
    MovedIsPermutation(vs, j);
    assert us[0] == vs[j] && us[1] == vs[0];
    assert IdFault(us, 0).None? && IdFault(us, 1) == Some(DuplicateId(id));
    IdFaultReported(us, 1, DuplicateId(id));
  }

  // ---- When the order does not matter ----

  /** A fault is reported in some order exactly when it is possible. */
  lemma ReportedInSomeOrderIff(ts: seq<Option<SubTask>>, e: DagError)
    ensures Possible(ts, e) <==> exists us :: ReportedBy(us, ts, e)
  {
    hide Possible, Resolves;
    if Possible(ts, e) {
      var us := PossibleIsReported(ts, e);
    }
    if us :| ReportedBy(us, ts, e) {
      ReportedIsPossible(us, Failure(e));
      PossiblePermutes(us, ts, e);
    }
  }

  /** Every order of the list reports `e` exactly when no other fault is possible. */
  lemma EveryOrderReportsIff(ts: seq<Option<SubTask>>, e: DagError)
    requires Possible(ts, e)
    ensures (forall us, q :: multiset(us) == multiset(ts) && Resolves(us, q) ==> q == Failure(e)) <==>
            (forall f :: Possible(ts, f) ==> f == e)
  {
    hide Possible, Resolves;
    if forall us, q :: multiset(us) == multiset(ts) && Resolves(us, q) ==> q == Failure(e) {
      forall f | Possible(ts, f) ensures f == e {
        var us := PossibleIsReported(ts, f);
        assert Resolves(us, Failure(f));
      }
    }
    if forall f :: Possible(ts, f) ==> f == e {
      var vs := PossibleIsReported(ts, e);
      forall us, q | multiset(us) == multiset(ts) && Resolves(us, q) ensures q == Failure(e) {
        OrderOfTasksIsIrrelevant(us, vs, q, Failure(e));
        ReportedIsPossible(us, q);
        PossiblePermutes(us, ts, q.error);
      }
    }
  }

  /** A nil task and an unnamed one: the first of them is reported. */
  lemma FirstFaultDependsOnOrder(t: SubTask)
    requires t.id == ""
    ensures Resolves([None, Some(t)], Failure(NilTask)) && Resolves([Some(t), None], Failure(EmptyId))
  {
    hide Resolves;
    IdFaultReported([None, Some(t)], 0, NilTask);
    IdFaultReported([Some(t), None], 0, EmptyId);
  }
}
