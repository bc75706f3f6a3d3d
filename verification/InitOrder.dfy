/** The order in which the daemon initialises its components: internal/daemon/manager.go. */
module InitOrder {
  import opened Wrappers
  import opened Graphs

  /** What `Component.Name` and `Component.Dependencies` return. */
  datatype Component = Component(name: string, deps: seq<string>)

  datatype InitError =
    | NotRegistered(component: string, dep: string)
    | NotFound(name: string)
    | CircularDependency(name: string)
    | InitFailed(name: string)

  /** Names and their dependencies; the first component of a name counts. */
  function GraphOf(cs: seq<Component>): Graph {
    if cs == [] then map[]
    else GraphOf(cs[..|cs| - 1]) + (map[cs[|cs| - 1].name := cs[|cs| - 1].deps] - GraphOf(cs[..|cs| - 1]).Keys)
  }

  lemma {:induction false} NamesOfGraph(cs: seq<Component>, name: string)
    ensures name in GraphOf(cs) <==> exists i :: 0 <= i < |cs| && cs[i].name == name
  {
    if cs != [] {
      NamesOfGraph(cs[..|cs| - 1], name);
    }
  }

  lemma {:induction false} FirstOfName(cs: seq<Component>, k: nat)
    requires k < |cs| && forall i :: 0 <= i < k ==> cs[i].name != cs[k].name
    ensures cs[k].name in GraphOf(cs) && GraphOf(cs)[cs[k].name] == cs[k].deps
  {
    var m := |cs| - 1;
    if k < m {
      FirstOfName(cs[..m], k);
    } else {
      NamesOfGraph(cs[..m], cs[k].name);
    }
  }

  ghost predicate DistinctNames(order: seq<string>) {
    forall i, j :: 0 <= i < j < |order| ==> order[i] != order[j]
  }

  /** Each name follows everything it depends on. */
  ghost predicate DepsFirst(g: Graph, order: seq<string>) {
    && (forall n :: n in order ==> n in g)
    && (forall i, d :: 0 <= i < |order| && d in g[order[i]] ==> d in order[..i])
  }

  /** Every registered name once, after its dependencies. */
  ghost predicate IsInitOrder(g: Graph, order: seq<string>) {
    DistinctNames(order) && DepsFirst(g, order) && forall n :: n in order <==> n in g
  }

  /** What an error of the search says about the graph. */
  ghost predicate Explains(g: Graph, e: InitError) {
    match e
    case NotFound(n) => n !in g && exists m :: m in g && n in g[m]
    case CircularDependency(n) => exists p :: IsChain(g, p) && |p| > 1 && p[0] == n && p[|p| - 1] == n
    case _ => false
  }

  lemma AppendName(g: Graph, order: seq<string>, n: string)
    requires DistinctNames(order) && DepsFirst(g, order) && n !in order && n in g
    requires forall d :: d in g[n] ==> d in order
    ensures DistinctNames(order + [n]) && DepsFirst(g, order + [n])
  {
    var more := order + [n];
    forall i, d | 0 <= i < |more| && d in g[more[i]] ensures d in more[..i] {
      assert more[..i] == order[..i];
      assert order[..|order|] == order;
      if i < |order| {
        assert d in g[order[i]];
      }
    }
  }

  /** An order of a whole graph proves it closed and free of cycles. */
  lemma OrderedIsAcyclic(g: Graph, order: seq<string>)
    requires IsInitOrder(g, order)
    ensures Closed(g) && Acyclic(g)
  {
    forall n, d | n in g && d in g[n] ensures d in g {
      var i :| 0 <= i < |order| && order[i] == n;
      assert d in order[..i];
    }
    var rank := map n | n in g :: Position(order, n);
    forall n, d | n in g && d in g[n] && d in g ensures rank[d] < rank[n] {
      var i := Position(order, n);
      assert d in order[..i];
      PositionUnique(order, d, i);
    }
    RankedIsAcyclic(g, rank);
  }

  ghost function Position(order: seq<string>, n: string): (i: nat)
    ensures n in order ==> i < |order| && order[i] == n
  {
    if n in order then var i: nat :| i < |order| && order[i] == n; i else 0
  }

  lemma PositionUnique(order: seq<string>, n: string, i: nat)
    requires DistinctNames(order) && i <= |order| && n in order[..i]
    ensures Position(order, n) < i
  {
    var k :| 0 <= k < i && order[..i][k] == n;
    assert order[k] == n && order[Position(order, n)] == n;
  }

  lemma ErrorMeansBadGraph(g: Graph, e: InitError)
    requires Explains(g, e)
    ensures !(Closed(g) && Acyclic(g))
  {
  }

  // ---- The search ----

  /** The search has finished `order` and is inside the names of `path`, innermost first. */
  ghost predicate Searching(g: Graph, visited: set<string>, tempVisited: set<string>, order: seq<string>,
                            path: seq<string>) {
    && DistinctNames(order) && DepsFirst(g, order)
    && (forall n :: n in visited <==> n in order)
    && (path == [] || IsChain(g, path))
    && (forall n :: n in tempVisited <==> n in path)
    && tempVisited !! visited
  }

  /** `name` is a root, or a dependency of the innermost name. */
  ghost predicate Next(g: Graph, name: string, path: seq<string>) {
    if path == [] then name in g else path[0] in g && name in g[path[0]]
  }

  lemma Enter(g: Graph, visited: set<string>, tempVisited: set<string>, order: seq<string>, path: seq<string>,
              name: string)
    requires Searching(g, visited, tempVisited, order, path) && Next(g, name, path)
    requires name in g && name !in tempVisited && name !in visited
    ensures Searching(g, visited, tempVisited + {name}, order, [name] + path)
    ensures forall d :: d in g[name] ==> Next(g, d, [name] + path)
    ensures (forall n :: n in tempVisited <==> n in path) && (path == [] || IsChain(g, path))
    ensures |g.Keys - (tempVisited + {name})| < |g.Keys - tempVisited|
  {
    hide DistinctNames, DepsFirst;
    var p := [name] + path;
    forall i | 0 < i < |p| ensures p[i - 1] in g[p[i]] {
      if i > 1 {
        assert path[i - 2] in g[path[i - 1]];
      }
    }
    forall i | 0 <= i < |p| ensures p[i] in g {
      if i > 0 {
        assert path[i - 1] in g;
      }
    }
    assert g.Keys - tempVisited == (g.Keys - (tempVisited + {name})) + {name};
  }

  lemma Leave(g: Graph, visited: set<string>, tempVisited: set<string>, order: seq<string>, path: seq<string>,
              name: string)
    requires Searching(g, visited, tempVisited + {name}, order, [name] + path)
    requires name in g && name !in tempVisited && forall d :: d in g[name] ==> d in visited
    requires (forall n :: n in tempVisited <==> n in path) && (path == [] || IsChain(g, path))
    ensures Searching(g, visited + {name}, tempVisited, order + [name], path)
  {
    hide DistinctNames, DepsFirst, IsChain;
    assert name in tempVisited + {name};
    AppendName(g, order, name);
    forall n ensures n in visited + {name} <==> n in order + [name] {
    }
  }

  // ---- No earlier than needed ----

  /** `n` is `from` or something that it depends on, at any distance. */
  ghost predicate Reaches(g: Graph, from: string, n: string) {
    exists p :: IsChain(g, p) && p[|p| - 1] == from && p[0] == n
  }

  lemma ReachesItself(g: Graph, n: string)
    requires n in g
    ensures Reaches(g, n, n)
  {
    assert IsChain(g, [n]);
  }

  lemma ReachesThrough(g: Graph, from: string, d: string, n: string)
    requires from in g && d in g[from] && Reaches(g, d, n)
    ensures Reaches(g, from, n)
  {
    var p :| IsChain(g, p) && p[|p| - 1] == d && p[0] == n;
    var q := p + [from];
    forall i | 0 < i < |q| ensures q[i - 1] in g[q[i]] {
      if i < |p| {
        assert p[i - 1] in g[p[i]];
      }
    }
    assert IsChain(g, q);
  }

  /** One of the first `k` components is `n` or needs it. */
  ghost predicate Needed(g: Graph, cs: seq<Component>, k: nat, n: string)
    requires k <= |cs|
  {
    exists i :: 0 <= i < k && Reaches(g, cs[i].name, n)
  }

  /** For each `k` some part at the front of the order holds exactly what the first `k`
      components need: the order is that of registration, except for dependencies. */
  ghost predicate NoEarlierThanNeeded(g: Graph, cs: seq<Component>, order: seq<string>) {
    forall k :: 0 <= k <= |cs| ==> Cut(g, cs, order, k)
  }

  ghost predicate Cut(g: Graph, cs: seq<Component>, order: seq<string>, k: nat)
    requires k <= |cs|
  {
    exists m :: 0 <= m <= |order| && forall n :: n in order[..m] <==> Needed(g, cs, k, n)
  }

  /** The search has finished the first `k` components. */
  ghost predicate Progress(g: Graph, cs: seq<Component>, order: seq<string>, k: nat)
    requires k <= |cs|
  {
    && (forall n :: n in order <==> Needed(g, cs, k, n))
    && (forall l :: 0 <= l <= k ==> Cut(g, cs, order, l))
  }

  lemma NoProgress(g: Graph, cs: seq<Component>)
    ensures Progress(g, cs, [], 0)
  {
    hide Cut;
    CutHere(g, cs, [], 0);
  }

  lemma MoreProgress(g: Graph, cs: seq<Component>, before: seq<string>, order: seq<string>, k: nat)
    requires k < |cs| && DepsFirst(g, order) && cs[k].name in order && before <= order && Progress(g, cs, before, k)
    requires forall n :: n in order && n !in before ==> Reaches(g, cs[k].name, n)
    ensures Progress(g, cs, order, k + 1)
  {
    hide DepsFirst, Needed, Reaches, Cut;
    NeedsOneMore(g, cs, before, order, k);
    forall l | 0 <= l <= k ensures Cut(g, cs, order, l) {
      CutStays(g, cs, before, order, l);
    }
    CutHere(g, cs, order, k + 1);
  }

  lemma ProgressMade(g: Graph, cs: seq<Component>, order: seq<string>)
    requires Progress(g, cs, order, |cs|)
    ensures NoEarlierThanNeeded(g, cs, order)
  {
  }

  lemma CutHere(g: Graph, cs: seq<Component>, order: seq<string>, k: nat)
    requires k <= |cs| && forall n :: n in order <==> Needed(g, cs, k, n)
    ensures Cut(g, cs, order, k)
  {
    assert order[..|order|] == order;
  }

  lemma CutStays(g: Graph, cs: seq<Component>, order: seq<string>, more: seq<string>, k: nat)
    requires k <= |cs| && Cut(g, cs, order, k) && order <= more
    ensures Cut(g, cs, more, k)
  {
    hide Needed;
    var m :| 0 <= m <= |order| && forall n :: n in order[..m] <==> Needed(g, cs, k, n);
    assert more[..m] == order[..m];
  }

  lemma {:induction false} OrderIsClosed(g: Graph, order: seq<string>, p: seq<string>)
    requires DepsFirst(g, order) && IsChain(g, p) && p[|p| - 1] in order
    ensures p[0] in order
  {
    var m := |p| - 1;
    if m > 0 {
      var i :| 0 <= i < |order| && order[i] == p[m];
      assert p[m - 1] in g[order[i]] && p[m - 1] in order[..i];
      assert IsChain(g, p[..m]);
      OrderIsClosed(g, order, p[..m]);
    }
  }

  /** After the search from the next component the order holds what it needs, too. */
  lemma NeedsOneMore(g: Graph, cs: seq<Component>, before: seq<string>, order: seq<string>, k: nat)
    requires k < |cs| && DepsFirst(g, order) && cs[k].name in order && before <= order
    requires forall n :: n in before <==> Needed(g, cs, k, n)
    requires forall n :: n in order && n !in before ==> Reaches(g, cs[k].name, n)
    ensures forall n :: n in order <==> Needed(g, cs, k + 1, n)
  {
    hide Reaches;
    forall n ensures n in order <==> Needed(g, cs, k + 1, n) {
      if Needed(g, cs, k + 1, n) && !Needed(g, cs, k, n) {
        ReachedIsListed(g, order, cs[k].name, n);
      }
    }
  }

  lemma ReachedIsListed(g: Graph, order: seq<string>, from: string, n: string)
    requires DepsFirst(g, order) && from in order && Reaches(g, from, n)
    ensures n in order
  {
    var p :| IsChain(g, p) && p[|p| - 1] == from && p[0] == n;
    OrderIsClosed(g, order, p);
  }

  class Resolver {
    const components: seq<Component>
    var visited: set<string>
    var tempVisited: set<string>
    var order: seq<string>

    constructor (components: seq<Component>)
      ensures this.components == components && Sound([]) && order == []
    {
      this.components := components;
      visited, tempVisited, order := {}, {}, [];
    }

    ghost function Deps(): Graph {
      GraphOf(components)
    }

    ghost predicate Sound(path: seq<string>)
      reads this
    {
      Searching(Deps(), visited, tempVisited, order, path)
    }

    /** `getComponentByName` */
    method ComponentByName(name: string) returns (comp: Option<Component>)
      ensures comp.None? <==> name !in Deps()
      ensures comp.Some? ==> comp.value.name == name && comp.value.deps == Deps()[name]
    {
      var i := 0;
      while i < |components|
        invariant 0 <= i <= |components|
        invariant forall k :: 0 <= k < i ==> components[k].name != name
      {
        if components[i].name == name {
          FirstOfName(components, i);
          return Some(components[i]);
        }
        i := i + 1;
      }
      NamesOfGraph(components, name);
      comp := None;
    }

    /** The recursive `visit`. Its depth is bounded by the names it is not yet inside of. */
    method Visit(name: string, ghost path: seq<string>) returns (err: Option<InitError>)
      requires Sound(path)
      requires Next(Deps(), name, path)
      modifies this
      ensures err.None? ==> Sound(path) && name in visited && tempVisited == old(tempVisited) && old(visited) <= visited
      ensures err.Some? ==> Explains(Deps(), err.value)
      ensures old(order) <= order && forall n :: n in order && n !in old(order) ==> Reaches(Deps(), name, n)
      decreases |Deps().Keys - tempVisited|
    {
      hide Searching, Next, Explains, GraphOf, Reaches;
      ghost var g := Deps();
      if name in tempVisited {
        CycleFound(g, visited, tempVisited, order, path, name);
        return Some(CircularDependency(name));
      }
      if name in visited {
        return None;
      }
      var comp := ComponentByName(name);
      if comp.None? {
        UnknownFound(g, path, name);
        return Some(NotFound(name));
      }
      ghost var inside := [name] + path;
      Enter(g, visited, tempVisited, order, path, name);
      tempVisited := tempVisited + {name};
      var deps, i := comp.value.deps, 0;
      while i < |deps|
        invariant 0 <= i <= |deps| && Sound(inside) && old(visited) <= visited
        invariant forall k :: 0 <= k < i ==> deps[k] in visited
        invariant tempVisited == old(tempVisited) + {name}
        invariant old(order) <= order && forall n :: n in order && n !in old(order) ==> Reaches(g, name, n)
      {
        ghost var before := order;
        err := Visit(deps[i], inside);
        forall n | n in order && n !in before ensures Reaches(g, name, n) {
          ReachesThrough(g, name, deps[i], n);
        }
        if err.Some? {
          return;
        }
        i := i + 1;
      }
      Leave(g, visited, old(tempVisited), order, path, name);
      tempVisited := tempVisited - {name};
      assert tempVisited == old(tempVisited);
      visited := visited + {name};
      order := order + [name];
      ReachesItself(g, name);
      err := None;
    }

    /** `resolveInitOrder` */
    method Resolve() returns (r: Result<seq<string>, InitError>)
      requires Sound([]) && order == []
      modifies this
      ensures r.Success? <==> Closed(Deps()) && Acyclic(Deps())
      ensures r.Success? ==> IsInitOrder(Deps(), r.value) && NoEarlierThanNeeded(Deps(), components, r.value)
      ensures r.Failure? ==> Explains(Deps(), r.error)
    {
      hide GraphOf, Needed, Reaches, Cut, Acyclic, Closed, Progress;
      var i := 0;
      NoProgress(Deps(), components);
      while i < |components|
        invariant 0 <= i <= |components| && Sound([])
        invariant tempVisited == {} && forall k :: 0 <= k < i ==> components[k].name in visited
        invariant Progress(Deps(), components, order, i)
      {
        NamesOfGraph(components, components[i].name);
        ghost var before := order;
        var err := Visit(components[i].name, []);
        if err.Some? {
          ErrorMeansBadGraph(Deps(), err.value);
          return Failure(err.value);
        }
        MoreProgress(Deps(), components, before, order, i);
        i := i + 1;
      }
      forall n ensures n in order <==> n in Deps() {
        NamesOfGraph(components, n);
      }
      OrderedIsAcyclic(Deps(), order);
      ProgressMade(Deps(), components, order);
      r := Success(order);
    }
  }

  // ---- Initialising ----

  ghost predicate AllRegistered(cs: seq<Component>) {
    forall i, d :: 0 <= i < |cs| && d in cs[i].deps ==> d in GraphOf(cs)
  }

  /** The `j`-th dependency of the `i`-th component is the first that is no component's name. */
  ghost predicate FirstMissing(cs: seq<Component>, i: int, j: int) {
    && 0 <= i < |cs| && 0 <= j < |cs[i].deps| && (forall k :: 0 <= k < |cs| ==> cs[k].name != cs[i].deps[j])
    && (forall m :: 0 <= m < j ==> exists k :: 0 <= k < |cs| && cs[k].name == cs[i].deps[m])
    && (forall l, d :: 0 <= l < i && d in cs[l].deps ==> exists k :: 0 <= k < |cs| && cs[k].name == d)
  }

  function Missing(cs: seq<Component>, i: int, j: int): InitError
    requires 0 <= i < |cs| && 0 <= j < |cs[i].deps|
  {
    NotRegistered(cs[i].name, cs[i].deps[j])
  }

  lemma MissingIsFirst(cs: seq<Component>, i: nat, j: nat)
    requires i < |cs| && j < |cs[i].deps| && cs[i].deps[j] !in GraphOf(cs)
    requires forall m :: 0 <= m < j ==> cs[i].deps[m] in GraphOf(cs)
    requires forall l, d :: 0 <= l < i && d in cs[l].deps ==> d in GraphOf(cs)
    ensures FirstMissing(cs, i, j)
  {
    hide GraphOf;
    NamesOfGraph(cs, cs[i].deps[j]);
    forall m | 0 <= m < j ensures exists k :: 0 <= k < |cs| && cs[k].name == cs[i].deps[m] {
      NamesOfGraph(cs, cs[i].deps[m]);
    }
    forall l, d | 0 <= l < i && d in cs[l].deps ensures exists k :: 0 <= k < |cs| && cs[k].name == d {
      NamesOfGraph(cs, d);
    }
  }

  lemma {:induction false} GraphFromComponents(cs: seq<Component>, name: string)
    requires name in GraphOf(cs)
    ensures exists i :: 0 <= i < |cs| && cs[i].name == name && cs[i].deps == GraphOf(cs)[name]
  {
    var m := |cs| - 1;
    if name in GraphOf(cs[..m]) {
      GraphFromComponents(cs[..m], name);
      var i :| 0 <= i < m && cs[..m][i].name == name && cs[..m][i].deps == GraphOf(cs[..m])[name];
      assert cs[i].name == name;
    }
  }

  lemma AllRegisteredIsClosed(cs: seq<Component>)
    requires AllRegistered(cs)
    ensures Closed(GraphOf(cs))
  {
    forall n, d | n in GraphOf(cs) && d in GraphOf(cs)[n] ensures d in GraphOf(cs) {
      GraphFromComponents(cs, n);
    }
  }

  /** The calls of `Init`, as far as they went: every component once, each after all its
      dependencies have been initialised, and no call after one that failed. */
  ghost predicate InitRun(g: Graph, fails: string -> bool, calls: seq<string>) {
    && DistinctNames(calls) && (forall n :: n in calls ==> n in g)
    && (forall i, d :: 0 <= i < |calls| && d in g[calls[i]] ==> d in calls[..i] && !fails(d))
    && (forall i :: 0 <= i < |calls| - 1 ==> !fails(calls[i]))
  }

  lemma InitRunPrefix(g: Graph, fails: string -> bool, order: seq<string>, n: nat)
    requires IsInitOrder(g, order) && n <= |order| && forall k :: 0 <= k < n - 1 ==> !fails(order[k])
    ensures InitRun(g, fails, order[..n])
  {
    var calls := order[..n];
    forall i, d | 0 <= i < |calls| && d in g[calls[i]] ensures d in calls[..i] && !fails(d) {
      assert d in g[order[i]] && calls[..i] == order[..i];
      var k :| 0 <= k < i && order[..i][k] == d;
    }
  }

  class Daemon {
    var components: seq<Component>
    var shutdownOrder: seq<string>

    ghost predicate Valid()
      reads this
    {
      |shutdownOrder| == |components| &&
      forall i :: 0 <= i < |components| ==> shutdownOrder[i] == components[|components| - 1 - i].name
    }

    constructor ()
      ensures Valid() && components == []
    {
      components, shutdownOrder := [], [];
    }

    method AddComponent(comp: Component)
      requires Valid()
      modifies this
      ensures Valid() && components == old(components) + [comp]
    {
      components := components + [comp];
      shutdownOrder := [comp.name] + shutdownOrder;
    }

    /** `validateDependencies`: also the components that another one of the same name hides. */
    method ValidateDependencies() returns (err: Option<InitError>)
      ensures err.None? <==> AllRegistered(components)
      ensures err.Some? ==> exists i, j :: FirstMissing(components, i, j) && err.value == Missing(components, i, j)
    {
      var names: set<string> := {};
      var i := 0;
      while i < |components|
        invariant 0 <= i <= |components|
        invariant forall n :: n in names <==> exists k :: 0 <= k < i && components[k].name == n
      {
        names := names + {components[i].name};
        i := i + 1;
      }
      forall n ensures n in names <==> n in GraphOf(components) {
        NamesOfGraph(components, n);
      }
      i := 0;
      while i < |components|
        invariant 0 <= i <= |components|
        invariant forall k, d :: 0 <= k < i && d in components[k].deps ==> d in names
      {
        var deps, j := components[i].deps, 0;
        while j < |deps|
          invariant 0 <= j <= |deps|
          invariant forall k :: 0 <= k < j ==> deps[k] in names
        {
          if deps[j] !in names {
            assert deps[j] in components[i].deps;
            MissingIsFirst(components, i, j);
            return Some(NotRegistered(components[i].name, deps[j]));
          }
          j := j + 1;
        }
        i := i + 1;
      }
      err := None;
    }

    /** `initializeComponents`; `fails` tells which calls of `Init` return an error. */
    method InitializeComponents(fails: string -> bool) returns (calls: seq<string>, err: Option<InitError>)
      ensures InitRun(GraphOf(components), fails, calls)
      ensures err.None? <==> AllRegistered(components) && Acyclic(GraphOf(components)) &&
                             forall n :: n in GraphOf(components) ==> !fails(n)
      ensures err.None? ==> forall n :: n in calls <==> n in GraphOf(components)
      ensures err.None? ==> NoEarlierThanNeeded(GraphOf(components), components, calls)
      ensures err.Some? && AllRegistered(components) && Acyclic(GraphOf(components)) ==>
        calls != [] && fails(calls[|calls| - 1]) && err.value == InitFailed(calls[|calls| - 1])
      ensures err.Some? && AllRegistered(components) && !Acyclic(GraphOf(components)) ==>
        && calls == [] && err.value.CircularDependency?
        && exists p :: IsChain(GraphOf(components), p) && |p| > 1 && p[0] == p[|p| - 1] == err.value.name
      ensures err.Some? && !AllRegistered(components) ==>
        && calls == []
        && exists i, j :: FirstMissing(components, i, j) && err.value == Missing(components, i, j)
    {
      hide InitRun, AllRegistered, GraphOf, Acyclic, IsInitOrder, NoEarlierThanNeeded, FirstMissing;
      calls := [];
      err := ValidateDependencies();
      if err.Some? {
        EmptyRun(GraphOf(components), fails);
        return;
      }
      AllRegisteredIsClosed(components);
      var resolver := new Resolver(components);
      var resolved := resolver.Resolve();
      if resolved.Failure? {
        EmptyRun(GraphOf(components), fails);
        return calls, Some(resolved.error);
      }
      calls, err := InitInOrder(resolver, resolved.value, fails);
    }
  }

  /** The loop over the resolved order. */
  method InitInOrder(resolver: Resolver, order: seq<string>, fails: string -> bool)
    returns (calls: seq<string>, err: Option<InitError>)
    requires IsInitOrder(resolver.Deps(), order)
    ensures InitRun(resolver.Deps(), fails, calls)
    ensures err.None? <==> forall n :: n in resolver.Deps() ==> !fails(n)
    ensures err.None? ==> calls == order && forall n :: n in calls <==> n in resolver.Deps()
    ensures err.Some? ==> calls != [] && fails(calls[|calls| - 1]) && err.value == InitFailed(calls[|calls| - 1])
  {
    hide DistinctNames, DepsFirst, InitRun, GraphOf;
    ghost var g := resolver.Deps();
    calls := [];
    var i := 0;
    while i < |order|
      invariant 0 <= i <= |order| && calls == order[..i]
      invariant forall k :: 0 <= k < i ==> !fails(order[k])
    {
      assert order[i] in order;
      var comp := resolver.ComponentByName(order[i]);
      if comp.Some? {
        calls := calls + [order[i]];
        if fails(order[i]) {
          InitRunPrefix(g, fails, order, i + 1);
          assert calls == order[..i + 1];
          return calls, Some(InitFailed(order[i]));
        }
      }
      i := i + 1;
    }
    assert order[..i] == order;
    InitRunPrefix(g, fails, order, i);
    forall n | n in g ensures !fails(n) {
      assert n in order;
    }
    err := None;
  }

  lemma EmptyRun(g: Graph, fails: string -> bool)
    ensures InitRun(g, fails, [])
  {
  }

  lemma CycleFound(g: Graph, visited: set<string>, tempVisited: set<string>, order: seq<string>, path: seq<string>,
                   name: string)
    requires Searching(g, visited, tempVisited, order, path) && Next(g, name, path) && name in tempVisited
    ensures Explains(g, CircularDependency(name))
  {
    hide DistinctNames, DepsFirst;
    var k :| 0 <= k < |path| && path[k] == name;
    var p := [name] + path[..k + 1];
    forall i | 0 < i < |p| ensures p[i - 1] in g[p[i]] {
      if i > 1 {
        assert path[i - 2] in g[path[i - 1]];
      }
    }
    forall i | 0 <= i < |p| ensures p[i] in g {
      assert p[i] in path;
    }
    assert IsChain(g, p) && p[0] == name && p[|p| - 1] == name;
  }

  lemma UnknownFound(g: Graph, path: seq<string>, name: string)
    requires Next(g, name, path) && name !in g
    ensures Explains(g, NotFound(name))
  {
  }
}
