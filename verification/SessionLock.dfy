/** The per-session lock shared by the workers of all lanes: internal/concurrency/lock.go
    and its only client, internal/worker/worker.go, as atomic steps of N workers. */
module SessionLock {
  /** The fields of `ingress.Event` that `validateEvent` looks at. */
  datatype Event = Nil | Event(id: string, session: string, kind: string)

  /** Where a worker is: in `eventLoop`, in `Lock`, in `orch.Execute`, in `Unlock`. */
  datatype Phase =
    | Idle
    | Stopped
    | LockWantsMu(event: Event)
    | LockHasMu(event: Event)
    | LockReleasesMu(event: Event, mutex: nat)
    | LockWaits(event: Event, mutex: nat)
    | Executing(event: Event)
    | UnlockWantsMu(event: Event)
    | UnlockHasMu(event: Event)
    | UnlockReleasesMu(event: Event)

  /** A worker, with all that its lane ever received and all that it has executed. */
  datatype Worker = Worker(phase: Phase, queue: seq<Event>, arrived: seq<Event>, executed: seq<Event>)

  /** `muLocked` is `m.mu`; session mutexes are numbered in the order they are made.
      Unlocking a mutex that is not locked is fatal in Go: `crashed`. */
  datatype State = State(muLocked: bool, locks: map<string, nat>, locked: set<nat>, made: nat, workers: seq<Worker>,
                         crashed: bool)

  predicate ValidEvent(e: Event) {
    e.Event? && e.id != "" && e.session != "" && e.kind != ""
  }

  /** The worker owns `m.mu`. */
  predicate HasMu(p: Phase) {
    p.LockHasMu? || p.LockReleasesMu? || p.UnlockHasMu? || p.UnlockReleasesMu?
  }

  /** The worker is between `lock.Lock()` and `lock.Unlock()` of the session. */
  predicate Holds(p: Phase, session: string) {
    (p.Executing? || p.UnlockWantsMu? || p.UnlockHasMu?) && p.event.Event? && p.event.session == session
  }

  function At(s: State, w: nat): Phase
    requires w < |s.workers|
  {
    s.workers[w].phase
  }

  // ---- Steps ----

  /** Not blocked: on an empty lane, on `m.mu`, or on a session mutex. */
  predicate Enabled(s: State, w: nat)
    requires w < |s.workers|
  {
    match At(s, w)
    case Idle => s.workers[w].queue != []
    case Stopped => false
    case LockWantsMu(_) => !s.muLocked
    case LockWaits(_, m) => m !in s.locked
    case UnlockWantsMu(_) => !s.muLocked
    case _ => true
  }

  function Move(s: State, w: nat, p: Phase): State
    requires w < |s.workers|
  {
    s.(workers := s.workers[w := s.workers[w].(phase := p)])
  }

  function Session(e: Event): string {
    if e.Event? then e.session else ""
  }

  /** Reading the fields of a nil event for the log ends the goroutine of the worker. */
  function Taken(e: Event): Phase {
    if e.Nil? then Stopped else if ValidEvent(e) then LockWantsMu(e) else Idle
  }

  function Step(s: State, w: nat): State
    requires w < |s.workers| && Enabled(s, w)
  {
    match At(s, w)
    case Idle =>
      var me := s.workers[w];
      var e := me.queue[0];
      s.(workers := s.workers[w := me.(queue := me.queue[1..], phase := Taken(e))])
    case LockWantsMu(e) => Move(s, w, LockHasMu(e)).(muLocked := true)
    case LockHasMu(e) =>
      if Session(e) in s.locks then Move(s, w, LockReleasesMu(e, s.locks[Session(e)]))
      else Move(s, w, LockReleasesMu(e, s.made)).(locks := s.locks[Session(e) := s.made], made := s.made + 1)
    case LockReleasesMu(e, m) => Move(s, w, LockWaits(e, m)).(muLocked := false)
    case LockWaits(e, m) => Move(s, w, Executing(e)).(locked := s.locked + {m})
    case Executing(e) =>
      var me := s.workers[w];
      s.(workers := s.workers[w := me.(phase := UnlockWantsMu(e), executed := me.executed + [e])])
    case UnlockWantsMu(e) => Move(s, w, UnlockHasMu(e)).(muLocked := true)
    case UnlockHasMu(e) =>
      if Session(e) in s.locks then
        Move(s, w, UnlockReleasesMu(e)).(
          locked := s.locked - {s.locks[Session(e)]},
          crashed := s.crashed || s.locks[Session(e)] !in s.locked)
      else Move(s, w, UnlockReleasesMu(e))
    case UnlockReleasesMu(e) => Move(s, w, Idle).(muLocked := false)
    case Stopped => s
  }

  /** A worker moves, its lane receives an event, or it is told to stop between events. */
  datatype Action = Work(w: nat) | Arrive(w: nat, event: Event) | Quit(w: nat)

  predicate Allowed(s: State, a: Action) {
    a.w < |s.workers| &&
    match a
    case Work(w) => Enabled(s, w)
    case Arrive(_, _) => true
    case Quit(w) => At(s, w).Idle?
  }

  function Next(s: State, a: Action): State
    requires Allowed(s, a)
  {
    match a
    case Work(w) => Step(s, w)
    case Arrive(w, e) =>
      var me := s.workers[w];
      s.(workers := s.workers[w := me.(queue := me.queue + [e], arrived := me.arrived + [e])])
    case Quit(w) => Move(s, w, Stopped)
  }

  function Init(n: nat): State {
    State(false, map[], {}, 0, seq(n, _ => Worker(Idle, [], [], [])), false)
  }

  /** `run` is a possible history of `n` workers under these actions. */
  ghost predicate History(n: nat, actions: seq<Action>, run: seq<State>) {
    && |run| == |actions| + 1 && run[0] == Init(n)
    && forall k :: 0 <= k < |actions| ==> Allowed(run[k], actions[k]) && run[k + 1] == Next(run[k], actions[k])
  }

  // ---- What every step keeps ----

  ghost predicate Inv(s: State) {
    MuInv(s) && BindingInv(s) && HolderInv(s) && !s.crashed && forall w :: 0 <= w < |s.workers| ==>
      LaneInv(s.workers[w])
  }

  ghost predicate MuInv(s: State) {
    && (forall v, w :: 0 <= v < w < |s.workers| ==> !(HasMu(At(s, v)) && HasMu(At(s, w))))
    && (s.muLocked <==> exists w :: 0 <= w < |s.workers| && HasMu(At(s, w)))
  }

  ghost predicate BindingInv(s: State) {
    && (forall a :: a in s.locks ==> s.locks[a] < s.made)
    && (forall a, b :: a in s.locks && b in s.locks && s.locks[a] == s.locks[b] ==> a == b)
    && (forall w :: 0 <= w < |s.workers| && (At(s, w).LockReleasesMu? || At(s, w).LockWaits?) ==>
          Session(At(s, w).event) in s.locks && At(s, w).mutex == s.locks[Session(At(s, w).event)])
  }

  /** A session mutex is locked exactly while one worker is inside the session. */
  ghost predicate HolderInv(s: State) {
    && (forall m :: m in s.locked ==> exists a :: a in s.locks && s.locks[a] == m)
    && (forall v, w, a :: 0 <= v < w < |s.workers| ==> !(Holds(At(s, v), a) && Holds(At(s, w), a)))
    && (forall a :: a in s.locks && s.locks[a] in s.locked ==> exists w :: 0 <= w < |s.workers| && Holds(At(s, w), a))
    && (forall w, a :: 0 <= w < |s.workers| && Holds(At(s, w), a) ==> a in s.locks && s.locks[a] in s.locked)
  }

  function Good(es: seq<Event>): seq<Event> {
    if es == [] then [] else Good(es[..|es| - 1]) + if ValidEvent(es[|es| - 1]) then [es[|es| - 1]] else []
  }

  /** The event that a worker is busy with and has not executed yet. */
  function Current(p: Phase): seq<Event> {
    if p.LockWantsMu? || p.LockHasMu? || p.LockReleasesMu? || p.LockWaits? || p.Executing? then [p.event] else []
  }

  /** A lane executes its valid events once each, in the order they arrived. */
  ghost predicate LaneInv(me: Worker) {
    && me.executed + Current(me.phase) + Good(me.queue) == Good(me.arrived)
    && (!me.phase.Idle? && !me.phase.Stopped? ==> ValidEvent(me.phase.event))
  }

  lemma {:induction false} GoodAppend(a: seq<Event>, b: seq<Event>)
    ensures Good(a + b) == Good(a) + Good(b)
  {
    if b == [] {
      assert a + b == a;
    } else {
      assert (a + b)[..|a + b| - 1] == a + b[..|b| - 1];
      GoodAppend(a, b[..|b| - 1]);
    }
  }

  lemma GoodHead(es: seq<Event>)
    requires es != []
    ensures Good(es) == (if ValidEvent(es[0]) then [es[0]] else []) + Good(es[1..])
  {
    assert es == [es[0]] + es[1..];
    GoodAppend([es[0]], es[1..]);
  }

  lemma InitInv(n: nat)
    ensures Inv(Init(n))
  {
  }

  lemma TakeLane(me: Worker)
    requires LaneInv(me) && me.phase.Idle? && me.queue != []
    ensures LaneInv(me.(queue := me.queue[1..], phase := Taken(me.queue[0])))
  {
    hide Good;
    GoodHead(me.queue);
  }

  lemma BusyLane(me: Worker, p: Phase)
    requires LaneInv(me) && !me.phase.Idle? && !me.phase.Stopped? && Current(p) == Current(me.phase)
    requires p.Idle? || (!p.Stopped? && p.event == me.phase.event)
    ensures LaneInv(me.(phase := p))
  {
  }

  lemma LaneStep(s: State, w: nat)
    requires w < |s.workers| && Enabled(s, w) && LaneInv(s.workers[w])
    ensures LaneInv(Step(s, w).workers[w])
  {
    hide Good, ValidEvent;
    var me := s.workers[w];
    if me.phase.Idle? {
      TakeLane(me);
    } else if !me.phase.Executing? {
      BusyLane(me, At(Step(s, w), w));
    }
  }

  /** As far as another worker can see: only the entry of `w` changes, and names that are
      bound to a mutex stay bound to it. */
  ghost predicate Local(s: State, t: State, w: nat) {
    && |t.workers| == |s.workers| && w < |s.workers|
    && (forall v :: 0 <= v < |s.workers| && v != w ==> t.workers[v] == s.workers[v])
    && ((t.locks == s.locks && t.made == s.made) ||
        exists a :: a !in s.locks && t.locks == s.locks[a := s.made] && t.made == s.made + 1)
  }

  lemma StepIsLocal(s: State, w: nat)
    requires w < |s.workers| && Enabled(s, w)
    ensures Local(s, Step(s, w), w)
  {
  }

  /** Taking, giving back or not touching `m.mu`. */
  predicate MuEffect(s: State, t: State, p: Phase, q: Phase) {
    || (t.muLocked == s.muLocked && HasMu(p) == HasMu(q))
    || (!s.muLocked && t.muLocked && !HasMu(p) && HasMu(q))
    || (!t.muLocked && HasMu(p) && !HasMu(q))
  }

  lemma MuKept(s: State, t: State, w: nat)
    requires Local(s, t, w) && MuInv(s) && MuEffect(s, t, At(s, w), At(t, w))
    ensures MuInv(t)
  {
    hide HasMu;
    if t.muLocked && !HasMu(At(t, w)) {
      var v :| 0 <= v < |s.workers| && HasMu(At(s, v));
      assert HasMu(At(t, v));
    }
    forall v | 0 <= v < |t.workers| && HasMu(At(t, v)) ensures t.muLocked && (HasMu(At(t, w)) ==> v == w) {
      assert v != w ==> HasMu(At(s, v));
      assert HasMu(At(s, w)) ==> v == w || v < w || w < v;
    }
    forall u, v | 0 <= u < v < |t.workers| ensures !(HasMu(At(t, u)) && HasMu(At(t, v))) {
      assert u != w && v != w ==> At(t, u) == At(s, u) && At(t, v) == At(s, v);
    }
  }

  lemma StepMu(s: State, w: nat)
    requires w < |s.workers| && Enabled(s, w)
    ensures MuEffect(s, Step(s, w), At(s, w), At(Step(s, w), w))
  {
  }

  /** The mutex a worker is about to lock is the one its session is bound to. */
  predicate Bound(s: State, p: Phase) {
    p.LockReleasesMu? || p.LockWaits? ==> Session(p.event) in s.locks && p.mutex == s.locks[Session(p.event)]
  }

  lemma BindingKept(s: State, t: State, w: nat)
    requires Local(s, t, w) && BindingInv(s) && Bound(t, At(t, w))
    ensures BindingInv(t)
  {
    forall v | 0 <= v < |t.workers| ensures Bound(t, At(t, v)) {
      if v != w {
        assert At(t, v) == At(s, v);
      }
    }
  }

  lemma StepBinding(s: State, w: nat)
    requires w < |s.workers| && Enabled(s, w) && BindingInv(s)
    ensures Bound(Step(s, w), At(Step(s, w), w))
  {
  }

  /** Locking, unlocking or not touching a session mutex. */
  ghost predicate HolderEffect(s: State, t: State, p: Phase, q: Phase) {
    || (t.locked == s.locked && forall a :: Holds(p, a) <==> Holds(q, a))
    || (exists b ::
          b in s.locks && t.locks == s.locks && s.locks[b] !in s.locked && t.locked == s.locked + {s.locks[b]} &&
          forall a :: !Holds(p, a) && (Holds(q, a) <==> a == b))
    || (exists b ::
          b in s.locks && t.locks == s.locks && s.locks[b] in s.locked && t.locked == s.locked - {s.locks[b]} &&
          forall a :: (Holds(p, a) <==> a == b) && !Holds(q, a))
  }

  lemma LockHolder(s: State, w: nat)
    requires w < |s.workers| && Enabled(s, w) && BindingInv(s) && At(s, w).LockWaits? && ValidEvent(At(s, w).event)
    ensures HolderEffect(s, Step(s, w), At(s, w), At(Step(s, w), w))
  {
    hide ValidEvent;
    assert Bound(s, At(s, w));
    var b := Session(At(s, w).event);
    assert forall a :: !Holds(At(s, w), a) && (Holds(Executing(At(s, w).event), a) <==> a == b) by {
      HoldsOne(Executing(At(s, w).event));
    }
  }

  lemma HoldsOne(p: Phase)
    requires (p.Executing? || p.UnlockWantsMu? || p.UnlockHasMu?) && ValidEvent(p.event)
    ensures forall a :: Holds(p, a) <==> a == Session(p.event)
  {
  }

  lemma UnlockHolder(s: State, w: nat)
    requires w < |s.workers| && HolderInv(s) && At(s, w).UnlockHasMu? && ValidEvent(At(s, w).event)
    ensures HolderEffect(s, Step(s, w), At(s, w), At(Step(s, w), w)) && Step(s, w).crashed == s.crashed
  {
    hide ValidEvent;
    HoldsOne(At(s, w));
    hide Holds;
    assert Holds(At(s, w), Session(At(s, w).event));
    NoHold(At(Step(s, w), w));
  }

  lemma NoHold(p: Phase)
    requires p.UnlockReleasesMu?
    ensures forall a :: !Holds(p, a)
  {
  }

  lemma StepHolder(s: State, w: nat)
    requires w < |s.workers| && Enabled(s, w) && BindingInv(s) && HolderInv(s) && LaneInv(s.workers[w]) && !s.crashed
    ensures HolderEffect(s, Step(s, w), At(s, w), At(Step(s, w), w)) && !Step(s, w).crashed
  {
    hide BindingInv, HolderInv, ValidEvent, Good, Current;
    if At(s, w).LockWaits? {
      LockHolder(s, w);
    } else if At(s, w).UnlockHasMu? {
      UnlockHolder(s, w);
    }
  }

  lemma HolderKept(s: State, t: State, w: nat)
    requires Local(s, t, w) && BindingInv(s) && HolderInv(s) && HolderEffect(s, t, At(s, w), At(t, w))
    ensures HolderInv(t)
  {
    hide Holds;
    forall v, u, a | 0 <= v < u < |t.workers| ensures !(Holds(At(t, v), a) && Holds(At(t, u), a)) {
      assert v != w ==> At(t, v) == At(s, v);
      assert u != w ==> At(t, u) == At(s, u);
    }
    forall v, a | 0 <= v < |t.workers| && Holds(At(t, v), a) ensures a in t.locks && t.locks[a] in t.locked {
      assert v != w ==> Holds(At(s, v), a);
    }
    forall a | a in t.locks && t.locks[a] in t.locked ensures exists v :: 0 <= v < |t.workers| && Holds(At(t, v), a) {
      if a in s.locks && s.locks[a] in s.locked {
        var v :| 0 <= v < |s.workers| && Holds(At(s, v), a);
        assert Holds(At(t, v), a);
      } else {
        assert Holds(At(t, w), a);
      }
    }
    forall m | m in t.locked ensures exists a :: a in t.locks && t.locks[a] == m {
      if m in s.locked {
        var a :| a in s.locks && s.locks[a] == m;
        assert t.locks[a] == m;
      }
    }
  }

  lemma StepInv(s: State, w: nat)
    requires Inv(s) && w < |s.workers| && Enabled(s, w)
    ensures Inv(Step(s, w))
  {
    hide Step, MuInv, BindingInv, HolderInv, LaneInv, MuEffect, Bound, HolderEffect, Enabled;
    var t := Step(s, w);
    StepIsLocal(s, w);
    StepMu(s, w);
    MuKept(s, t, w);
    StepBinding(s, w);
    BindingKept(s, t, w);
    StepHolder(s, w);
    HolderKept(s, t, w);
    LaneStep(s, w);
  }

  lemma {:induction false} SameWorkersInv(s: State, t: State, w: nat)
    requires Inv(s) && Local(s, t, w) && t == s.(workers := t.workers) && LaneInv(t.workers[w])
    requires At(t, w) == At(s, w) || (At(s, w).Idle? && At(t, w).Stopped?)
    ensures Inv(t)
  {
    hide MuInv, BindingInv, HolderInv, LaneInv;
    MuKept(s, t, w);
    BindingKept(s, t, w) by { AlreadyBound(s, w); }
    HolderKept(s, t, w);
  }

  lemma AlreadyBound(s: State, w: nat)
    requires BindingInv(s) && w < |s.workers|
    ensures Bound(s, At(s, w))
  {
  }

  lemma ArriveLane(me: Worker, e: Event)
    requires LaneInv(me)
    ensures LaneInv(me.(queue := me.queue + [e], arrived := me.arrived + [e]))
  {
    GoodAppend(me.queue, [e]);
    GoodAppend(me.arrived, [e]);
  }

  lemma QuitLane(me: Worker)
    requires LaneInv(me) && me.phase.Idle?
    ensures LaneInv(me.(phase := Stopped))
  {
  }

  lemma NextInv(s: State, a: Action)
    requires Inv(s) && Allowed(s, a)
    ensures Inv(Next(s, a)) && Local(s, Next(s, a), a.w)
  {
    hide Step, MuInv, BindingInv, HolderInv, Enabled, Good, LaneInv;
    match a {
      case Work(w) =>
        StepInv(s, w);
        StepIsLocal(s, w);
      case Arrive(w, e) =>
        ArriveLane(s.workers[w], e);
        SameWorkersInv(s, Next(s, a), w);
      case Quit(w) =>
        QuitLane(s.workers[w]);
        SameWorkersInv(s, Next(s, a), w);
    }
  }

  lemma {:induction false} HistoryInv(n: nat, actions: seq<Action>, run: seq<State>, k: nat)
    requires History(n, actions, run) && k < |run|
    ensures Inv(run[k]) && |run[k].workers| == n
  {
    hide Inv, Next, Allowed;
    if k == 0 {
      InitInv(n);
    } else {
      HistoryInv(n, actions, run, k - 1);
      NextInv(run[k - 1], actions[k - 1]);
    }
  }

  // ---- What the protocol is for ----

  /** In every history at most one worker is inside `orch.Execute` for a session, and no
      mutex is ever unlocked that is not locked. */
  lemma MutualExclusion(n: nat, actions: seq<Action>, run: seq<State>, k: nat, v: nat, w: nat)
    requires History(n, actions, run) && k < |run| && v < n && w < n && v != w
    ensures |run[k].workers| == n && !run[k].crashed
    ensures At(run[k], v).Executing? && At(run[k], w).Executing? ==>
              Session(At(run[k], v).event) != Session(At(run[k], w).event)
  {
    hide History;
    HistoryInv(n, actions, run, k);
    var s := run[k];
    assert LaneInv(s.workers[v]) && LaneInv(s.workers[w]);
    if At(s, v).Executing? && At(s, w).Executing? {
      assert Holds(At(s, v), Session(At(s, v).event)) && Holds(At(s, w), Session(At(s, w).event));
    }
  }

  /** A session is bound to one mutex for good. */
  lemma {:induction false} BindingNeverChanges(n: nat, actions: seq<Action>, run: seq<State>, j: nat, k: nat,
                                               session: string)
    requires History(n, actions, run) && j <= k < |run| && session in run[j].locks
    ensures session in run[k].locks && run[k].locks[session] == run[j].locks[session]
  {
    hide Inv, Next, Allowed;
    if j < k {
      BindingNeverChanges(n, actions, run, j, k - 1, session);
      HistoryInv(n, actions, run, k - 1);
      NextInv(run[k - 1], actions[k - 1]);
    }
  }

  /** Some worker still has something to do. */
  ghost predicate Unfinished(s: State) {
    exists w :: 0 <= w < |s.workers| && !At(s, w).Stopped? && (At(s, w).Idle? ==> s.workers[w].queue != [])
  }

  /** No deadlock: while something is left to do, some worker can take a step, because
      whoever owns `m.mu` never blocks. */
  lemma NeverDeadlocked(n: nat, actions: seq<Action>, run: seq<State>, k: nat) returns (w: nat)
    requires History(n, actions, run) && k < |run| && Unfinished(run[k])
    ensures w < |run[k].workers| && Enabled(run[k], w)
  {
    hide History;
    HistoryInv(n, actions, run, k);
    w := SomeoneMoves(run[k]);
  }

  lemma SomeoneMoves(s: State) returns (w: nat)
    requires Inv(s) && Unfinished(s)
    ensures w < |s.workers| && Enabled(s, w)
  {
    hide LaneInv, Holds;
    if s.muLocked {
      w :| 0 <= w < |s.workers| && HasMu(At(s, w));
    } else {
      w :| 0 <= w < |s.workers| && !At(s, w).Stopped? && (At(s, w).Idle? ==> s.workers[w].queue != []);
      if At(s, w).LockWaits? && At(s, w).mutex in s.locked {
        var a := Session(At(s, w).event);
        assert Bound(s, At(s, w));
        w :| 0 <= w < |s.workers| && Holds(At(s, w), a);
        HolderCanMove(s, w, a);
      }
    }
  }

  lemma HolderCanMove(s: State, w: nat, session: string)
    requires w < |s.workers| && Holds(At(s, w), session) && !s.muLocked
    ensures Enabled(s, w)
  {
  }

  // ---- Every history of steps ends ----

  function Rank(p: Phase): nat {
    match p
    case Stopped => 0
    case Idle => 1
    case UnlockReleasesMu(_) => 2
    case UnlockHasMu(_) => 3
    case UnlockWantsMu(_) => 4
    case Executing(_) => 5
    case LockWaits(_, _) => 6
    case LockReleasesMu(_, _) => 7
    case LockHasMu(_) => 8
    case LockWantsMu(_) => 9
  }

  function Left(ws: seq<Worker>): nat {
    if ws == [] then 0 else Left(ws[..|ws| - 1]) + 9 * |ws[|ws| - 1].queue| + Rank(ws[|ws| - 1].phase)
  }

  lemma {:induction false} LeftUpdate(ws: seq<Worker>, w: nat, me: Worker)
    requires w < |ws|
    ensures Left(ws[w := me]) + 9 * |ws[w].queue| + Rank(ws[w].phase) == Left(ws) + 9 * |me.queue| + Rank(me.phase)
  {
    hide Rank;
    var m := |ws| - 1;
    if w < m {
      LeftUpdate(ws[..m], w, me);
      assert ws[w := me][..m] == ws[..m][w := me];
    } else {
      assert ws[w := me][..m] == ws[..m];
    }
  }

  lemma WorkerSteps(s: State, w: nat)
    requires w < |s.workers| && Enabled(s, w)
    ensures var me, p := s.workers[w], Step(s, w).workers[w];
      |Step(s, w).workers| == |s.workers| && 9 * |p.queue| + Rank(p.phase) < 9 * |me.queue| + Rank(me.phase)
  {
  }

  /** Every step of a worker uses up some of the work there is; an event brings at most
      nine steps. */
  lemma StepUsesWork(s: State, a: Action)
    requires Allowed(s, a)
    ensures Left(Next(s, a).workers) + (if a.Arrive? then 0 else 1) <= Left(s.workers) + if a.Arrive? then 9 else 0
  {
    hide Step, Left, Enabled;
    var t := Next(s, a);
    if a.Work? {
      StepIsLocal(s, a.w);
      WorkerSteps(s, a.w);
    }
    LeftUpdate(s.workers, a.w, t.workers[a.w]);
    assert t.workers == s.workers[a.w := t.workers[a.w]];
  }

  function Arrivals(actions: seq<Action>): nat {
    if actions == [] then 0 else Arrivals(actions[..|actions| - 1]) + if actions[|actions| - 1].Arrive? then 1 else 0
  }

  lemma {:induction false} LeftAtStart(n: nat)
    ensures Left(Init(n).workers) == n
  {
    if n > 0 {
      LeftAtStart(n - 1);
      assert Init(n).workers[..n - 1] == Init(n - 1).workers;
    }
  }

  /** In all, `n` workers take at most nine steps for each event that arrives, and one to
      stop: no lane is starved as long as steps are taken. */
  lemma {:induction false} HistoriesEnd(n: nat, actions: seq<Action>, run: seq<State>)
    requires History(n, actions, run)
    ensures |actions| - Arrivals(actions) + Left(run[|actions|].workers) <= n + 9 * Arrivals(actions)
  {
    hide Next, Allowed, Left;
    if actions == [] {
      LeftAtStart(n);
    } else {
      var m := |actions| - 1;
      assert History(n, actions[..m], run[..m + 1]);
      HistoriesEnd(n, actions[..m], run[..m + 1]);
      StepUsesWork(run[m], actions[m]);
    }
  }

  /** When nothing is left to do, every lane that was not stopped has executed exactly its
      valid events, once each and in the order they arrived; a stopped lane a prefix. */
  lemma LanesRunInOrder(n: nat, actions: seq<Action>, run: seq<State>, k: nat, w: nat)
    requires History(n, actions, run) && k < |run| && w < n
    ensures |run[k].workers| == n && run[k].workers[w].executed <= Good(run[k].workers[w].arrived)
    ensures !Unfinished(run[k]) && !At(run[k], w).Stopped? ==>
            run[k].workers[w].executed == Good(run[k].workers[w].arrived)
  {
    hide History;
    HistoryInv(n, actions, run, k);
    var me := run[k].workers[w];
    assert LaneInv(me);
    assert me.executed <= me.executed + Current(me.phase) + Good(me.queue);
    if !Unfinished(run[k]) && !me.phase.Stopped? {
      assert me.phase.Idle? && me.queue == [];
    }
  }

  /** `at` lists the places of the valid events among `es`, in order. */
  ghost predicate Places(es: seq<Event>, at: seq<nat>) {
    && (forall i, j :: 0 <= i < j < |at| ==> at[i] < at[j])
    && (forall p: nat ::
          p in at <==> p < |es| && es[p].Event? && es[p].id != "" && es[p].session != "" && es[p].kind != "")
  }

  lemma PlacesSnoc(es: seq<Event>, at: seq<nat>, e: Event)
    requires Places(es, at)
    ensures Places(es + [e], at + if ValidEvent(e) then [|es|] else [])
  {
    forall i | 0 <= i < |at| ensures at[i] < |es| {
      assert at[i] in at;
    }
  }

  lemma GoodSnoc(es: seq<Event>, e: Event)
    ensures Good(es + [e]) == Good(es) + if ValidEvent(e) then [e] else []
  {
    assert (es + [e])[..|es|] == es;
  }

  lemma {:induction false} GoodAt(es: seq<Event>) returns (at: seq<nat>)
    ensures |at| == |Good(es)| && Places(es, at)
    ensures forall i :: 0 <= i < |at| ==> at[i] < |es| && es[at[i]] == Good(es)[i]
  {
    if es == [] {
      at := [];
    } else {
      hide Good, ValidEvent, Places;
      var m := |es| - 1;
      var before := GoodAt(es[..m]);
      assert es == es[..m] + [es[m]];
      PlacesSnoc(es[..m], before, es[m]);
      GoodSnoc(es[..m], es[m]);
      at := before + if ValidEvent(es[m]) then [m] else [];
    }
  }

  /** Of the events of a lane, those that are not nil and have an ID, a session and a kind are
      executed, in the order they arrived: all of them when nothing is left to do and the lane
      was not stopped, else the first ones. */
  lemma LanesRunTheirEvents(n: nat, actions: seq<Action>, run: seq<State>, k: nat, w: nat) returns (at: seq<nat>)
    requires History(n, actions, run) && k < |run| && w < n
    ensures |run[k].workers| == n
    ensures var me := run[k].workers[w];
      && (forall i, j :: 0 <= i < j < |at| ==> at[i] < at[j])
      && (forall p: nat ::
            p in at <==> p < |me.arrived| && me.arrived[p].Event? && me.arrived[p].id != "" &&
                         me.arrived[p].session != "" && me.arrived[p].kind != "")
      && |me.executed| <= |at| && (!Unfinished(run[k]) && !me.phase.Stopped? ==> |me.executed| == |at|)
      && (forall i :: 0 <= i < |me.executed| ==> at[i] < |me.arrived| && me.executed[i] == me.arrived[at[i]])
  {
    hide History, Unfinished, Good;
    LanesRunInOrder(n, actions, run, k, w);
    at := GoodAt(run[k].workers[w].arrived);
  }
}
