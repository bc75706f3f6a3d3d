/** Calls whose first events name an item only: internal/model/providers/codex/codex.go. Their
    buffer has no call ID until an event with both finds it by the item. */
module CodexThreads {
  import opened Wrappers
  import opened Strings
  import opened CodexModel
  import opened CodexSafety
  import opened CodexInterleaving

  // ---- Streams ----

  /** The operation with the ID of its call filled in. */
  function Named(owner: map<string, string>, op: Op): Op
    requires Consistent(owner, op)
  {
    op.(call := CallOf(owner, op))
  }

  function AllNamed(owner: map<string, string>, ops: seq<Op>): seq<Op>
    requires AllConsistent(owner, ops)
  {
    if ops == [] then [] else AllNamed(owner, ops[..|ops| - 1]) + [Named(owner, ops[|ops| - 1])]
  }

  predicate IsOpen(own: seq<Op>) {
    own != [] && !own[|own| - 1].close
  }

  /** The open buffer of a call with these operations has not been told its call ID. */
  predicate Anonymous(own: seq<Op>) {
    IsOpen(own) && own[|own| - 1].call == "" && (!IsOpen(own[..|own| - 1]) || Anonymous(own[..|own| - 1]))
  }

  /** The operation finds the open buffer of its call, or opens one: an item without a call
      ID is one that the buffer has seen, unless it opens the buffer; an anonymous buffer is
      found by its item; and it is not closed before its call is known. */
  ghost predicate Threads(j: Json, own: seq<Op>, op: Op) {
    var items := if OneRun(j, own).open_.Some? then OneRun(j, own).open_.value.items else {};
    && (op.call == "" && IsOpen(own) ==> op.item in items)
    && (op.call != "" && Anonymous(own) ==> op.item != "" && op.item in items)
    && (op.call == "" && op.close ==> IsOpen(own) && !Anonymous(own))
  }

  ghost predicate Threaded(j: Json, owner: map<string, string>, ops: seq<Op>) {
    && AllConsistent(owner, ops)
    && forall n :: 0 <= n < |ops| ==> Threads(j, Own(owner, ops[..n], CallOf(owner, ops[n])), ops[n])
  }

  /** At the end every open buffer knows its call. */
  ghost predicate AllKnown(owner: map<string, string>, ops: seq<Op>)
    requires AllConsistent(owner, ops)
  {
    forall c {:trigger Own(owner, ops, c)} :: !Anonymous(Own(owner, ops, c))
  }

  lemma OpenIff(j: Json, own: seq<Op>)
    ensures OneRun(j, own).open_.Some? <==> IsOpen(own)
  {
  }

  // ---- Filling in the call IDs changes nothing that a call does ----

  lemma NamedFits(owner: map<string, string>, op: Op, one: One)
    requires Consistent(owner, op)
    ensures Named(owner, op).call != "" && Consistent(owner, Named(owner, op))
    ensures CallOf(owner, Named(owner, op)) == CallOf(owner, op) && Linked(one, Named(owner, op))
  {
  }

  lemma {:induction false} AllNamedOwn(j: Json, owner: map<string, string>, ops: seq<Op>, c: string)
    requires AllConsistent(owner, ops)
    ensures |AllNamed(owner, ops)| == |ops| && AllConsistent(owner, AllNamed(owner, ops))
    ensures forall n :: 0 <= n < |ops| ==> AllNamed(owner, ops)[n] == Named(owner, ops[n])
    ensures OneRun(j, Own(owner, AllNamed(owner, ops), c)) == OneRun(j, Own(owner, ops, c))
  {
    hide OneStep, OneRun, Own, Named, CallOf, Consistent;
    if ops == [] {
      assert Own(owner, [], c) == [] by { OwnNothing(owner, c); }
    } else {
      var m := |ops| - 1;
      AllNamedOwn(j, owner, ops[..m], c);
      NamedFits(owner, ops[m], One(None, None));
      OwnSnoc(owner, ops[..m], ops[m], c);
      OwnSnoc(owner, AllNamed(owner, ops[..m]), Named(owner, ops[m]), c);
      assert ops == ops[..m] + [ops[m]];
      OneRunSnoc(j, Own(owner, ops[..m], c), ops[m]);
      OneRunSnoc(j, Own(owner, AllNamed(owner, ops[..m]), c), Named(owner, ops[m]));
      SameOneStep(j, owner, OneRun(j, Own(owner, ops[..m], c)), ops[m]);
    }
  }

  lemma SameOneStep(j: Json, owner: map<string, string>, one: One, op: Op)
    requires Consistent(owner, op)
    ensures OneStep(j, one, Named(owner, op)) == OneStep(j, one, op)
  {
    hide Normalize, Blank;
  }

  lemma AllNamedWellLinked(j: Json, owner: map<string, string>, ops: seq<Op>)
    requires AllConsistent(owner, ops)
    ensures WellLinked(j, owner, AllNamed(owner, ops))
  {
    hide OneRun, Own, CallOf, Consistent;
    AllNamedOwn(j, owner, ops, "");
    var named := AllNamed(owner, ops);
    forall n | 0 <= n < |named| ensures Linked(OneRun(j, Own(owner, named[..n], CallOf(owner, named[n]))), named[n]) {
      NamedFits(owner, ops[n], OneRun(j, Own(owner, named[..n], CallOf(owner, named[n]))));
    }
  }

  // ---- The run as it is, beside the run with all call IDs ----

  /** Position `p` is the same in both, or it is an anonymous buffer: in `f` it has the ID of a
      call and that call leads to it, in `s` it has none, and nothing has been emitted of it. */
  ghost predicate SameAt(s: State, f: State, p: nat)
    requires p < |s.calls| && p < |f.calls|
  {
    if s.calls[p].id != "" then f.calls[p] == s.calls[p]
    else
      var c := f.calls[p].id;
      && f.calls[p] == s.calls[p].(id := c) && c != ""
      && c in f.byCall && f.byCall[c] == p && c !in s.byCall && p !in s.emitted
  }

  ghost predicate Beside(s: State, f: State) {
    && s.Wf() && f.Wf()
    && |s.calls| == |f.calls| && s.emitted == f.emitted && s.content == f.content && s.byItem == f.byItem
    && (forall p :: 0 <= p < |s.calls| ==> SameAt(s, f, p))
    && (forall c :: c in s.byCall ==> c in f.byCall && f.byCall[c] == s.byCall[c] && s.calls[s.byCall[c]].id != "")
    && (forall c :: c in f.byCall && c !in s.byCall ==> s.calls[f.byCall[c]].id == "" && f.calls[f.byCall[c]].id == c)
  }

  /** What the stream so far says about the call `c` shows in both states. */
  ghost predicate Tracks(s: State, f: State, c: string, own: seq<Op>) {
    && (c in f.byCall <==> IsOpen(own))
    && (c in f.byCall && c !in s.byCall <==> Anonymous(own))
  }

  lemma SameTarget(j: Json, s: State, f: State, owner: map<string, string>, op: Op, own: seq<Op>)
    requires Beside(s, f) && Tidy(f, owner) && Consistent(owner, op) && Threads(j, own, op)
    requires var c := CallOf(owner, op); Tracks(s, f, c, own) && OpenMatches(f, owner, c, OneRun(j, own))
    ensures Target(s, op.item, op.call) == Target(f, op.item, CallOf(owner, op))
    ensures var c, i := CallOf(owner, op), Target(s, op.item, op.call);
      && c != "" && i <= |s.calls|
      && (c in f.byCall ==> i == f.byCall[c] && i < |s.calls| && f.calls[i].id == c)
      && (c !in f.byCall ==> i == |s.calls|)
  {
    hide OneRun, Safe, SameAt, Anonymous, IsOpen;
    OpenIff(j, own);
    var c := CallOf(owner, op);
    if op.item != "" && op.item in f.byItem {
      assert owner[op.item] == c;
    }
    if c in f.byCall && c !in s.byCall {
      assert Anonymous(own) && IsOpen(own);
      assert op.item in OneRun(j, own).open_.value.items;
    }
  }

  /** The same change to both, at a position that has or gets the call `c`. */
  ghost predicate SameChange(s: State, f: State, t: State, g: State, i: nat, c: string, named: bool) {
    && t.Wf() && g.Wf() && i <= |s.calls| && c != ""
    && t.emitted == s.emitted && g.emitted == f.emitted && t.content == s.content && g.content == f.content
    && t.byItem == g.byItem && |t.calls| == |g.calls| == (if i < |s.calls| then |s.calls| else |s.calls| + 1)
    && |f.calls| == |s.calls|
    && (forall p :: 0 <= p < |s.calls| && p != i ==> t.calls[p] == s.calls[p] && g.calls[p] == f.calls[p])
    && g.calls[i] == t.calls[i].(id := c)
    && t.calls[i].id == (if named then c else if i < |s.calls| then s.calls[i].id else "")
    && t.byCall == (if named then s.byCall[c := i] else s.byCall) && g.byCall == f.byCall[c := i]
    && if i < |s.calls| then c in f.byCall && f.byCall[c] == i && f.calls[i].id == c else c !in f.byCall
  }

  lemma OtherKept(s: State, f: State, t: State, g: State, i: nat, c: string, named: bool, p: nat)
    requires SameChange(s, f, t, g, i, c, named) && p < |s.calls| && p != i && SameAt(s, f, p) && s.emitted == f.emitted
    ensures SameAt(t, g, p)
  {
  }

  lemma OwnKept(s: State, f: State, t: State, g: State, i: nat, c: string, named: bool)
    requires Beside(s, f) && SameChange(s, f, t, g, i, c, named)
    ensures SameAt(t, g, i) && (t.calls[i].id != "" <==> c in t.byCall)
  {
    assert i < |s.calls| ==> SameAt(s, f, i);
    NotYetEmitted(s, i);
  }

  lemma BesideKept(s: State, f: State, t: State, g: State, i: nat, c: string, named: bool)
    requires Beside(s, f) && SameChange(s, f, t, g, i, c, named)
    ensures Beside(t, g) && (t.calls[i].id != "" <==> c in t.byCall)
  {
    hide SameAt;
    OwnKept(s, f, t, g, i, c, named);
    forall p | 0 <= p < |t.calls| ensures SameAt(t, g, p) {
      if p != i {
        OtherKept(s, f, t, g, i, c, named, p);
      }
    }
    KeysKept(s, f, t, g, i, c, named);
  }

  lemma KeysKept(s: State, f: State, t: State, g: State, i: nat, c: string, named: bool)
    requires Beside(s, f) && SameChange(s, f, t, g, i, c, named) && (t.calls[i].id != "" <==> c in t.byCall)
    ensures forall d :: d in t.byCall ==> d in g.byCall && g.byCall[d] == t.byCall[d] && t.calls[t.byCall[d]].id != ""
    ensures forall d :: d in g.byCall && d !in t.byCall ==>
            t.calls[g.byCall[d]].id == "" && g.calls[g.byCall[d]].id == d
  {
    hide SameAt;
    forall d | d in t.byCall ensures d in g.byCall && g.byCall[d] == t.byCall[d] && t.calls[t.byCall[d]].id != "" {
      if d != c {
        assert d in s.byCall;
      }
    }
    forall d | d in g.byCall && d !in t.byCall ensures t.calls[g.byCall[d]].id == "" && g.calls[g.byCall[d]].id == d {
      if d != c {
        assert d in f.byCall && d !in s.byCall;
      }
    }
  }

  lemma NotYetEmitted(s: State, i: nat)
    requires s.Wf()
    ensures i == |s.calls| ==> i !in s.emitted
  {
    if i in s.emitted {
      var k :| 0 <= k < |s.emitted| && s.emitted[k] == i;
      assert s.emitted[k] < |s.calls|;
    }
  }

  lemma TouchedBeside(j: Json, s: State, f: State, owner: map<string, string>, op: Op, own: seq<Op>)
    requires Beside(s, f) && Tidy(f, owner) && Consistent(owner, op) && Threads(j, own, op)
    requires var c := CallOf(owner, op); Tracks(s, f, c, own) && OpenMatches(f, owner, c, OneRun(j, own))
    ensures var t, g := Touched(s, op), Touched(f, Named(owner, op));
      var c, i := CallOf(owner, op), Target(s, op.item, op.call);
      && Beside(t, g) && i < |t.calls| && g.calls[i].id == c && c in g.byCall && g.byCall[c] == i
      && (c in t.byCall <==> op.call != "" || c in s.byCall)
      && (t.calls[i].id != "" <==> c in t.byCall)
      && (forall d :: d != c ==> (d in t.byCall <==> d in s.byCall) && (d in g.byCall <==> d in f.byCall))
  {
    hide Touched, Target, Safe, OneRun, Anonymous, Threads, OpenMatches, Tidy, Tracks, SameAt;
    var c, i := CallOf(owner, op), Target(s, op.item, op.call);
    SameTarget(j, s, f, owner, op, own);
    var x, y :=
      (if i < |s.calls| then s.calls[i] else Call("", "", "")),
      (if i < |f.calls| then f.calls[i] else Call("", "", ""));
    TouchedEffect(s, op, x);
    TouchedEffect(f, Named(owner, op), y);
    SameContents(s, f, i);
    TouchedContent(s, op);
    TouchedContent(f, Named(owner, op));
    BesideKept(s, f, Touched(s, op), Touched(f, Named(owner, op)), i, c, op.call != "");
  }

  lemma SameContents(s: State, f: State, i: nat)
    requires Beside(s, f)
    ensures i < |s.calls| ==> f.calls[i].name == s.calls[i].name && f.calls[i].input == s.calls[i].input
    ensures i < |s.calls| && s.calls[i].id != "" ==> f.calls[i] == s.calls[i]
  {
    assert i < |s.calls| ==> SameAt(s, f, i);
  }

  lemma TouchedContent(s: State, op: Op)
    requires s.Wf()
    ensures Touched(s, op).content == s.content
  {
  }

  // ---- Emitting and forgetting ----

  lemma {:induction false} SameFind(s: seq<Call>, f: seq<Call>, emitted: seq<nat>, id: string, k: nat)
    requires |s| == |f| && k <= |emitted|
    requires forall n :: 0 <= n < |emitted| ==> emitted[n] < |s| && s[emitted[n]] == f[emitted[n]]
    ensures FindEmitted(s, emitted, id, k) == FindEmitted(f, emitted, id, k)
    decreases |emitted| - k
  {
    if k < |emitted| {
      SameFind(s, f, emitted, id, k + 1);
    }
  }

  lemma EmittedAreSame(s: State, f: State, n: nat)
    requires Beside(s, f) && n < |s.emitted|
    ensures f.calls[s.emitted[n]] == s.calls[s.emitted[n]] && s.calls[s.emitted[n]].id != ""
  {
    assert SameAt(s, f, s.emitted[n]);
  }

  /** An emission at a known position changes both alike. */
  lemma EmittedAlike(j: Json, s: State, f: State, i: nat)
    requires Beside(s, f) && i < |s.calls| && s.calls[i].id != ""
    ensures var t, g := Emitted(j, s, i), Emitted(j, f, i);
      && t.emitted == g.emitted && (t.emitted == s.emitted || t.emitted == s.emitted + [i])
      && forall p :: 0 <= p < |s.calls| ==>
           if s.calls[p].id == "" then t.calls[p] == s.calls[p] && g.calls[p] == f.calls[p]
           else g.calls[p] == t.calls[p] && t.calls[p].id != ""
  {
    hide Normalize, Blank, Decimal;
    assert SameAt(s, f, i);
    forall n | 0 <= n < |s.emitted|
      ensures f.calls[s.emitted[n]] == s.calls[s.emitted[n]] && s.calls[s.emitted[n]].id != ""
    {
      EmittedAreSame(s, f, n);
    }
    forall p | 0 <= p < |s.calls| && s.calls[p].id != "" ensures f.calls[p] == s.calls[p] {
      assert SameAt(s, f, p);
    }
    var c := Call(s.calls[i].id, s.calls[i].name, Normalize(j, s.calls[i].input));
    SameFind(s.calls[i := c], f.calls[i := c], s.emitted, c.id, 0);
  }

  /** Forgetting a known buffer removes the key of its call, and nothing else from `byCall`. */
  lemma ClosedKeys(s: State, i: nat, item: string, call: string, c: string)
    requires s.Wf() && c in s.byCall && s.byCall[c] == i && (call == "" || call == c)
    requires forall d :: d in s.byCall && s.byCall[d] == i ==> d == c
    ensures Removed(s, i, item, call).byCall == s.byCall - {c}
  {
  }

  lemma ClosedBeside(j: Json, s: State, f: State, owner: map<string, string>, i: nat, op: Op)
    requires Beside(s, f) && Tidy(f, owner) && Consistent(owner, op)
    requires var c := CallOf(owner, op); i < |s.calls| && s.calls[i].id == c && c in s.byCall && s.byCall[c] == i
    ensures var t := Removed(Emitted(j, s, i), i, op.item, op.call);
      var g := Removed(Emitted(j, f, i), i, op.item, CallOf(owner, op));
      Beside(t, g) && t.byCall == s.byCall - {CallOf(owner, op)} && g.byCall == f.byCall - {CallOf(owner, op)}
  {
    var c := CallOf(owner, op);
    EmittedAlike(j, s, f, i);
    EmittedKeepsKeys(j, s, i);
    EmittedKeepsKeys(j, f, i);
    forall d | d in f.byCall && f.byCall[d] == i ensures d == c {
      assert f.calls[i].id == d && SameAt(s, f, i);
    }
    ClosedKeys(Emitted(j, s, i), i, op.item, op.call, c);
    ClosedKeys(Emitted(j, f, i), i, op.item, c, c);
    BesideAfterClosing(s, f, Removed(Emitted(j, s, i), i, op.item, op.call), Removed(Emitted(j, f, i), i, op.item, c),
                       i, c);
  }

  lemma EmittedKeepsKeys(j: Json, s: State, i: nat)
    requires s.Wf() && i < |s.calls|
    ensures var t := Emitted(j, s, i);
      t.byItem == s.byItem && t.byCall == s.byCall && t.content == s.content && |t.calls| == |s.calls|
  {
  }

  lemma BesideAfterClosing(s: State, f: State, t: State, g: State, i: nat, c: string)
    requires Beside(s, f) && t.Wf() && g.Wf() && t.byItem == g.byItem && t.content == g.content
    requires i < |s.calls| && s.calls[i].id == c && c in s.byCall && s.byCall[c] == i && c != ""
    requires t.byCall == s.byCall - {c} && g.byCall == f.byCall - {c}
    requires |t.calls| == |g.calls| == |s.calls| && t.emitted == g.emitted &&
             (t.emitted == s.emitted || t.emitted == s.emitted + [i])
    requires forall p :: 0 <= p < |s.calls| ==>
      if s.calls[p].id == "" then t.calls[p] == s.calls[p] && g.calls[p] == f.calls[p]
      else g.calls[p] == t.calls[p] && t.calls[p].id != ""
    ensures Beside(t, g)
  {
    forall p | 0 <= p < |t.calls| ensures SameAt(t, g, p) {
      assert SameAt(s, f, p);
    }
  }

  // ---- Whole streams ----

  /** The changes of both runs at once: what is left of the proof once the targets agree. */
  lemma StepBeside(j: Json, s: State, f: State, owner: map<string, string>, op: Op, own: seq<Op>)
    requires Beside(s, f) && Tidy(f, owner) && Consistent(owner, op) && Threads(j, own, op)
    requires var c := CallOf(owner, op); Tracks(s, f, c, own) && OpenMatches(f, owner, c, OneRun(j, own))
    ensures var t, g, c := OpStep(j, s, op), OpStep(j, f, Named(owner, op)), CallOf(owner, op);
      && Beside(t, g) && Tracks(t, g, c, own + [op])
      && (forall d :: d != c ==> (d in t.byCall <==> d in s.byCall) && (d in g.byCall <==> d in f.byCall))
  {
    hide Touched, Target, Tidy, Threads, OpenMatches, OneRun, Beside, Anonymous, Emitted, Removed, IsOpen, CallOf,
      Consistent;
    BesideWf(s, f);
    var c, i := CallOf(owner, op), Target(s, op.item, op.call);
    var t, g := Touched(s, op), Touched(f, Named(owner, op));
    TouchedBeside(j, s, f, owner, op, own);
    SameTarget(j, s, f, owner, op, own);
    NamedFits(owner, op, OneRun(j, own));
    TouchedTidy(f, owner, Named(owner, op), c, OneRun(j, own));
    NextAnonymous(own, op);
    if op.close {
      ClosingIsKnown(j, own, op);
      KnownPosition(t, g, i, c);
      ClosedBeside(j, t, g, owner, i, op);
    }
  }

  lemma BesideWf(s: State, f: State)
    requires Beside(s, f)
    ensures s.Wf() && f.Wf() && forall c :: c in s.byCall ==> c in f.byCall
  {
  }

  lemma NextAnonymous(own: seq<Op>, op: Op)
    ensures IsOpen(own + [op]) <==> !op.close
    ensures Anonymous(own + [op]) <==> !op.close && op.call == "" && (!IsOpen(own) || Anonymous(own))
  {
    assert (own + [op])[..|own|] == own;
  }

  lemma ClosingIsKnown(j: Json, own: seq<Op>, op: Op)
    requires Threads(j, own, op) && op.close
    ensures op.call != "" || (IsOpen(own) && !Anonymous(own))
  {
  }

  lemma KnownPosition(s: State, f: State, i: nat, c: string)
    requires Beside(s, f) && i < |s.calls| && f.calls[i].id == c && s.calls[i].id != "" && c in s.byCall &&
             c in f.byCall && f.byCall[c] == i
    ensures s.calls[i].id == c && s.byCall[c] == i
  {
    assert SameAt(s, f, i);
  }

  /** A threaded stream runs beside the one with all call IDs filled in, and the calls whose
      buffers differ are the anonymous ones. */
  lemma {:induction false} RunBeside(j: Json, owner: map<string, string>, ops: seq<Op>)
    requires Threaded(j, owner, ops)
    ensures Beside(RunOps(j, Empty, ops), RunOps(j, Empty, AllNamed(owner, ops)))
    ensures forall c :: Tracks(RunOps(j, Empty, ops), RunOps(j, Empty, AllNamed(owner, ops)), c, Own(owner, ops, c))
  {
    hide OpStep, Tidy, Simulates, OneRun, Threads, Beside, Tracks, Own, CallOf, Consistent, Named;
    if ops == [] {
      EmptyBeside(j, owner);
    } else {
      var m := |ops| - 1;
      var before, op := ops[..m], ops[m];
      ThreadedPrefix(j, owner, ops);
      RunBeside(j, owner, before);
      OneMore(j, owner, before, op);
      assert ops == before + [op];
    }
  }

  lemma EmptyBeside(j: Json, owner: map<string, string>)
    ensures AllNamed(owner, []) == [] && Beside(RunOps(j, Empty, []), RunOps(j, Empty, []))
    ensures forall c :: Tracks(RunOps(j, Empty, []), RunOps(j, Empty, []), c, Own(owner, [], c))
  {
  }

  lemma ThreadedPrefix(j: Json, owner: map<string, string>, ops: seq<Op>)
    requires Threaded(j, owner, ops) && ops != []
    ensures var m := |ops| - 1;
      && Threaded(j, owner, ops[..m]) && Consistent(owner, ops[m])
      && Threads(j, Own(owner, ops[..m], CallOf(owner, ops[m])), ops[m])
  {
    hide Threads, Own, Consistent;
    var m := |ops| - 1;
    forall n | 0 <= n < m ensures ops[..m][..n] == ops[..n] {
    }
  }

  lemma OneMore(j: Json, owner: map<string, string>, before: seq<Op>, op: Op)
    requires AllConsistent(owner, before) && Consistent(owner, op)
    requires Threads(j, Own(owner, before, CallOf(owner, op)), op)
    requires var s, f := RunOps(j, Empty, before), RunOps(j, Empty, AllNamed(owner, before));
      Beside(s, f) && forall c :: Tracks(s, f, c, Own(owner, before, c))
    ensures AllConsistent(owner, before + [op])
    ensures var t, g := RunOps(j, Empty, before + [op]), RunOps(j, Empty, AllNamed(owner, before + [op]));
      Beside(t, g) && forall c :: Tracks(t, g, c, Own(owner, before + [op], c))
  {
    hide OpStep, Tidy, OneRun, Threads, Beside, Own, CallOf, Consistent, Named, OpenMatches, ShownMatches, Anonymous,
      IsOpen, Tracks;
    var d := CallOf(owner, op);
    AllNamedWellLinked(j, owner, before);
    AllNamedOwn(j, owner, before, d);
    RunSimulates(j, owner, AllNamed(owner, before), d);
    StepBeside(j, RunOps(j, Empty, before), RunOps(j, Empty, AllNamed(owner, before)), owner, op,
               Own(owner, before, d));
    RunMore(j, owner, before, op);
    forall c
      ensures Tracks(RunOps(j, Empty, before + [op]), RunOps(j, Empty, AllNamed(owner, before + [op])), c,
                     Own(owner, before + [op], c))
    {
      TracksMore(j, owner, before, op, c);
    }
  }

  lemma RunMore(j: Json, owner: map<string, string>, before: seq<Op>, op: Op)
    requires AllConsistent(owner, before) && Consistent(owner, op)
    ensures AllConsistent(owner, before + [op])
    ensures RunOps(j, Empty, before + [op]) == OpStep(j, RunOps(j, Empty, before), op)
    ensures RunOps(j, Empty, AllNamed(owner, before + [op])) ==
            OpStep(j, RunOps(j, Empty, AllNamed(owner, before)), Named(owner, op))
  {
    hide OpStep, Named, Consistent;
    assert (before + [op])[..|before|] == before;
    RunOpsSnoc(j, Empty, before, op);
    RunOpsSnoc(j, Empty, AllNamed(owner, before), Named(owner, op));
  }

  lemma TracksMore(j: Json, owner: map<string, string>, before: seq<Op>, op: Op, c: string)
    requires AllConsistent(owner, before) && Consistent(owner, op) && AllConsistent(owner, before + [op])
    requires var s, f := RunOps(j, Empty, before), RunOps(j, Empty, AllNamed(owner, before));
      var t, g, d := OpStep(j, s, op), OpStep(j, f, Named(owner, op)), CallOf(owner, op);
      && Tracks(s, f, c, Own(owner, before, c)) && Tracks(t, g, d, Own(owner, before, d) + [op])
      && (c != d ==> (c in t.byCall <==> c in s.byCall) && (c in g.byCall <==> c in f.byCall))
    ensures Tracks(RunOps(j, Empty, before + [op]), RunOps(j, Empty, AllNamed(owner, before + [op])), c,
                   Own(owner, before + [op], c))
  {
    hide OpStep, RunOps, Own, CallOf, Consistent, Named, Anonymous, IsOpen;
    RunMore(j, owner, before, op);
    OwnSnoc(owner, before, op, c);
  }

  // ---- The main result ----

  lemma NothingAnonymous(s: State, f: State, owner: map<string, string>, ops: seq<Op>)
    requires AllConsistent(owner, ops) && AllKnown(owner, ops) && Beside(s, f)
    requires forall c :: Tracks(s, f, c, Own(owner, ops, c))
    ensures s == f
  {
    hide Anonymous, Own, IsOpen;
    forall c | c in f.byCall ensures c in s.byCall {
      assert Tracks(s, f, c, Own(owner, ops, c));
    }
    forall p | 0 <= p < |s.calls| ensures s.calls[p] == f.calls[p] {
      assert SameAt(s, f, p);
    }
    assert s.byCall == f.byCall && s.calls == f.calls;
  }

  /** Whatever the interleaving with other calls, and whether its first events carry its ID or
      only its item, the answer for `c` is computed from the operations of `c` alone. */
  lemma InterleavingIsIrrelevant(j: Json, owner: map<string, string>, ops: seq<Op>, c: string)
    requires Threaded(j, owner, ops) && AllKnown(owner, ops) && c != ""
    ensures Answers(Finished(j, RunOps(j, Empty, ops)), c, OneEnd(j, OneRun(j, Own(owner, ops, c))))
  {
    hide Answers, Finished, Beside, Tracks, OneRun, OneEnd, Own, WellLinked, AllKnown;
    RunBeside(j, owner, ops);
    NothingAnonymous(RunOps(j, Empty, ops), RunOps(j, Empty, AllNamed(owner, ops)), owner, ops);
    AllNamedWellLinked(j, owner, ops);
    AllNamedOwn(j, owner, ops, c);
    LinkedInterleaving(j, owner, AllNamed(owner, ops), c);
  }

  lemma {:induction false} LinkedIsKnown(j: Json, owner: map<string, string>, ops: seq<Op>, c: string)
    requires WellLinked(j, owner, ops)
    ensures !Anonymous(Own(owner, ops, c))
  {
    hide OneRun, Own, CallOf, Consistent, Anonymous, IsOpen;
    if ops == [] {
      OwnNothing(owner, c);
      assert !Anonymous([]) by { NothingIsAnonymous(); }
    } else {
      var m := |ops| - 1;
      var op := ops[m];
      WellLinkedPrefix(j, owner, ops);
      LinkedIsKnown(j, owner, ops[..m], c);
      OwnSnoc(owner, ops[..m], op, c);
      assert ops == ops[..m] + [op];
      OpenIff(j, Own(owner, ops[..m], c));
      NextAnonymous(Own(owner, ops[..m], c), op);
    }
  }

  lemma NothingIsAnonymous()
    ensures !Anonymous([])
  {
  }

  /** A stream whose item-only operations all find an open buffer is one of these. */
  lemma LinkedIsThreaded(j: Json, owner: map<string, string>, ops: seq<Op>)
    requires WellLinked(j, owner, ops)
    ensures Threaded(j, owner, ops) && AllKnown(owner, ops)
  {
    hide OneRun, Own, CallOf, Consistent, Anonymous, IsOpen;
    forall n | 0 <= n < |ops| ensures Threads(j, Own(owner, ops[..n], CallOf(owner, ops[n])), ops[n]) {
      var own := Own(owner, ops[..n], CallOf(owner, ops[n]));
      LinkedStart(j, owner, ops, n);
      LinkedIsKnown(j, owner, ops[..n], CallOf(owner, ops[n]));
      OpenIff(j, own);
    }
    forall c ensures !Anonymous(Own(owner, ops, c)) {
      LinkedIsKnown(j, owner, ops, c);
    }
  }

  lemma LinkedStart(j: Json, owner: map<string, string>, ops: seq<Op>, n: nat)
    requires WellLinked(j, owner, ops) && n <= |ops|
    ensures WellLinked(j, owner, ops[..n])
  {
    hide OneRun, Own, CallOf, Consistent;
    forall k | 0 <= k < n ensures ops[..n][..k] == ops[..k] {
    }
  }

  // ---- Where the order does matter ----

  /** A call that is closed before its ID is known gets one by its place in the list: alone it
      is `call_1` when it comes first, and `call_2` after another call. */
  lemma MadeUpIdDependsOnOrder(j: Json)
    ensures var o, k := Op("x", "", "n", "", "", true), Op("", "k", "n", "", "", true);
      EmittedIds(RunOps(j, Empty, [o, k])) == ["call_1", "k"] && EmittedIds(RunOps(j, Empty, [k, o])) == ["k", "call_2"]
  {
    hide RunOps, EmittedIds;
    var o, k := Op("x", "", "n", "", "", true), Op("", "k", "n", "", "", true);
    assert !IsSpace('n') && !Blank("n") by { TrimmedIsFixed("n"); }
    assert Decimal(1) == "1" && Decimal(2) == "2";
    TwoClosed(j, o, k, "call_1", "k");
    TwoClosed(j, k, o, "k", "call_2");
  }

  /** A call that is closed when more calls are listed keeps its ID exactly when it has one. */
  lemma SameIdAnywhereIff(s: State, t: State, i: nat)
    requires i < |s.calls| && i < |t.calls| && s.calls[i] == t.calls[i] && |s.emitted| != |t.emitted|
    ensures FinalId(s, i) == FinalId(t, i) <==> s.calls[i].id != ""
  {
    hide Decimal;
    var m, n := Decimal(|s.emitted| + 1), Decimal(|t.emitted| + 1);
    if "call_" + m == "call_" + n {
      assert ("call_" + m)[5..] == m && ("call_" + n)[5..] == n;
      DecimalInjective(|s.emitted| + 1, |t.emitted| + 1);
    }
  }

  lemma TwoClosed(j: Json, a: Op, b: Op, idA: string, idB: string)
    requires a.close && b.close && !Blank(a.name) && !Blank(b.name) && idA != idB
    requires idA == if a.call != "" then a.call else "call_" + Decimal(1)
    requires idB == if b.call != "" then b.call else "call_" + Decimal(2)
    ensures EmittedIds(RunOps(j, Empty, [a, b])) == [idA, idB]
  {
    hide OpStep, Blank, Decimal;
    RunOneAfter(j, [], a);
    RunOneAfter(j, [a], b);
    RunNoOps(j, Empty);
    ClosedAlone(j, Empty, a, idA);
    var s := RunOps(j, Empty, [a]);
    assert |s.emitted| == |EmittedIds(s)| == 1;
    ClosedAlone(j, s, b, idB);
  }

  lemma RunOneAfter(j: Json, ops: seq<Op>, op: Op)
    ensures RunOps(j, Empty, ops + [op]) == OpStep(j, RunOps(j, Empty, ops), op)
    ensures ops == [] ==> ops + [op] == [op]
    ensures |ops| == 1 ==> ops + [op] == [ops[0], op]
  {
    RunOpsSnoc(j, Empty, ops, op);
  }

  /** An operation that opens and closes a visible buffer lists it, under this ID. */
  lemma ClosedAlone(j: Json, st: State, op: Op, id: string)
    requires st.Wf() && st.byItem == map[] && st.byCall == map[] && op.close && !Blank(op.name) && id !in EmittedIds(st)
    requires id == if op.call != "" then op.call else "call_" + Decimal(|st.emitted| + 1)
    ensures var s := OpStep(j, st, op);
      s.byItem == map[] && s.byCall == map[] && EmittedIds(s) == EmittedIds(st) + [id]
  {
    hide Normalize, Blank, Decimal, Edited;
    var i, s := |st.calls|, Touched(st, op);
    TouchedEffect(st, op, Call("", "", ""));
    forall n | 0 <= n < |s.emitted| ensures s.calls[s.emitted[n]].id != id && s.emitted[n] != i {
      assert EmittedIds(st)[n] in EmittedIds(st);
    }
  }
}
