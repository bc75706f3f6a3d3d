/** Each call's result depends on its own events only: internal/model/providers/codex/codex.go. */
module CodexInterleaving {
  import opened Wrappers
  import opened Strings
  import opened CodexModel
  import opened CodexSafety

  // ---- One call on its own ----

  datatype Buffer = Buffer(name: string, input: string, items: set<string>)

  datatype Entry = Entry(name: string, input: string)

  /** One call, seen alone: the buffer being filled, if any, and the entry shown so far. */
  datatype One = One(open_: Option<Buffer>, shown: Option<Entry>)

  function Filled(one: One, op: Op): Buffer {
    var b := match one.open_ case Some(b) => b case None => Buffer("", "", {});
    Buffer(if b.name == "" && op.name != "" then op.name else b.name,
           Edited(b.input, op),
           if op.item != "" then b.items + {op.item} else b.items)
  }

  function OneStep(j: Json, one: One, op: Op): One {
    var b := Filled(one, op);
    if !op.close then One(Some(b), one.shown)
    else if Blank(b.name) then One(None, one.shown)
    else One(None, Some(Entry(b.name, Normalize(j, b.input))))
  }

  /** The end of the stream shows a buffer that is still open, and normalises once more
      what was shown before. */
  function OneEnd(j: Json, one: One): Option<Entry> {
    if one.open_.Some? && !Blank(one.open_.value.name) then
      Some(Entry(one.open_.value.name, Normalize(j, one.open_.value.input)))
    else match one.shown
      case Some(e) => Some(Entry(e.name, Normalize(j, e.input)))
      case None => None
  }

  // ---- Streams whose IDs are consistent ----

  /** `owner` says which call an item belongs to. An operation names its call, or an
      item of it; when it names both, they agree. */
  predicate Consistent(owner: map<string, string>, op: Op) {
    && (op.item != "" ==> op.item in owner && owner[op.item] != "")
    && (op.item != "" && op.call != "" ==> owner[op.item] == op.call)
    && (op.call == "" ==> op.item != "")
  }

  function CallOf(owner: map<string, string>, op: Op): string
    requires Consistent(owner, op)
  {
    if op.call != "" then op.call else owner[op.item]
  }

  ghost predicate AllConsistent(owner: map<string, string>, ops: seq<Op>) {
    forall n :: 0 <= n < |ops| ==> Consistent(owner, ops[n])
  }

  /** The operations of `ops` that concern the call `c`, in order. */
  function Own(owner: map<string, string>, ops: seq<Op>, c: string): seq<Op>
    requires AllConsistent(owner, ops)
  {
    if ops == [] then []
    else Own(owner, ops[..|ops| - 1], c) + if CallOf(owner, ops[|ops| - 1]) == c then [ops[|ops| - 1]] else []
  }

  function OneRun(j: Json, own: seq<Op>): One {
    if own == [] then One(None, None) else OneStep(j, OneRun(j, own[..|own| - 1]), own[|own| - 1])
  }

  /** An operation without a call ID uses an item that the open buffer of its call has seen. */
  predicate Linked(one: One, op: Op) {
    op.call == "" ==> one.open_.Some? && op.item in one.open_.value.items
  }

  ghost predicate WellLinked(j: Json, owner: map<string, string>, ops: seq<Op>) {
    && AllConsistent(owner, ops)
    && forall n :: 0 <= n < |ops| ==>
         Linked(OneRun(j, Own(owner, ops[..n], CallOf(owner, ops[n]))), ops[n])
  }

  // ---- The simulation ----

  /** Buffers of such a stream carry their call ID from the start, and each map entry
      leads to the open buffer of its own call. */
  ghost predicate Tidy(st: State, owner: map<string, string>) {
    && Safe(st)
    && (forall i :: 0 <= i < |st.calls| ==> st.calls[i].id != "")
    && (forall c :: c in st.byCall ==> st.calls[st.byCall[c]].id == c)
    && (forall t :: t in st.byItem ==>
          t in owner && owner[t] in st.byCall && st.byCall[owner[t]] == st.byItem[t])
  }

  /** Position `i` is a buffer of `c` other than the open one. */
  ghost predicate Past(st: State, c: string, i: nat) {
    i < |st.calls| && st.calls[i].id == c && (c in st.byCall ==> i != st.byCall[c])
  }

  /** The shown entry sits in the listed position `e` and in `l`, the last closed buffer
      of `c` with a visible name; outside of `e..l` past buffers have no visible name. */
  ghost predicate ShownAt(st: State, c: string, entry: Entry, e: nat, l: nat) {
    && e <= l && Past(st, c, e) && Past(st, c, l) && e in st.emitted
    && st.calls[e] == st.calls[l] == Call(c, entry.name, entry.input) && !Blank(entry.name)
    && (forall i: nat :: Past(st, c, i) && (i < e || l < i) ==> Blank(st.calls[i].name))
  }

  ghost predicate OpenMatches(st: State, owner: map<string, string>, c: string, one: One) {
    && (one.open_.Some? <==> c in st.byCall)
    && (c in st.byCall ==>
          && st.byCall[c] < |st.calls|
          && st.calls[st.byCall[c]] == Call(c, one.open_.value.name, one.open_.value.input)
          && (forall t :: t in one.open_.value.items <==> t in st.byItem && t in owner && owner[t] == c)
          && (forall i: nat :: Past(st, c, i) ==> i < st.byCall[c]))
  }

  ghost predicate ShownMatches(st: State, c: string, one: One) {
    match one.shown
    case Some(entry) => exists e, l :: ShownAt(st, c, entry, e, l)
    case None =>
      && (forall i: nat :: Past(st, c, i) ==> Blank(st.calls[i].name))
      && (forall i :: i in st.emitted && i < |st.calls| ==> st.calls[i].id != c)
  }

  ghost predicate Simulates(st: State, owner: map<string, string>, c: string, one: One) {
    OpenMatches(st, owner, c, one) && ShownMatches(st, c, one)
  }

  /** The buffer that an operation of a well-linked stream reaches. */
  lemma TargetOfLinked(st: State, owner: map<string, string>, op: Op, one: One)
    requires Tidy(st, owner) && Consistent(owner, op) && Linked(one, op)
    requires OpenMatches(st, owner, CallOf(owner, op), one)
    ensures var c, i := CallOf(owner, op), Target(st, op.item, op.call);
      && c != ""
      && (c in st.byCall ==> i == st.byCall[c])
      && (c !in st.byCall ==> i == |st.calls| && op.call == c)
  {
    var c := CallOf(owner, op);
    if op.item != "" && op.item in st.byItem {
      assert owner[op.item] == c;
    }
  }

  /** Filling buffer `i` changes nothing about other buffers. */
  lemma TouchedEffect(st: State, op: Op, old_: Call)
    requires st.Wf()
    requires var i := Target(st, op.item, op.call);
      old_ == if i < |st.calls| then st.calls[i] else Call("", "", "")
    ensures var s, i := Touched(st, op), Target(st, op.item, op.call);
      && s.emitted == st.emitted
      && |s.calls| == (if i < |st.calls| then |st.calls| else |st.calls| + 1)
      && i < |s.calls|
      && (forall p :: 0 <= p < |st.calls| && p != i ==> s.calls[p] == st.calls[p])
      && s.calls[i] == Call(if op.call != "" then op.call else old_.id,
                            if old_.name == "" && op.name != "" then op.name else old_.name,
                            Edited(old_.input, op))
      && s.byCall == (if op.call != "" then st.byCall[op.call := i] else st.byCall)
      && s.byItem == (if op.item != "" then st.byItem[op.item := i] else st.byItem)
  {
  }

  lemma TouchedTidy(st: State, owner: map<string, string>, op: Op, c: string, one: One)
    requires Tidy(st, owner) && Consistent(owner, op) && Linked(one, op) && c == CallOf(owner, op)
    requires OpenMatches(st, owner, c, one)
    ensures var s, i := Touched(st, op), Target(st, op.item, op.call);
      Tidy(s, owner) && i < |s.calls| && s.calls[i].id == c && c in s.byCall && s.byCall[c] == i
  {
    TargetOfLinked(st, owner, op, one);
    TouchedKeepsEmitted(st, op);
    var i := Target(st, op.item, op.call);
    TouchedEffect(st, op, if i < |st.calls| then st.calls[i] else Call("", "", ""));
    hide Touched, Target, Safe, Edited;
    var s := Touched(st, op);
    assert s.calls[i].id == c;
    forall t | t in s.byItem ensures t in owner && owner[t] in s.byCall && s.byCall[owner[t]] == s.byItem[t] {
      if t != op.item || op.item == "" {
        assert t in st.byItem;
      }
    }
  }

  lemma TouchedOpen(st: State, owner: map<string, string>, op: Op, c: string, one: One)
    requires Tidy(st, owner) && Consistent(owner, op) && Linked(one, op) && c == CallOf(owner, op)
    requires OpenMatches(st, owner, c, one)
    ensures var s := Touched(st, op);
      && OpenMatches(s, owner, c, One(Some(Filled(one, op)), one.shown))
      && (forall p: nat :: Past(s, c, p) <==> Past(st, c, p))
      && (forall p: nat :: Past(s, c, p) ==> s.calls[p] == st.calls[p])
  {
    TouchedTidy(st, owner, op, c, one);
    TargetOfLinked(st, owner, op, one);
    var i := Target(st, op.item, op.call);
    TouchedEffect(st, op, if i < |st.calls| then st.calls[i] else Call("", "", ""));
    hide Touched, Target, Safe, Edited;
    var s, b := Touched(st, op), Filled(one, op);
    assert s.calls[i] == Call(c, b.name, b.input);
    forall t ensures t in b.items <==> t in s.byItem && t in owner && owner[t] == c {
    }
    forall p: nat ensures Past(s, c, p) <==> Past(st, c, p) {
    }
  }

  lemma TouchedOwn(st: State, owner: map<string, string>, op: Op, c: string, one: One)
    requires Tidy(st, owner) && Consistent(owner, op) && Linked(one, op) && c == CallOf(owner, op)
    requires Simulates(st, owner, c, one)
    ensures var s := Touched(st, op);
      Tidy(s, owner) && Simulates(s, owner, c, One(Some(Filled(one, op)), one.shown))
  {
    TouchedTidy(st, owner, op, c, one);
    TouchedOpen(st, owner, op, c, one);
    assert Touched(st, op).emitted == st.emitted;
    hide Touched, Safe, OpenMatches, Filled;
    var s := Touched(st, op);
    if one.shown.Some? {
      var e, l :| ShownAt(st, c, one.shown.value, e, l);
      assert ShownAt(s, c, one.shown.value, e, l);
    } else {
      forall i | i in s.emitted && i < |s.calls| ensures s.calls[i].id != c {
        EmittedKeepsItsCall(st, op, i);
      }
    }
  }

  lemma EmittedKeepsItsCall(st: State, op: Op, i: nat)
    requires Safe(st) && i in st.emitted
    ensures i < |st.calls| && i < |Touched(st, op).calls| && Touched(st, op).calls[i] == st.calls[i]
  {
    var n :| 0 <= n < |st.emitted| && st.emitted[n] == i;
    TouchedKeepsEmitted(st, op);
  }

  /** `t` looks to the call `c` exactly as `s` does. */
  ghost predicate SameFor(s: State, t: State, owner: map<string, string>, c: string) {
    && |s.calls| <= |t.calls|
    && (forall p: nat :: p < |t.calls| && t.calls[p].id == c ==> p < |s.calls|)
    && (forall p: nat :: p < |s.calls| && (s.calls[p].id == c || t.calls[p].id == c) ==> t.calls[p] == s.calls[p])
    && (c in t.byCall <==> c in s.byCall) && (c in s.byCall ==> t.byCall[c] == s.byCall[c])
    && (forall k :: k in owner && owner[k] == c ==> (k in t.byItem <==> k in s.byItem))
    && (forall p: nat :: p < |s.calls| && s.calls[p].id == c ==> (p in t.emitted <==> p in s.emitted))
  }

  lemma SameForKeepsPast(s: State, t: State, owner: map<string, string>, c: string)
    requires SameFor(s, t, owner, c)
    ensures forall p: nat :: Past(t, c, p) <==> Past(s, c, p)
    ensures forall p: nat :: Past(s, c, p) ==> t.calls[p] == s.calls[p]
  {
  }

  lemma SameForKeepsOpen(s: State, t: State, owner: map<string, string>, c: string, one: One)
    requires SameFor(s, t, owner, c) && OpenMatches(s, owner, c, one)
    requires c in s.byCall ==> s.byCall[c] < |s.calls| && s.calls[s.byCall[c]].id == c
    ensures OpenMatches(t, owner, c, one)
  {
    SameForKeepsPast(s, t, owner, c);
    hide Past;
  }

  lemma SameForKeepsShown(s: State, t: State, owner: map<string, string>, c: string, one: One)
    requires SameFor(s, t, owner, c) && ShownMatches(s, c, one)
    ensures ShownMatches(t, c, one)
  {
    SameForKeepsPast(s, t, owner, c);
    if one.shown.Some? {
      var e, l :| ShownAt(s, c, one.shown.value, e, l);
      assert ShownAt(t, c, one.shown.value, e, l);
    }
  }

  lemma SameForKeeps(s: State, t: State, owner: map<string, string>, c: string, one: One)
    requires SameFor(s, t, owner, c) && Simulates(s, owner, c, one)
    requires c in s.byCall ==> s.byCall[c] < |s.calls| && s.calls[s.byCall[c]].id == c
    ensures Simulates(t, owner, c, one)
  {
    SameForKeepsOpen(s, t, owner, c, one);
    SameForKeepsShown(s, t, owner, c, one);
  }

  /** An operation on another call leaves `c` as it is. */
  lemma TouchedOther(st: State, owner: map<string, string>, op: Op, d: string, other: One, c: string)
    requires Tidy(st, owner) && Consistent(owner, op) && Linked(other, op) && d == CallOf(owner, op) && c != d
    requires OpenMatches(st, owner, d, other)
    ensures SameFor(st, Touched(st, op), owner, c)
  {
    TargetOfLinked(st, owner, op, other);
    var i := Target(st, op.item, op.call);
    TouchedEffect(st, op, if i < |st.calls| then st.calls[i] else Call("", "", ""));
    hide Touched, Target, Safe, Edited;
    assert Touched(st, op).calls[i].id == d;
  }

  // ---- Emitting and forgetting the buffer of one call ----

  function Closed(j: Json, st: State, i: nat, op: Op): State
    requires st.Wf() && i < |st.calls|
  {
    Removed(Emitted(j, st, i), i, op.item, op.call)
  }

  /** Emitting one position: IDs stay, and names change only where something was listed. */
  lemma EmittedNames(j: Json, s: State, i: nat, q: nat)
    requires Listed(s) && i < |s.calls| && s.calls[i].id != "" && q < |s.calls|
    ensures Emitted(j, s, i).calls[q].id == s.calls[q].id
    ensures Blank(s.calls[q].name) ==> Emitted(j, s, i).calls[q].name == s.calls[q].name
  {
    ListedMember(s, q);
  }

  lemma ListedMember(s: State, q: nat)
    requires Listed(s)
    ensures q in s.emitted ==> q < |s.calls| && s.calls[q].id != "" && !Blank(s.calls[q].name)
  {
    if q in s.emitted {
      var n :| 0 <= n < |s.emitted| && s.emitted[n] == q;
    }
  }

  /** Closing the open buffer of `d` concerns no other call. */
  lemma ClosedOther(j: Json, st: State, owner: map<string, string>, op: Op, d: string, c: string)
    requires Tidy(st, owner) && Consistent(owner, op) && d == CallOf(owner, op) && c != d && d in st.byCall
    ensures SameFor(st, Closed(j, st, st.byCall[d], op), owner, c)
  {
    var i := st.byCall[d];
    EmittedKeepsListed(j, st, i);
    var e := Emitted(j, st, i);
    forall p | 0 <= p < |st.calls|
      ensures e.calls[p].id == st.calls[p].id
      ensures st.calls[p].id != d ==> e.calls[p] == st.calls[p]
    {
      EmittedNames(j, st, i, p);
      if p != i {
        EmittedChangesOne(j, st, i, p);
      }
    }
    hide Emitted, Safe, Blank;
    var t := Removed(e, i, op.item, op.call);
    forall k | k in owner && owner[k] == c ensures k in t.byItem <==> k in st.byItem {
    }
  }

  lemma EmittedFresh(j: Json, st: State, i: nat)
    requires st.Wf() && i < |st.calls| && !Blank(st.calls[i].name) && st.calls[i].id != ""
    requires forall n :: 0 <= n < |st.emitted| ==> st.calls[st.emitted[n]].id != st.calls[i].id
    ensures var e, c := Emitted(j, st, i), st.calls[i];
      e.calls == st.calls[i := Call(c.id, c.name, Normalize(j, c.input))] && e.emitted == st.emitted + [i]
  {
  }

  lemma EmittedAgain(j: Json, st: State, i: nat, p: nat)
    requires Listed(st) && i < |st.calls| && !Blank(st.calls[i].name) && st.calls[i].id != ""
    requires p in st.emitted && p < |st.calls| && st.calls[p].id == st.calls[i].id
    ensures var e, c := Emitted(j, st, i), st.calls[i];
      var c' := Call(c.id, c.name, Normalize(j, c.input));
      e.calls == st.calls[i := c'][p := c'] && e.emitted == st.emitted
  {
    var c := st.calls[i];
    var calls := st.calls[i := Call(c.id, c.name, Normalize(j, c.input))];
    var k := FindEmitted(calls, st.emitted, c.id, 0);
    var n :| 0 <= n < |st.emitted| && st.emitted[n] == p;
    assert k <= n && st.calls[st.emitted[k]].id == c.id;
  }

  /** With the open buffer `i` closed, the past of `c` is its old past and `i`. */
  lemma PastAfterClose(st: State, s: State, c: string, i: nat)
    requires c in st.byCall && i == st.byCall[c] && i < |st.calls| && st.calls[i].id == c
    requires c !in s.byCall && |s.calls| == |st.calls|
    requires forall p :: 0 <= p < |st.calls| ==> s.calls[p].id == st.calls[p].id
    ensures forall p: nat :: Past(s, c, p) <==> Past(st, c, p) || p == i
  {
  }

  lemma ShownUnchanged(st: State, s: State, owner: map<string, string>, c: string, one: One, i: nat)
    requires OpenMatches(st, owner, c, one) && ShownMatches(st, c, one)
    requires c in st.byCall && i == st.byCall[c] && i < |st.calls| && st.calls[i].id == c
    requires s.calls == st.calls && s.emitted == st.emitted && c !in s.byCall && Blank(st.calls[i].name)
    ensures ShownMatches(s, c, one)
  {
    PastAfterClose(st, s, c, i);
    hide Past, Blank;
    if one.shown.Some? {
      var e, l :| ShownAt(st, c, one.shown.value, e, l);
      assert ShownAt(s, c, one.shown.value, e, l);
    }
  }

  lemma ShownFirst(st: State, s: State, owner: map<string, string>, c: string, one: One, i: nat, entry: Entry)
    requires OpenMatches(st, owner, c, one) && ShownMatches(st, c, one) && one.shown.None?
    requires c in st.byCall && i == st.byCall[c] && i < |st.calls| && st.calls[i].id == c
    requires s.calls == st.calls[i := Call(c, entry.name, entry.input)] && s.emitted == st.emitted + [i] &&
             c !in s.byCall
    requires !Blank(entry.name)
    ensures ShownMatches(s, c, One(None, Some(entry)))
  {
    PastAfterClose(st, s, c, i);
    hide Blank;
    assert i in s.emitted;
    assert ShownAt(s, c, entry, i, i);
  }

  lemma ShownAgain(st: State, s: State, owner: map<string, string>, c: string, one: One, i: nat, entry: Entry, e: nat,
                   l: nat)
    requires OpenMatches(st, owner, c, one) && one.shown.Some? && ShownAt(st, c, one.shown.value, e, l)
    requires c in st.byCall && i == st.byCall[c] && i < |st.calls| && st.calls[i].id == c
    requires s.calls == st.calls[i := Call(c, entry.name, entry.input)][e := Call(c, entry.name, entry.input)]
    requires s.emitted == st.emitted && c !in s.byCall && !Blank(entry.name)
    ensures ShownMatches(s, c, One(None, Some(entry)))
  {
    PastAfterClose(st, s, c, i);
    hide Blank;
    assert ShownAt(s, c, entry, e, i);
  }

  /** After its buffer is closed, the call has no open one and shows what `OneStep` says. */
  lemma ClosedOwn(j: Json, st: State, owner: map<string, string>, op: Op, c: string, one: One)
    requires Tidy(st, owner) && Consistent(owner, op) && c == CallOf(owner, op) && op.close
    requires c in st.byCall && Simulates(st, owner, c, one) && st.byCall[c] < |st.calls|
    ensures var b := one.open_.value;
      Simulates(Closed(j, st, st.byCall[c], op), owner, c,
                One(None, if Blank(b.name) then one.shown else Some(Entry(b.name, Normalize(j, b.input)))))
  {
    var i, b := st.byCall[c], one.open_.value;
    var s := Closed(j, st, i, op);
    assert c !in s.byCall;
    if Blank(b.name) {
      ShownUnchanged(st, s, owner, c, one, i);
    } else if one.shown.Some? {
      var e, l :| ShownAt(st, c, one.shown.value, e, l);
      EmittedAgain(j, st, i, e);
      hide Emitted;
      ShownAgain(st, s, owner, c, one, i, Entry(b.name, Normalize(j, b.input)), e, l);
    } else {
      forall n | 0 <= n < |st.emitted| ensures st.calls[st.emitted[n]].id != c {
        assert st.emitted[n] in st.emitted;
      }
      EmittedFresh(j, st, i);
      hide Emitted;
      ShownFirst(st, s, owner, c, one, i, Entry(b.name, Normalize(j, b.input)));
    }
  }

  lemma ClosedTidy(j: Json, st: State, owner: map<string, string>, op: Op, c: string)
    requires Tidy(st, owner) && Consistent(owner, op) && c == CallOf(owner, op)
    requires c in st.byCall && st.byCall[c] < |st.calls|
    ensures Tidy(Closed(j, st, st.byCall[c], op), owner)
  {
    var i := st.byCall[c];
    var s := Closed(j, st, i, op);
    ClosedSafe(j, st, i, op.item, op.call);
    EmittedKeepsIds(j, st, i);
    hide Emitted, Safe;
    forall t | t in s.byItem ensures t in owner && owner[t] in s.byCall && s.byCall[owner[t]] == s.byItem[t] {
      assert st.byCall[owner[t]] == st.byItem[t] != i;
      assert owner[t] != c;
    }
  }

  lemma EmittedKeepsIds(j: Json, st: State, i: nat)
    requires i < |st.calls| && st.calls[i].id != "" && Safe(st)
    ensures |Emitted(j, st, i).calls| == |st.calls|
    ensures forall p :: 0 <= p < |st.calls| ==> Emitted(j, st, i).calls[p].id == st.calls[p].id
  {
    var e := Emitted(j, st, i);
    forall p | 0 <= p < |st.calls| ensures e.calls[p].id == st.calls[p].id {
      if p != i {
        EmittedChangesOne(j, st, i, p);
      } else if !Blank(st.calls[i].name) {
        EmittedEffect(j, st, i);
      }
    }
  }

  // ---- Whole streams ----

  lemma OpStepTidy(j: Json, st: State, owner: map<string, string>, op: Op, one: One)
    requires Tidy(st, owner) && Consistent(owner, op) && Linked(one, op)
    requires Simulates(st, owner, CallOf(owner, op), one)
    ensures Tidy(OpStep(j, st, op), owner) &&
            Simulates(OpStep(j, st, op), owner, CallOf(owner, op), OneStep(j, one, op))
  {
    var c := CallOf(owner, op);
    var s := Touched(st, op);
    TouchedTidy(st, owner, op, c, one);
    TouchedOwn(st, owner, op, c, one);
    if op.close {
      ClosedTidy(j, s, owner, op, c);
      ClosedOwn(j, s, owner, op, c, One(Some(Filled(one, op)), one.shown));
    }
  }

  lemma OpStepOther(j: Json, st: State, owner: map<string, string>, op: Op, other: One, c: string, one: One)
    requires Tidy(st, owner) && Consistent(owner, op) && Linked(other, op) && c != CallOf(owner, op)
    requires OpenMatches(st, owner, CallOf(owner, op), other) && Simulates(st, owner, c, one)
    ensures Simulates(OpStep(j, st, op), owner, c, one)
  {
    var d := CallOf(owner, op);
    var s := Touched(st, op);
    TouchedTidy(st, owner, op, d, other);
    TouchedOther(st, owner, op, d, other, c);
    SameForKeeps(st, s, owner, c, one);
    if op.close {
      ClosedOther(j, s, owner, op, d, c);
      SameForKeeps(s, Closed(j, s, s.byCall[d], op), owner, c, one);
    }
  }

  lemma EmptySimulates(owner: map<string, string>, c: string)
    ensures Tidy(Empty, owner) && Simulates(Empty, owner, c, One(None, None))
  {
  }

  lemma OneRunSnoc(j: Json, own: seq<Op>, op: Op)
    ensures OneRun(j, own + [op]) == OneStep(j, OneRun(j, own), op)
  {
    assert (own + [op])[..|own|] == own;
  }

  lemma {:induction false} RunSimulates(j: Json, owner: map<string, string>, ops: seq<Op>, c: string)
    requires WellLinked(j, owner, ops)
    ensures Tidy(RunOps(j, Empty, ops), owner)
    ensures Simulates(RunOps(j, Empty, ops), owner, c, OneRun(j, Own(owner, ops, c)))
  {
    hide OpStep, Tidy, Simulates, OneStep, OneRun, Linked, Own, CallOf, Consistent;
    if ops == [] {
      EmptySimulates(owner, c);
      EmptyRun(j);
      OwnNothing(owner, c);
    } else {
      var m := |ops| - 1;
      WellLinkedPrefix(j, owner, ops);
      RunSimulates(j, owner, ops[..m], c);
      RunSimulates(j, owner, ops[..m], CallOf(owner, ops[m]));
      StreamStep(j, owner, ops[..m], ops[m], RunOps(j, Empty, ops[..m]), c);
      assert ops == ops[..m] + [ops[m]];
    }
  }

  lemma OwnNothing(owner: map<string, string>, c: string)
    ensures Own(owner, [], c) == []
  {
  }

  lemma EmptyRun(j: Json)
    ensures OneRun(j, []) == One(None, None)
  {
  }

  lemma WellLinkedPrefix(j: Json, owner: map<string, string>, ops: seq<Op>)
    requires WellLinked(j, owner, ops) && ops != []
    ensures var m := |ops| - 1;
      && WellLinked(j, owner, ops[..m])
      && Linked(OneRun(j, Own(owner, ops[..m], CallOf(owner, ops[m]))), ops[m])
  {
    hide OneRun, Linked;
    var m := |ops| - 1;
    forall n | 0 <= n < m ensures ops[..m][..n] == ops[..n] {
    }
  }

  lemma OwnSnoc(owner: map<string, string>, before: seq<Op>, op: Op, c: string)
    requires AllConsistent(owner, before) && Consistent(owner, op)
    ensures AllConsistent(owner, before + [op])
    ensures Own(owner, before + [op], c) ==
            if CallOf(owner, op) == c then Own(owner, before, c) + [op] else Own(owner, before, c)
  {
    assert (before + [op])[..|before|] == before;
  }

  lemma StreamStep(j: Json, owner: map<string, string>, before: seq<Op>, op: Op, st: State, c: string)
    requires AllConsistent(owner, before) && Consistent(owner, op) && Tidy(st, owner)
    requires var d := CallOf(owner, op);
      Linked(OneRun(j, Own(owner, before, d)), op) && Simulates(st, owner, d, OneRun(j, Own(owner, before, d)))
    requires Simulates(st, owner, c, OneRun(j, Own(owner, before, c)))
    ensures AllConsistent(owner, before + [op]) && Tidy(OpStep(j, st, op), owner)
    ensures Simulates(OpStep(j, st, op), owner, c, OneRun(j, Own(owner, before + [op], c)))
  {
    hide OpStep, Tidy, Simulates, OneStep, OneRun, Linked, Own;
    var d := CallOf(owner, op);
    var other := OneRun(j, Own(owner, before, d));
    OwnSnoc(owner, before, op, c);
    SimulatesOpen(st, owner, d, other);
    OpStepTidy(j, st, owner, op, other);
    if c == d {
      OneRunSnoc(j, Own(owner, before, c), op);
    } else {
      OpStepOther(j, st, owner, op, other, c, OneRun(j, Own(owner, before, c)));
    }
  }

  lemma SimulatesOpen(st: State, owner: map<string, string>, c: string, one: One)
    requires Simulates(st, owner, c, one)
    ensures OpenMatches(st, owner, c, one)
  {
  }

  // ---- The final loop ----

  /** Where the final value of `c` comes from: the last buffer `p` of `c` with a visible
      name. It is the only such buffer, or it is not listed yet. */
  ghost predicate Decides(st: State, c: string, p: nat, entry: Entry) {
    && p < |st.calls| && st.calls[p] == Call(c, entry.name, entry.input) && !Blank(entry.name)
    && (forall i :: p < i < |st.calls| && st.calls[i].id == c ==> Blank(st.calls[i].name))
    && (p !in st.emitted || forall i :: 0 <= i < |st.calls| && st.calls[i].id == c && i != p ==>
        Blank(st.calls[i].name))
  }

  /** What the final loop has reached after `n` positions. */
  ghost predicate Reached(j: Json, st: State, s: State, c: string, p: nat, entry: Entry, n: nat)
    requires p < |st.calls|
  {
    && Listed(s) && |s.calls| == |st.calls|
    && (forall i :: 0 <= i < |st.calls| ==> s.calls[i].id == st.calls[i].id)
    && (forall i :: 0 <= i < |st.calls| && Blank(st.calls[i].name) ==> s.calls[i].name == st.calls[i].name)
    && (n <= p ==> s.calls[p] == st.calls[p] && (p in s.emitted ==> p in st.emitted))
    && (n > p ==> ListsValue(s, c, Entry(entry.name, Normalize(j, entry.input))))
  }

  ghost predicate ListsValue(s: State, c: string, entry: Entry) {
    exists e :: e in s.emitted && e < |s.calls| && s.calls[e] == Call(c, entry.name, entry.input)
  }

  lemma ReachedBefore(j: Json, st: State, s: State, c: string, p: nat, entry: Entry, n: nat)
    requires Decides(st, c, p, entry) && Reached(j, st, s, c, p, entry, n) && n < p
    requires forall i :: 0 <= i < |st.calls| ==> st.calls[i].id != ""
    ensures var e := Emitted(j, s, n); e.calls[p] == st.calls[p] && (p in e.emitted ==> p in st.emitted)
  {
    EmittedChangesOne(j, s, n, p);
    EmittedKeepsListed(j, s, n);
    if Blank(s.calls[n].name) {
    } else if p in s.emitted {
      assert s.calls[n].id != c;
    }
  }

  lemma ReachedAt(j: Json, st: State, s: State, c: string, p: nat, entry: Entry)
    requires Decides(st, c, p, entry) && Reached(j, st, s, c, p, entry, p) && c != ""
    ensures ListsValue(Emitted(j, s, p), c, Entry(entry.name, Normalize(j, entry.input)))
  {
    var e := Emitted(j, s, p);
    if q :| q in s.emitted && q < |s.calls| && s.calls[q].id == c {
      EmittedAgain(j, s, p, q);
      assert q in e.emitted;
    } else {
      forall n | 0 <= n < |s.emitted| ensures s.calls[s.emitted[n]].id != c {
        assert s.emitted[n] in s.emitted;
      }
      EmittedFresh(j, s, p);
      assert p in e.emitted;
    }
  }

  lemma ReachedAfter(j: Json, st: State, s: State, c: string, p: nat, entry: Entry, n: nat)
    requires Decides(st, c, p, entry) && Reached(j, st, s, c, p, entry, n) && p < n < |st.calls|
    requires forall i :: 0 <= i < |st.calls| ==> st.calls[i].id != ""
    ensures ListsValue(Emitted(j, s, n), c, Entry(entry.name, Normalize(j, entry.input)))
  {
    var e :| e in s.emitted && e < |s.calls| && s.calls[e] == Call(c, entry.name, Normalize(j, entry.input));
    EmittedKeepsListed(j, s, n);
    if st.calls[n].id == c {
      assert Blank(s.calls[n].name);
    } else {
      EmittedChangesOne(j, s, n, e);
    }
    assert e in Emitted(j, s, n).emitted;
  }

  lemma ReachedStep(j: Json, st: State, s: State, c: string, p: nat, entry: Entry, n: nat)
    requires Decides(st, c, p, entry) && Reached(j, st, s, c, p, entry, n) && n < |st.calls| && c != ""
    requires forall i :: 0 <= i < |st.calls| ==> st.calls[i].id != ""
    ensures Reached(j, st, Emitted(j, s, n), c, p, entry, n + 1)
  {
    EmittedKeepsListed(j, s, n);
    forall q | 0 <= q < |st.calls|
      ensures Emitted(j, s, n).calls[q].id == st.calls[q].id
      ensures Blank(st.calls[q].name) ==> Emitted(j, s, n).calls[q].name == st.calls[q].name
    {
      EmittedNames(j, s, n, q);
    }
    if n < p {
      ReachedBefore(j, st, s, c, p, entry, n);
    } else if n == p {
      ReachedAt(j, st, s, c, p, entry);
    } else {
      ReachedAfter(j, st, s, c, p, entry, n);
    }
  }

  lemma {:induction false} FlushReaches(j: Json, st: State, c: string, p: nat, entry: Entry, n: nat)
    requires Listed(st) && Decides(st, c, p, entry) && n <= |st.calls| && c != ""
    requires forall i :: 0 <= i < |st.calls| ==> st.calls[i].id != ""
    ensures Reached(j, st, Flushed(j, st, n), c, p, entry, n)
  {
    hide Emitted, Decides, Blank, Normalize;
    if n > 0 {
      FlushReaches(j, st, c, p, entry, n - 1);
      hide Reached, Listed;
      ReachedStep(j, st, Flushed(j, st, n - 1), c, p, entry, n - 1);
    }
  }

  /** The final loop keeps IDs and invisible names. */
  ghost predicate KeepsNames(st: State, s: State) {
    && Listed(s) && |s.calls| == |st.calls|
    && (forall i :: 0 <= i < |st.calls| ==> s.calls[i].id == st.calls[i].id)
    && (forall i :: 0 <= i < |st.calls| && Blank(st.calls[i].name) ==> s.calls[i].name == st.calls[i].name)
  }

  lemma KeepsNamesStep(j: Json, st: State, s: State, n: nat)
    requires KeepsNames(st, s) && n < |st.calls| && forall i :: 0 <= i < |st.calls| ==> st.calls[i].id != ""
    ensures KeepsNames(st, Emitted(j, s, n))
  {
    EmittedKeepsListed(j, s, n);
    forall q | 0 <= q < |st.calls|
      ensures Emitted(j, s, n).calls[q].id == st.calls[q].id
      ensures Blank(st.calls[q].name) ==> Emitted(j, s, n).calls[q].name == st.calls[q].name
    {
      EmittedNames(j, s, n, q);
    }
  }

  lemma {:induction false} FlushKeepsNames(j: Json, st: State, n: nat)
    requires Listed(st) && n <= |st.calls| && forall i :: 0 <= i < |st.calls| ==> st.calls[i].id != ""
    ensures st.Wf() && KeepsNames(st, Flushed(j, st, n))
  {
    hide Emitted, Blank, Listed, KeepsNames;
    ListedWf(st);
    if n == 0 {
      KeepsNamesItself(st);
    } else {
      FlushKeepsNames(j, st, n - 1);
      KeepsNamesStep(j, st, Flushed(j, st, n - 1), n - 1);
    }
  }

  lemma ListedWf(st: State)
    requires Listed(st)
    ensures st.Wf()
  {
  }

  lemma KeepsNamesItself(st: State)
    requires Listed(st)
    ensures KeepsNames(st, st)
  {
  }

  // ---- The main result ----

  /** What the answer says about `c`: name and input, or nothing. */
  ghost predicate Answers(st: State, c: string, entry: Option<Entry>) {
    match entry
    case Some(e) => ListsValue(st, c, e)
    case None => forall i :: i in st.emitted && i < |st.calls| ==> st.calls[i].id != c
  }

  lemma AnswersUnique(st: State, c: string, a: Option<Entry>, b: Option<Entry>)
    requires Listed(st) && Answers(st, c, a) && Answers(st, c, b)
    ensures a == b
  {
    if a.Some? && b.Some? {
      var p :| p in st.emitted && p < |st.calls| && st.calls[p] == Call(c, a.value.name, a.value.input);
      var q :| q in st.emitted && q < |st.calls| && st.calls[q] == Call(c, b.value.name, b.value.input);
      var m :| 0 <= m < |st.emitted| && st.emitted[m] == p;
      var n :| 0 <= n < |st.emitted| && st.emitted[n] == q;
      assert !(m < n) && !(n < m);
    }
  }

  /** Whatever the interleaving with other calls, the answer for `c` at the end of a well
      linked stream is computed from the operations of `c` alone. */
  lemma LinkedInterleaving(j: Json, owner: map<string, string>, ops: seq<Op>, c: string)
    requires WellLinked(j, owner, ops) && c != ""
    ensures Answers(Finished(j, RunOps(j, Empty, ops)), c, OneEnd(j, OneRun(j, Own(owner, ops, c))))
  {
    var st, one := RunOps(j, Empty, ops), OneRun(j, Own(owner, ops, c));
    RunSimulates(j, owner, ops, c);
    EndAnswers(j, st, owner, c, one);
  }

  lemma EndAnswers(j: Json, st: State, owner: map<string, string>, c: string, one: One)
    requires Tidy(st, owner) && Simulates(st, owner, c, one) && c != ""
    ensures Answers(Finished(j, st), c, OneEnd(j, one))
  {
    if one.open_.Some? && !Blank(one.open_.value.name) {
      var p, entry := st.byCall[c], Entry(one.open_.value.name, one.open_.value.input);
      assert Decides(st, c, p, entry);
      FlushReaches(j, st, c, p, entry, |st.calls|);
    } else if one.shown.Some? {
      var e, l :| ShownAt(st, c, one.shown.value, e, l);
      ShownDecides(st, owner, c, one, e, l);
      FlushReaches(j, st, c, l, one.shown.value, |st.calls|);
    } else {
      forall i | 0 <= i < |st.calls| && st.calls[i].id == c ensures Blank(st.calls[i].name) {
        assert Past(st, c, i) || (c in st.byCall && i == st.byCall[c]);
      }
      FlushKeepsNames(j, st, |st.calls|);
      NothingListed(st, Finished(j, st), c);
    }
  }

  lemma ShownDecides(st: State, owner: map<string, string>, c: string, one: One, e: nat, l: nat)
    requires Tidy(st, owner) && OpenMatches(st, owner, c, one) && one.shown.Some? &&
             ShownAt(st, c, one.shown.value, e, l)
    requires one.open_.Some? ==> Blank(one.open_.value.name)
    ensures Decides(st, c, l, one.shown.value)
  {
    hide Blank;
    forall i: nat | i < |st.calls| && st.calls[i].id == c && (i < e || l < i) ensures Blank(st.calls[i].name) {
      assert Past(st, c, i) || (c in st.byCall && i == st.byCall[c]);
    }
    if l in st.emitted {
      var m :| 0 <= m < |st.emitted| && st.emitted[m] == l;
      var n :| 0 <= n < |st.emitted| && st.emitted[n] == e;
      assert !(m < n) && !(n < m);
    }
  }

  lemma NothingListed(st: State, s: State, c: string)
    requires KeepsNames(st, s)
    requires forall i :: 0 <= i < |st.calls| && st.calls[i].id == c ==> Blank(st.calls[i].name)
    ensures Answers(s, c, None)
  {
    hide Blank;
    forall i | i in s.emitted && i < |s.calls| ensures s.calls[i].id != c {
      ListedMember(s, i);
    }
  }

  // ---- The fold in closed form ----

  function Deltas(own: seq<Op>): string {
    if own == [] then "" else Deltas(own[..|own| - 1]) + own[|own| - 1].delta
  }

  ghost predicate NoneCloses(own: seq<Op>) {
    forall n :: 0 <= n < |own| ==> !own[n].close
  }

  /** The input of an open buffer is the last non-empty `arguments` followed by every
      later delta; without any `arguments` it is all the deltas. */
  lemma {:induction false} InputIsLastArgumentsThenDeltas(j: Json, own: seq<Op>, k: nat)
    requires own != [] && NoneCloses(own) && k < |own|
    requires own[k].arguments != "" || k == 0
    requires forall n :: k < n < |own| ==> own[n].arguments == ""
    ensures OneRun(j, own).open_.Some? && OneRun(j, own).shown.None?
    ensures OneRun(j, own).open_.value.input == own[k].arguments + Deltas(own[k..])
  {
    hide OneRun, OneStep, Deltas;
    var m := |own| - 1;
    var before, op := own[..m], own[m];
    LastOfSlice(own, k);
    OpenRun(j, before);
    OneRunSnoc(j, before, op);
    OpenStep(j, OneRun(j, before), op);
    if k < m {
      InputIsLastArgumentsThenDeltas(j, before, k);
      DeltasSnoc(before[k..], op);
    } else {
      DeltasSnoc([], op);
      NoDeltas();
    }
  }

  lemma LastOfSlice(own: seq<Op>, k: nat)
    requires k < |own|
    ensures var m := |own| - 1;
      own == own[..m] + [own[m]] && own[k..] == (if k < m then own[..m][k..] else []) + [own[m]]
  {
  }

  lemma OpenStep(j: Json, one: One, op: Op)
    requires !op.close
    ensures OneStep(j, one, op).shown == one.shown && OneStep(j, one, op).open_.Some?
    ensures OneStep(j, one, op).open_.value.input ==
              Edited(if one.open_.Some? then one.open_.value.input else "", op)
  {
  }

  lemma NoDeltas()
    ensures Deltas([]) == ""
  {
  }

  lemma DeltasSnoc(own: seq<Op>, op: Op)
    ensures Deltas(own + [op]) == Deltas(own) + op.delta
  {
    assert (own + [op])[..|own|] == own;
  }

  lemma {:induction false} OpenRun(j: Json, own: seq<Op>)
    requires NoneCloses(own)
    ensures OneRun(j, own).shown.None? && (OneRun(j, own).open_.Some? <==> own != [])
  {
    if own != [] {
      OpenRun(j, own[..|own| - 1]);
    }
  }

  /** A call that is filled, closed once and not mentioned again shows its input
      normalised twice: when it is closed and in the final loop. */
  lemma ClosedCallIsNormalisedTwice(j: Json, own: seq<Op>, last: Op)
    requires NoneCloses(own) && last.close
    ensures var b := Filled(OneRun(j, own), last);
      OneEnd(j, OneRun(j, own + [last])) ==
        if Blank(b.name) then None else Some(Entry(b.name, Normalize(j, Normalize(j, b.input))))
  {
    OpenRun(j, own);
    OneRunSnoc(j, own, last);
  }

  lemma NormalizeTrimmed(j: Json, raw: string)
    ensures Normalize(j, raw) != "" && Trimmed(Normalize(j, raw)) &&
            (Normalize(j, raw) == "{}" || j.valid(Normalize(j, raw)))
  {
    TrimSpaceTrims(raw);
    if j.unquote(TrimSpace(raw)).Some? {
      TrimSpaceTrims(j.unquote(TrimSpace(raw)).value);
    }
  }

  /** Normalising again changes nothing exactly when the normal form does not itself
      decode to a string. */
  lemma SecondNormalisation(j: Json, raw: string)
    requires j.Lawful()
    ensures Normalize(j, Normalize(j, raw)) == Normalize(j, raw) <==> j.unquote(Normalize(j, raw)).None?
  {
    var n := Normalize(j, raw);
    NormalizeTrimmed(j, raw);
    TrimmedIsFixed(n);
    if j.unquote(n).Some? {
      TrimShrinks(j.unquote(n).value);
    }
  }

  /** The second pass changes the text exactly when the arguments are a string whose trimmed
      text is valid JSON and a string again. */
  lemma SecondNormalisationChangesIff(j: Json, raw: string)
    requires j.Lawful()
    ensures Normalize(j, Normalize(j, raw)) != Normalize(j, raw) <==>
            match j.unquote(TrimSpace(raw))
            case None => false
            case Some(e) => j.valid(TrimSpace(e)) && j.unquote(TrimSpace(e)).Some? && TrimSpace(e) != ""
  {
    SecondNormalisation(j, raw);
  }

  /** Arguments that are a string holding a JSON string come out differently the second time. */
  lemma NormalisedTwiceDiffers()
    ensures exists j: Json, raw :: j.Lawful() && Normalize(j, Normalize(j, raw)) != Normalize(j, raw)
  {
    var inner, raw := "\"a\"", "\"\\\"a\\\"\"";
    var j := Json(s => s == inner || s == raw || s == "{}",
                  s => if s == raw then Some(inner) else if s == inner then Some("a") else None);
    TrimmedIsFixed(raw);
    TrimmedIsFixed(inner);
    assert j.unquote(raw) == Some(inner) && j.unquote(inner) == Some("a");
    SecondNormalisation(j, raw);
  }
}
