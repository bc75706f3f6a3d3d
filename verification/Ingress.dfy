/** Accepting events and queueing them by lane: internal/ingress/ingress.go and event.go. */
module Ingress {
  import opened Wrappers
  import Idempotency

  class Event {
    const id: string
    const source: string
    const kind: string
    var workspaceID: string
    var sessionID: string

    constructor (id: string, source: string, kind: string)
      ensures this.id == id && this.source == source && this.kind == kind
    {
      this.id, this.source, this.kind, workspaceID, sessionID := id, source, kind, "", "";
    }
  }

  datatype Destination = Drop | Command(ok: bool) | Pipeline | Unknown

  datatype Error =
    | NilEvent | DuplicateEvent | CommandFailed | UnknownDestination | NoWorkspace | NoSession | Transient
    | ContextDone

  // ---- Keys ----

  /** `GenerateIdempotencyKey` */
  function IdempotencyKey(source: string, externalID: string): string {
    source + ":" + externalID
  }

  /** One source shares a key with itself only for the same ID. */
  lemma SameSource(s: string, x: string, y: string)
    requires IdempotencyKey(s, x) == IdempotencyKey(s, y)
    ensures x == y
  {
    assert x == IdempotencyKey(s, x)[|s| + 1..] && y == IdempotencyKey(s, y)[|s| + 1..];
  }

  ghost predicate Collide(s: string, t: string) {
    exists x, y :: IdempotencyKey(s, x) == IdempotencyKey(t, y)
  }

  /** A key of both sources starts with the longer one, and so with the shorter and a colon. */
  lemma SharedKeyMeansPrefix(s: string, x: string, t: string, y: string)
    requires IdempotencyKey(s, x) == IdempotencyKey(t, y) && s != t && |s| <= |t|
    ensures s + ":" <= t
  {
    var k, l := IdempotencyKey(s, x), IdempotencyKey(t, y);
    assert s == k[..|s|] && t == l[..|t|];
    assert t[..|s|] == s;
    assert k[|s|] == ':';
  }

  lemma PrefixSharesKey(s: string, t: string)
    requires s + ":" <= t
    ensures Collide(s, t)
  {
    var rest := t[|s| + 1..];
    assert t == s + ":" + rest;
    assert IdempotencyKey(s, rest + ":") == s + ":" + rest + ":" == IdempotencyKey(t, "");
  }

  /** Two different sources can share a key exactly when one of them, with a colon, starts
      the other. */
  lemma SourcesCollideIff(s: string, t: string)
    requires s != t
    ensures Collide(s, t) <==> s + ":" <= t || t + ":" <= s
  {
    if Collide(s, t) {
      var x, y :| IdempotencyKey(s, x) == IdempotencyKey(t, y);
      if |s| <= |t| {
        SharedKeyMeansPrefix(s, x, t, y);
      } else {
        SharedKeyMeansPrefix(t, y, s, x);
      }
    }
    if s + ":" <= t {
      PrefixSharesKey(s, t);
    }
    if t + ":" <= s {
      PrefixSharesKey(t, s);
      var x, y :| IdempotencyKey(t, x) == IdempotencyKey(s, y);
      assert IdempotencyKey(s, y) == IdempotencyKey(t, x);
    }
  }

  lemma PrefixHasColon(s: string, t: string)
    ensures s + ":" <= t ==> ':' in t
  {
    if s + ":" <= t {
      assert t[|s|] == (s + ":")[|s|];
    }
  }

  /** In particular, sources without a colon never share a key, whatever the IDs. */
  lemma KeyIsInjective(s: string, x: string, t: string, y: string)
    requires ':' !in s && ':' !in t && IdempotencyKey(s, x) == IdempotencyKey(t, y)
    ensures s == t && x == y
  {
    PrefixHasColon(s, t);
    PrefixHasColon(t, s);
    if s != t {
      SourcesCollideIff(s, t);
    }
    SameSource(s, x, y);
  }

  lemma ColonsCollide()
    ensures IdempotencyKey("a:b", "c") == IdempotencyKey("a", "b:c")
  {
  }

  // ---- What was queued ----

  /** An event that entered a lane, with the time at which its key was marked. */
  datatype Queued = Queued(source: string, id: string, time: int)

  /** Each queued event has its own accepted mark. */
  ghost predicate Backed(queued: seq<Queued>, marks: seq<Idempotency.Accepted>, ttl: int) {
    && (forall i :: 0 <= i < |queued| ==> HasMark(queued, marks, ttl, i))
    && (forall i, j ::
          0 <= i < j < |queued| &&
          IdempotencyKey(queued[i].source, queued[i].id) == IdempotencyKey(queued[j].source, queued[j].id) ==>
          queued[i].time + Idempotency.WholeSeconds(ttl) <= queued[j].time)
  }

  ghost predicate HasMark(queued: seq<Queued>, marks: seq<Idempotency.Accepted>, ttl: int, i: nat)
    requires i < |queued|
  {
    Idempotency.Accepted(IdempotencyKey(queued[i].source, queued[i].id), queued[i].time, ttl) in marks
  }

  lemma BackedByMore(queued: seq<Queued>, marks: seq<Idempotency.Accepted>, ttl: int, m: Idempotency.Accepted)
    requires Backed(queued, marks, ttl)
    ensures Backed(queued, marks + [m], ttl)
  {
    forall i | 0 <= i < |queued| ensures HasMark(queued, marks + [m], ttl, i) {
      assert HasMark(queued, marks, ttl, i);
    }
  }

  lemma BackedByNew(queued: seq<Queued>, marks: seq<Idempotency.Accepted>, ttl: int, q: Queued)
    requires Backed(queued, marks, ttl)
    requires Idempotency.MarksApart(marks + [Idempotency.Accepted(IdempotencyKey(q.source, q.id), q.time, ttl)])
    ensures Backed(queued + [q], marks + [Idempotency.Accepted(IdempotencyKey(q.source, q.id), q.time, ttl)], ttl)
  {
    hide Idempotency.WholeSeconds, IdempotencyKey;
    var m := Idempotency.Accepted(IdempotencyKey(q.source, q.id), q.time, ttl);
    BackedByMore(queued, marks, ttl, m);
    assert (marks + [m])[|marks|] == m;
    forall i | 0 <= i < |queued + [q]| ensures HasMark(queued + [q], marks + [m], ttl, i) {
      assert i < |queued| ==> HasMark(queued, marks + [m], ttl, i);
    }
    forall i | 0 <= i < |queued| && IdempotencyKey(queued[i].source, queued[i].id) == m.key
      ensures queued[i].time + Idempotency.WholeSeconds(ttl) <= q.time
    {
      assert HasMark(queued, marks, ttl, i);
      var k :| 0 <= k < |marks| && marks[k] == Idempotency.Accepted(m.key, queued[i].time, ttl);
      assert (marks + [m])[k] == marks[k];
    }
  }

  class Ingress {
    const store: Idempotency.Store
    const idempotencyTTL: int
    const interactiveSize: nat
    const backgroundSize: nat
    var interactiveQueue: seq<Event>
    var backgroundQueue: seq<Event>
    ghost var queued: seq<Queued>

    ghost predicate Valid()
      reads this, store
    {
      && store.Valid() && Backed(queued, store.log, idempotencyTTL)
      && |interactiveQueue| <= interactiveSize && |backgroundQueue| <= backgroundSize
    }

    constructor (store: Idempotency.Store, ttl: int, interactiveSize: nat, backgroundSize: nat)
      requires store.Valid()
      ensures Valid() && this.store == store && idempotencyTTL == ttl && queued == [] && interactiveQueue == [] &&
              backgroundQueue == []
    {
      this.store, idempotencyTTL, this.interactiveSize, this.backgroundSize :=
        store, ttl, interactiveSize, backgroundSize;
      interactiveQueue, backgroundQueue, queued := [], [], [];
    }

    /** The workers of the lanes take events from the front. */
    method Consume()
      modifies this`interactiveQueue, this`backgroundQueue
      ensures RestOf(interactiveQueue, old(interactiveQueue)) && RestOf(backgroundQueue, old(backgroundQueue))
    {
      var m: nat :| m <= |interactiveQueue|;
      var n: nat :| n <= |backgroundQueue|;
      interactiveQueue, backgroundQueue := interactiveQueue[m..], backgroundQueue[n..];
    }

    /** The end of `Submit`: into the lane of the event, if it has room. */
    method Enqueue(evt: Event, cancelled: bool) returns (err: Option<Error>)
      requires |interactiveQueue| <= interactiveSize && |backgroundQueue| <= backgroundSize
      modifies this`interactiveQueue, this`backgroundQueue
      ensures |interactiveQueue| <= interactiveSize && |backgroundQueue| <= backgroundSize
      ensures evt.kind != "user_message" && evt.kind != "command" ==>
        && err == (if |old(backgroundQueue)| == backgroundSize then Some(Transient) else None)
        && interactiveQueue == old(interactiveQueue)
        && backgroundQueue == if err.None? then old(backgroundQueue) + [evt] else old(backgroundQueue)
      ensures evt.kind == "user_message" || evt.kind == "command" ==>
        && (if cancelled then err == Some(ContextDone)
            else err == None || (err == Some(Transient) && |old(interactiveQueue)| == interactiveSize))
        && RestOf(backgroundQueue, old(backgroundQueue))
        && if err.Some? then RestOf(interactiveQueue, old(interactiveQueue))
           else
             && interactiveQueue != [] && interactiveQueue[|interactiveQueue| - 1] == evt
             && RestOf(interactiveQueue[..|interactiveQueue| - 1], old(interactiveQueue))
    {
      if evt.kind == "user_message" || evt.kind == "command" {
        Consume();
        if cancelled {
          return Some(ContextDone);
        }
        if |interactiveQueue| == interactiveSize {
          return Some(Transient);
        }
        interactiveQueue := interactiveQueue + [evt];
      } else {
        if |backgroundQueue| == backgroundSize {
          return Some(Transient);
        }
        backgroundQueue := backgroundQueue + [evt];
      }
      err := None;
    }

    /** `Submit`. A key is marked before anything else happens, and stays marked when the
        event is then dropped or refused. Other parties decide the destination, resolve
        workspace and session, and may cancel the wait for room in the interactive lane. */
    method Submit(evt: Event?, destination: Destination, workspace: Option<string>, session: Option<string>,
                  cancelled: bool)
      returns (err: Option<Error>)
      requires Valid()
      modifies this, store, evt
      ensures Valid()
      ensures evt == null ==> err == Some(NilEvent) && queued == old(queued) && store.log == old(store.log)
      ensures evt != null ==>
        var key := IdempotencyKey(evt.source, evt.id);
        if Idempotency.Remembered(old(store.keys), key, store.clock)
        then err == Some(DuplicateEvent) && queued == old(queued) && store.log == old(store.log)
        else store.log == old(store.log) + [Idempotency.Accepted(key, store.clock, idempotencyTTL)]
      ensures evt != null && store.log != old(store.log) ==>
        match destination
        case Drop => err.None?
        case Command(ok) => err == if ok then None else Some(CommandFailed)
        case Unknown => err == Some(UnknownDestination)
        case Pipeline =>
          if workspace.None? then err == Some(NoWorkspace)
          else if session.None? then err == Some(NoSession)
          else if evt.kind == "user_message" || evt.kind == "command" then
            if cancelled then err == Some(ContextDone)
            else err == None || (err == Some(Transient) && |old(interactiveQueue)| == interactiveSize)
          else err == if |old(backgroundQueue)| == backgroundSize then Some(Transient) else None
      ensures queued ==
              if evt != null && err.None? && destination.Pipeline? then
                old(queued) + [Queued(evt.source, evt.id, store.clock)]
              else old(queued)
      ensures queued != old(queued) ==>
              workspace.Some? && session.Some? && evt.workspaceID == workspace.value && evt.sessionID == session.value
      ensures evt != null && evt.kind != "user_message" && evt.kind != "command" ==>
        && interactiveQueue == old(interactiveQueue)
        && backgroundQueue == if queued != old(queued) then old(backgroundQueue) + [evt] else old(backgroundQueue)
      ensures evt != null && (evt.kind == "user_message" || evt.kind == "command") ==>
        && RestOf(backgroundQueue, old(backgroundQueue))
        && if queued == old(queued) then RestOf(interactiveQueue, old(interactiveQueue))
           else
             && interactiveQueue != [] && interactiveQueue[|interactiveQueue| - 1] == evt
             && RestOf(interactiveQueue[..|interactiveQueue| - 1], old(interactiveQueue))
    {
      hide Backed, Idempotency.MarksApart, Idempotency.MarksKept, Idempotency.Remembered, Idempotency.WholeSeconds,
        IdempotencyKey;
      if evt == null {
        return Some(NilEvent);
      }
      ghost var marks := store.log;
      var key := IdempotencyKey(evt.source, evt.id);
      var duplicate := store.CheckAndMark(key, idempotencyTTL);
      if duplicate {
        return Some(DuplicateEvent);
      }
      ghost var q := Queued(evt.source, evt.id, store.clock);
      BackedByNew(queued, marks, idempotencyTTL, q);
      BackedByMore(queued, marks, idempotencyTTL, Idempotency.Accepted(key, store.clock, idempotencyTTL));
      match destination {
        case Drop => return None;
        case Command(ok) => return if ok then None else Some(CommandFailed);
        case Unknown => return Some(UnknownDestination);
        case Pipeline =>
      }
      if workspace.None? {
        return Some(NoWorkspace);
      }
      evt.workspaceID := workspace.value;
      if session.None? {
        return Some(NoSession);
      }
      evt.sessionID := session.value;
      err := Enqueue(evt, cancelled);
      if err.Some? {
        return;
      }
      queued := queued + [q];
    }
  }

  /** What is left of a lane after some events were taken from its front. */
  predicate RestOf(rest: seq<Event>, queue: seq<Event>) {
    |rest| <= |queue| && rest == queue[|queue| - |rest|..]
  }

  /** Events that were queued under one source and ID are at least the time to live apart. */
  lemma OncePerTimeToLive(ingress: Ingress, i: nat, j: nat)
    requires ingress.Valid() && i < j < |ingress.queued|
    requires ingress.queued[i].source == ingress.queued[j].source && ingress.queued[i].id == ingress.queued[j].id
    ensures ingress.queued[i].time + Idempotency.WholeSeconds(ingress.idempotencyTTL) <= ingress.queued[j].time
  {
    hide Idempotency.WholeSeconds;
    assert IdempotencyKey(ingress.queued[i].source, ingress.queued[i].id) ==
           IdempotencyKey(ingress.queued[j].source, ingress.queued[j].id);
  }

  /** ... and in nanoseconds no closer than two seconds less than that; `at` are the instants
      at which they were marked. */
  lemma OnceInNanoseconds(ingress: Ingress, at: seq<int>, i: nat, j: nat)
    requires ingress.Valid() && i < j < |ingress.queued| && |at| == |ingress.queued|
    requires forall k :: 0 <= k < |at| ==> ingress.queued[k].time == at[k] / 1_000_000_000
    requires ingress.queued[i].source == ingress.queued[j].source && ingress.queued[i].id == ingress.queued[j].id
    ensures ingress.idempotencyTTL - 2_000_000_000 < at[j] - at[i]
  {
    hide Idempotency.WholeSeconds;
    OncePerTimeToLive(ingress, i, j);
    Idempotency.WholeSecondsMeans(ingress.idempotencyTTL);
    Idempotency.SecondMeans(at[i]);
    Idempotency.SecondMeans(at[j]);
  }
}
