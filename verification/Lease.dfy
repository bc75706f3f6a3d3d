/** The scheduler's leases and fires: internal/scheduler/store.go and, as the driver,
    internal/scheduler/engine.go. Times are integers read from a clock that never goes back. */
module Lease {
  import opened Wrappers

  datatype Status = Idle | Leased | Done | Failed

  /** `Lease`; ULIDs are numbers here. */
  datatype Lease = Lease(run: nat, status: Status, expires: int)

  datatype Task = Task(schedule: string, nextRun: int, lease: Option<Lease>)

  datatype StoreError = TaskNotFound | InvalidSchedule | AlreadyLeased | LeaseMismatch | SaveFailed

  /** `cronSchedule.Next` */
  type Cron = int -> int

  /** `cron.ParseStandard` */
  type Parser = string -> Option<Cron>

  /** The next run is later than the time asked about, and later times have later next runs. */
  ghost predicate LawfulCron(c: Cron) {
    && (forall t {:trigger c(t)} :: t < c(t))
    && (forall s, t {:trigger c(s), c(t)} :: s <= t ==> c(s) <= c(t))
  }

  predicate Live(lease: Option<Lease>, now: int) {
    lease.Some? && lease.value.status == Leased && now < lease.value.expires
  }

  // ---- What the store has done so far ----

  /** A fire with the schedule it went by and the next run it set; a lease taken; a lease given back by its run, with
      the next run this set, if the schedule could be parsed. */
  datatype Entry =
    | Fired(id: string, time: int, schedule: string, next: int)
    | Granted(id: string, time: int, run: nat, expires: int)
    | Released(id: string, time: int, run: nat, after: Option<int>)

  type Log = seq<Entry>

  /** The `i`-th entry grants a lease and an entry before the `j`-th one gives it back. */
  ghost predicate GivenBack(log: Log, i: int, j: int) {
    exists k :: ReleaseOf(log, i, j, k)
  }

  predicate ReleaseOf(log: Log, i: int, j: int, k: int) {
    0 <= i < k < j <= |log| && log[i].Granted? && log[k].Released? && log[k].id == log[i].id && log[k].run == log[i].run
  }

  /** A later lease of the same task starts after the earlier one has expired or has been
      given back by its own run. */
  ghost predicate NoOverlap(log: Log) {
    forall i, j :: 0 <= i < j < |log| && log[i].Granted? && log[j].Granted? && log[i].id == log[j].id ==>
      log[i].expires <= log[j].time || GivenBack(log, i, j)
  }

  ghost predicate Ordered(log: Log, clock: int) {
    && (forall i :: 0 <= i < |log| ==> log[i].time <= clock)
    && (forall i, j :: 0 <= i < j < |log| ==> log[i].time <= log[j].time)
  }

  /** A lease that has neither expired nor been given back is the one in the store. */
  ghost predicate Held(tasks: map<string, Task>, log: Log, clock: int) {
    forall i :: 0 <= i < |log| && log[i].Granted? ==>
      log[i].expires <= clock || GivenBack(log, i, |log|) ||
      (log[i].id in tasks && tasks[log[i].id].lease == Some(Lease(log[i].run, Leased, log[i].expires)))
  }

  ghost predicate Parsed(parse: Parser, tasks: map<string, Task>, id: string) {
    id in tasks && parse(tasks[id].schedule).Some?
  }

  ghost function CronOf(parse: Parser, tasks: map<string, Task>, id: string): Cron
    requires Parsed(parse, tasks, id)
  {
    parse(tasks[id].schedule).value
  }

  /** The task has a schedule with a next run at any time, and has fired by no other. */
  ghost predicate Regular(parse: Parser, tasks: map<string, Task>, log: Log, id: string) {
    && Parsed(parse, tasks, id) && LawfulCron(CronOf(parse, tasks, id))
    && forall i :: 0 <= i < |log| && log[i].Fired? && log[i].id == id ==> log[i].schedule == tasks[id].schedule
  }

  ghost function NextAfter(e: Entry): Option<int> {
    match e
    case Fired(_, _, _, next) => Some(next)
    case Granted(_, _, _, _) => None
    case Released(_, _, _, after) => after
  }

  ghost function NextValue(e: Entry): int {
    if NextAfter(e).Some? then NextAfter(e).value else 0
  }

  /** The task has fired by the `i`-th entry, which sets its next run. */
  ghost predicate Sets(log: Log, i: int) {
    0 <= i < |log| && NextAfter(log[i]).Some? && exists k :: 0 <= k <= i && log[k].Fired? && log[k].id == log[i].id
  }

  /** From the first fire on, the next run of a regular task only grows. */
  ghost predicate NextRunGrows(parse: Parser, tasks: map<string, Task>, log: Log) {
    forall i, j ::
      0 <= i < j < |log| && Sets(log, i) && Sets(log, j) && log[i].id == log[j].id &&
      Regular(parse, tasks, log, log[i].id) ==>
      NextValue(log[i]) <= NextValue(log[j])
  }

  /** ... and it is one that the schedule gave. */
  ghost predicate Paced(parse: Parser, tasks: map<string, Task>, log: Log, clock: int) {
    && (forall i :: Sets(log, i) && Regular(parse, tasks, log, log[i].id) ==>
          NextValue(log[i]) <= tasks[log[i].id].nextRun <= CronOf(parse, tasks, log[i].id)(clock))
    && (forall i :: 0 <= i < |log| && log[i].Fired? && Regular(parse, tasks, log, log[i].id) ==>
          CronOf(parse, tasks, log[i].id)(log[i].time) <= log[i].next)
  }

  /** Between two fires of a regular task lies the next run that follows the first. */
  ghost predicate Apart(parse: Parser, tasks: map<string, Task>, log: Log) {
    forall i, j ::
      0 <= i < j < |log| && log[i].Fired? && log[j].Fired? && log[i].id == log[j].id &&
      Regular(parse, tasks, log, log[i].id) ==>
      CronOf(parse, tasks, log[i].id)(log[i].time) <= log[j].time
  }

  ghost predicate Inv(parse: Parser, tasks: map<string, Task>, log: Log, clock: int) {
    && Ordered(log, clock) && NoOverlap(log) && Held(tasks, log, clock)
    && NextRunGrows(parse, tasks, log) && Paced(parse, tasks, log, clock) && Apart(parse, tasks, log)
  }

  // ---- What each change keeps ----

  lemma OrderedExtends(log: Log, clock: int, e: Entry, now: int)
    requires Ordered(log, clock) && clock <= e.time <= now
    ensures Ordered(log + [e], now)
  {
  }

  lemma GivenBackExtends(log: Log, e: Entry, i: int, j: int)
    requires GivenBack(log, i, j)
    ensures GivenBack(log + [e], i, j) && GivenBack(log + [e], i, |log| + 1)
  {
    var k :| ReleaseOf(log, i, j, k);
    assert ReleaseOf(log + [e], i, j, k) && ReleaseOf(log + [e], i, |log| + 1, k);
  }

  lemma NoOverlapExtends(log: Log, e: Entry)
    requires NoOverlap(log)
    requires e.Granted? ==> forall i :: 0 <= i < |log| && log[i].Granted? && log[i].id == e.id ==>
      log[i].expires <= e.time || GivenBack(log, i, |log|)
    ensures NoOverlap(log + [e])
  {
    hide GivenBack;
    var more := log + [e];
    forall i, j | 0 <= i < j < |more| && more[i].Granted? && more[j].Granted? && more[i].id == more[j].id
      ensures more[i].expires <= more[j].time || GivenBack(more, i, j)
    {
      assert more[i] == log[i];
      if GivenBack(log, i, j) {
        GivenBackExtends(log, e, i, j);
      }
    }
  }

  /** The lease of a task changes only when a run gives back its own, or when a new one is
      granted at a time when the old one is not live. */
  ghost predicate LeaseEffect(tasks: map<string, Task>, now: map<string, Task>, e: Entry) {
    forall id :: id in tasks ==>
      && id in now
      && (id != e.id || e.Fired? ==> now[id].lease == tasks[id].lease)
      && (id == e.id && e.Granted? ==>
          !Live(tasks[id].lease, e.time) && now[id].lease == Some(Lease(e.run, Leased, e.expires)))
      && (id == e.id && e.Released? ==>
          tasks[id].lease.Some? && tasks[id].lease.value.run == e.run && now[id].lease == None)
  }

  lemma GrantNeedsNoLease(tasks: map<string, Task>, log: Log, clock: int, id: string, time: int)
    requires Held(tasks, log, clock) && id in tasks && !Live(tasks[id].lease, time) && clock <= time
    ensures forall i :: 0 <= i < |log| && log[i].Granted? && log[i].id == id ==>
            log[i].expires <= time || GivenBack(log, i, |log|)
  {
  }

  lemma HeldExtends(tasks: map<string, Task>, now: map<string, Task>, log: Log, clock: int, e: Entry, later: int)
    requires Held(tasks, log, clock) && LeaseEffect(tasks, now, e) && clock <= e.time <= later && e.id in tasks
    ensures Held(now, log + [e], later)
  {
    hide GivenBack;
    var more := log + [e];
    forall i | 0 <= i < |more| && more[i].Granted?
      ensures more[i].expires <= later || GivenBack(more, i, |more|) ||
              (more[i].id in now && now[more[i].id].lease == Some(Lease(more[i].run, Leased, more[i].expires)))
    {
      if i < |log| {
        assert more[i] == log[i];
        if GivenBack(log, i, |log|) {
          GivenBackExtends(log, e, i, |log|);
        } else if log[i].expires > clock && e.Released? && e.id == log[i].id {
          ReleasedNow(log, e, i);
        }
      }
    }
  }

  lemma ReleasedNow(log: Log, e: Entry, i: nat)
    requires i < |log| && log[i].Granted? && e.Released? && e.id == log[i].id && e.run == log[i].run
    ensures GivenBack(log + [e], i, |log| + 1)
  {
    assert ReleaseOf(log + [e], i, |log| + 1, |log|);
  }

  /** The next run changes only to what the schedule gives at time `later`, and a fire
      happens only when the old one is due. */
  ghost predicate PaceEffect(parse: Parser, tasks: map<string, Task>, now: map<string, Task>, e: Entry, later: int) {
    && (forall id :: id in tasks ==>
          && id in now && now[id].schedule == tasks[id].schedule
          && (id != e.id || NextAfter(e).None? ==> now[id].nextRun == tasks[id].nextRun))
    && (NextAfter(e).Some? ==> e.id in now && NextValue(e) == now[e.id].nextRun)
    && (e.Released? && e.after.Some? ==>
        Parsed(parse, tasks, e.id) && e.after.value == CronOf(parse, tasks, e.id)(later))
    && (e.Fired? ==>
          && e.id in tasks && tasks[e.id].nextRun <= e.time
          && parse(e.schedule).Some? && e.next == parse(e.schedule).value(later))
  }

  /** A task that is regular after an entry was so before, by the same schedule. */
  lemma RegularBefore(parse: Parser, tasks: map<string, Task>, now: map<string, Task>, log: Log, e: Entry, later: int,
                      id: string)
    requires PaceEffect(parse, tasks, now, e, later) && Regular(parse, now, log + [e], id) && id in tasks
    ensures Regular(parse, tasks, log, id) && CronOf(parse, now, id) == CronOf(parse, tasks, id)
    ensures e.Fired? && e.id == id ==> e.schedule == tasks[id].schedule
  {
    forall i | 0 <= i < |log| && log[i].Fired? && log[i].id == id ensures log[i].schedule == tasks[id].schedule {
      assert (log + [e])[i] == log[i];
    }
    assert (log + [e])[|log|] == e;
  }

  lemma SetsBefore(log: Log, e: Entry, i: nat)
    requires i < |log|
    ensures Sets(log + [e], i) <==> Sets(log, i)
  {
    assert (log + [e])[i] == log[i];
    if Sets(log + [e], i) {
      var k :| 0 <= k <= i && (log + [e])[k].Fired? && (log + [e])[k].id == log[i].id;
      assert log[k].Fired?;
    }
    if Sets(log, i) {
      var k :| 0 <= k <= i && log[k].Fired? && log[k].id == log[i].id;
      assert (log + [e])[k].Fired?;
    }
  }

  /** What was set before is at most what is set now. */
  lemma SetEarlier(parse: Parser, tasks: map<string, Task>, now: map<string, Task>, log: Log, clock: int, e: Entry,
                   later: int, i: nat)
    requires Paced(parse, tasks, log, clock) && PaceEffect(parse, tasks, now, e, later) &&
             (forall id :: id in now <==> id in tasks)
    requires clock <= e.time <= later && i < |log| && Sets(log, i) && Regular(parse, now, log + [e], log[i].id)
    ensures Regular(parse, tasks, log, log[i].id) && CronOf(parse, now, log[i].id) == CronOf(parse, tasks, log[i].id)
    ensures NextValue(log[i]) <= tasks[log[i].id].nextRun <= now[log[i].id].nextRun
    ensures now[log[i].id].nextRun <= CronOf(parse, now, log[i].id)(later)
  {
    hide Sets, Paced, PaceEffect, Regular;
    SetsHasNext(log, i);
    RegularIn(parse, now, log + [e], log[i].id);
    RegularBefore(parse, tasks, now, log, e, later, log[i].id);
    PacedAt(parse, tasks, log, clock, i);
    PaceStep(parse, tasks, now, log, clock, e, later, log[i].id);
  }

  lemma RegularIn(parse: Parser, tasks: map<string, Task>, log: Log, id: string)
    requires Regular(parse, tasks, log, id)
    ensures id in tasks && Parsed(parse, tasks, id) && LawfulCron(CronOf(parse, tasks, id))
  {
  }

  lemma PacedAt(parse: Parser, tasks: map<string, Task>, log: Log, clock: int, i: nat)
    requires Paced(parse, tasks, log, clock) && i < |log| && Sets(log, i) && Regular(parse, tasks, log, log[i].id)
    ensures NextValue(log[i]) <= tasks[log[i].id].nextRun <= CronOf(parse, tasks, log[i].id)(clock)
  {
  }

  /** The next run of one regular task, which was at most what its schedule gave at `clock`. */
  lemma PaceStep(parse: Parser, tasks: map<string, Task>, now: map<string, Task>, log: Log, clock: int, e: Entry,
                 later: int, id: string)
    requires PaceEffect(parse, tasks, now, e, later) && clock <= e.time <= later
    requires Regular(parse, now, log + [e], id) && Regular(parse, tasks, log, id)
    requires tasks[id].nextRun <= CronOf(parse, tasks, id)(clock)
    ensures tasks[id].nextRun <= now[id].nextRun <= CronOf(parse, now, id)(later)
  {
    RegularBefore(parse, tasks, now, log, e, later, id);
    var c := CronOf(parse, tasks, id);
    assert c(clock) <= c(later) && e.time < c(e.time) <= c(later);
  }

  lemma PacedExtends(parse: Parser, tasks: map<string, Task>, now: map<string, Task>, log: Log, clock: int, e: Entry,
                     later: int)
    requires Paced(parse, tasks, log, clock) && NextRunGrows(parse, tasks, log) &&
             PaceEffect(parse, tasks, now, e, later)
    requires clock <= e.time <= later && forall id :: id in now <==> id in tasks
    ensures Paced(parse, now, log + [e], later) && NextRunGrows(parse, now, log + [e])
  {
    hide Sets, PaceEffect, Regular;
    var more := log + [e];
    forall i ensures Sets(more, i) ==> 0 <= i < |more| && NextAfter(more[i]).Some? {
      if Sets(more, i) {
        SetsHasNext(more, i);
      }
    }
    forall i | Sets(more, i) && Regular(parse, now, more, more[i].id)
      ensures Parsed(parse, now, more[i].id)
      ensures NextValue(more[i]) <= now[more[i].id].nextRun <= CronOf(parse, now, more[i].id)(later)
    {
      RegularIn(parse, now, more, more[i].id);
      if i < |log| {
        SetsBefore(log, e, i);
        SetEarlier(parse, tasks, now, log, clock, e, later, i);
      } else {
        SetNow(parse, tasks, now, log, e, later);
      }
    }
    forall i, j | 0 <= i < j < |more| && Sets(more, i) && Sets(more, j) && more[i].id == more[j].id &&
      Regular(parse, now, more, more[i].id)
      ensures NextValue(more[i]) <= NextValue(more[j])
    {
      SetsBefore(log, e, i);
      SetEarlier(parse, tasks, now, log, clock, e, later, i);
      if j < |log| {
        SetsBefore(log, e, j);
      } else {
        SetNow(parse, tasks, now, log, e, later);
      }
    }
    FiredNext(parse, tasks, now, log, clock, e, later);
  }

  /** The last entry sets the next run to what the schedule of its regular task gives. */
  lemma SetNow(parse: Parser, tasks: map<string, Task>, now: map<string, Task>, log: Log, e: Entry, later: int)
    requires PaceEffect(parse, tasks, now, e, later) && (forall id :: id in now <==> id in tasks)
    requires NextAfter(e).Some? && Regular(parse, now, log + [e], e.id)
    ensures NextValue(e) == now[e.id].nextRun == CronOf(parse, now, e.id)(later)
  {
    RegularBefore(parse, tasks, now, log, e, later, e.id);
  }

  lemma SetsHasNext(log: Log, i: int)
    requires Sets(log, i)
    ensures 0 <= i < |log| && NextAfter(log[i]).Some?
  {
  }

  lemma FiredNext(parse: Parser, tasks: map<string, Task>, now: map<string, Task>, log: Log, clock: int, e: Entry,
                  later: int)
    requires Paced(parse, tasks, log, clock) && PaceEffect(parse, tasks, now, e, later)
    requires clock <= e.time <= later && forall id :: id in now <==> id in tasks
    ensures forall i ::
      0 <= i < |log + [e]| && (log + [e])[i].Fired? && Regular(parse, now, log + [e], (log + [e])[i].id) ==>
      CronOf(parse, now, (log + [e])[i].id)((log + [e])[i].time) <= (log + [e])[i].next
  {
    hide PaceEffect, Regular, Sets;
    var more := log + [e];
    forall i | 0 <= i < |more| && more[i].Fired? && Regular(parse, now, more, more[i].id)
      ensures Parsed(parse, now, more[i].id) && CronOf(parse, now, more[i].id)(more[i].time) <= more[i].next
    {
      RegularIn(parse, now, more, more[i].id);
      RegularBefore(parse, tasks, now, log, e, later, more[i].id);
      if i < |log| {
        assert more[i] == log[i];
      } else {
        SetNow(parse, tasks, now, log, e, later);
        assert CronOf(parse, now, e.id)(e.time) <= CronOf(parse, now, e.id)(later);
        FiredSetsNext(e);
      }
    }
  }

  lemma FiredSetsNext(e: Entry)
    requires e.Fired?
    ensures NextValue(e) == e.next
  {
  }

  lemma ApartExtends(parse: Parser, tasks: map<string, Task>, now: map<string, Task>, log: Log, clock: int, e: Entry,
                     later: int)
    requires Paced(parse, tasks, log, clock) && Apart(parse, tasks, log) && PaceEffect(parse, tasks, now, e, later)
    requires forall id :: id in now <==> id in tasks
    ensures Apart(parse, now, log + [e])
  {
    hide Sets, Regular;
    var more := log + [e];
    forall i, j | 0 <= i < j < |more| && more[i].Fired? && more[j].Fired? && more[i].id == more[j].id &&
      Regular(parse, now, more, more[i].id)
      ensures Parsed(parse, now, more[i].id) && CronOf(parse, now, more[i].id)(more[i].time) <= more[j].time
    {
      RegularIn(parse, now, more, more[i].id);
      RegularBefore(parse, tasks, now, log, e, later, more[i].id);
      assert more[i] == log[i];
      FireSets(log, i);
      FiredSetsNext(log[i]);
    }
  }

  lemma FireSets(log: Log, i: nat)
    requires i < |log| && log[i].Fired?
    ensures Sets(log, i)
  {
  }

  /** Any change that respects the three effects keeps everything. */
  lemma EntryKept(parse: Parser, tasks: map<string, Task>, now: map<string, Task>, log: Log, clock: int, e: Entry,
                  later: int)
    requires Inv(parse, tasks, log, clock) && clock <= e.time <= later && e.id in tasks &&
             (forall id :: id in now <==> id in tasks)
    requires LeaseEffect(tasks, now, e) && PaceEffect(parse, tasks, now, e, later)
    ensures Inv(parse, now, log + [e], later)
  {
    hide Ordered, NoOverlap, Held, Paced, Apart, NextRunGrows, PaceEffect;
    OrderedExtends(log, clock, e, later);
    if e.Granted? {
      GrantNeedsNoLease(tasks, log, clock, e.id, e.time);
    }
    NoOverlapExtends(log, e);
    HeldExtends(tasks, now, log, clock, e, later);
    PacedExtends(parse, tasks, now, log, clock, e, later);
    ApartExtends(parse, tasks, now, log, clock, e, later);
  }

  lemma TimePasses(parse: Parser, tasks: map<string, Task>, log: Log, clock: int, later: int)
    requires Inv(parse, tasks, log, clock) && clock <= later
    ensures Inv(parse, tasks, log, later)
  {
    hide NoOverlap, Apart, NextRunGrows, GivenBack, Sets;
    forall i | 0 <= i < |log| && Regular(parse, tasks, log, log[i].id)
      ensures CronOf(parse, tasks, log[i].id)(clock) <= CronOf(parse, tasks, log[i].id)(later)
    {
    }
    forall i ensures Sets(log, i) ==> 0 <= i < |log| {
      SetsInside(log, i);
    }
  }

  lemma SetsInside(log: Log, i: int)
    ensures Sets(log, i) ==> 0 <= i < |log|
  {
  }

  datatype Snapshot = Snapshot(tasks: map<string, Task>, log: Log, clock: int)

  /** Between two looks at the store time passes, and at most one call changes something. */
  ghost predicate Follows(parse: Parser, a: Snapshot, b: Snapshot) {
    && a.clock <= b.clock
    && ((b.tasks == a.tasks && b.log == a.log) || exists e :: Changes(parse, a, b, e))
  }

  ghost predicate Changes(parse: Parser, a: Snapshot, b: Snapshot, e: Entry) {
    && e.id in a.tasks && (forall id :: id in b.tasks <==> id in a.tasks) && b.log == a.log + [e] &&
       a.clock <= e.time <= b.clock
    && LeaseEffect(a.tasks, b.tasks, e) && PaceEffect(parse, a.tasks, b.tasks, e, b.clock)
  }

  /** In every run from a loaded file, whoever calls what and when: leases of a task never
      overlap, next runs grow, and fires keep their distance. */
  lemma {:induction false} EveryRunIsSafe(parse: Parser, run: seq<Snapshot>, n: nat)
    requires n < |run| && run[0].log == []
    requires forall k :: 0 < k < |run| ==> Follows(parse, run[k - 1], run[k])
    ensures Inv(parse, run[n].tasks, run[n].log, run[n].clock)
    ensures NoOverlap(run[n].log) && NextRunGrows(parse, run[n].tasks, run[n].log) &&
            Apart(parse, run[n].tasks, run[n].log)
    ensures Explained(run[0].tasks, run[n].tasks, run[n].log)
  {
    hide Ordered, NoOverlap, Held, Paced, Apart, NextRunGrows, LeaseEffect, PaceEffect, Explained;
    if n == 0 {
      StartsSafe(parse, run[0].tasks, run[0].clock);
    } else {
      var a, b := run[n - 1], run[n];
      EveryRunIsSafe(parse, run, n - 1);
      assert Follows(parse, a, b);
      FollowsExplained(parse, run[0].tasks, a, b);
      if b.log == a.log {
        TimePasses(parse, a.tasks, a.log, a.clock, b.clock);
      } else {
        var e :| Changes(parse, a, b, e);
        EntryKept(parse, a.tasks, b.tasks, a.log, a.clock, e, b.clock);
      }
    }
  }

  // ---- Where a lease in the store comes from ----

  /** The `i`-th entry grants a lease of the task, and after it the task only fires. */
  ghost predicate LastGrant(log: Log, i: int, id: string) {
    && 0 <= i < |log| && log[i].Granted? && log[i].id == id
    && forall k :: i < k < |log| && log[k].id == id ==> log[k].Fired?
  }

  /** A lease in the store is the one last granted, or the one of the loaded file as long as
      none was granted or given back. */
  ghost predicate Explained(loaded: map<string, Task>, tasks: map<string, Task>, log: Log) {
    forall id :: id in tasks && tasks[id].lease.Some? ==>
      || (id in loaded && tasks[id].lease == loaded[id].lease && forall k :: 0 <= k < |log| && log[k].id == id ==>
            log[k].Fired?)
      || exists i :: LastGrant(log, i, id) && tasks[id].lease == Some(Lease(log[i].run, Leased, log[i].expires))
  }

  lemma ExplainedKept(loaded: map<string, Task>, tasks: map<string, Task>, now: map<string, Task>, log: Log, e: Entry)
    requires Explained(loaded, tasks, log) && LeaseEffect(tasks, now, e) && forall id :: id in now <==> id in tasks
    ensures Explained(loaded, now, log + [e])
  {
    var more := log + [e];
    forall id | id in now && now[id].lease.Some?
      ensures
        || (id in loaded && now[id].lease == loaded[id].lease && forall k :: 0 <= k < |more| && more[k].id == id ==>
              more[k].Fired?)
        || exists i :: LastGrant(more, i, id) && now[id].lease == Some(Lease(more[i].run, Leased, more[i].expires))
    {
      if id == e.id && e.Granted? {
        assert LastGrant(more, |log|, id);
      } else if i :| LastGrant(log, i, id) && tasks[id].lease == Some(Lease(log[i].run, Leased, log[i].expires)) {
        assert LastGrant(more, i, id);
      }
    }
  }

  lemma FollowsExplained(parse: Parser, loaded: map<string, Task>, a: Snapshot, b: Snapshot)
    requires Follows(parse, a, b) && Explained(loaded, a.tasks, a.log)
    ensures Explained(loaded, b.tasks, b.log)
  {
    hide Explained, LeaseEffect, PaceEffect;
    if b.tasks != a.tasks || b.log != a.log {
      var e :| Changes(parse, a, b, e);
      ExplainedKept(loaded, a.tasks, b.tasks, a.log, e);
    }
  }

  /** The lease that the file held no longer blocks at time `t`. */
  ghost predicate LoadedIsOver(loaded: map<string, Task>, id: string, t: int) {
    id in loaded && loaded[id].lease.Some? ==>
      loaded[id].lease.value.status != Leased || loaded[id].lease.value.expires <= t
  }

  /** The `i`-th entry is a lease of the task that at time `t` has neither expired nor been given back. */
  ghost predicate Outstanding(log: Log, i: int, id: string, t: int) {
    0 <= i < |log| && log[i].Granted? && log[i].id == id && t < log[i].expires && !GivenBack(log, i, |log|)
  }

  /** A task is leased exactly when some lease of its history has neither expired nor been
      given back. */
  lemma LeasedIffOutstanding(parse: Parser, loaded: map<string, Task>, tasks: map<string, Task>, log: Log,
                             clock: int, id: string, t: int)
    requires Inv(parse, tasks, log, clock) && Explained(loaded, tasks, log) && clock <= t
    requires id in tasks && LoadedIsOver(loaded, id, t)
    ensures (tasks[id].lease.Some? && tasks[id].lease.value.status == Leased && t < tasks[id].lease.value.expires) <==>
            exists i :: Outstanding(log, i, id, t)
  {
    hide Ordered, NoOverlap, Paced, Apart, NextRunGrows;
    if tasks[id].lease.Some? && tasks[id].lease.value.status == Leased && t < tasks[id].lease.value.expires {
      var i :| LastGrant(log, i, id) && tasks[id].lease == Some(Lease(log[i].run, Leased, log[i].expires));
      assert Outstanding(log, i, id, t);
    }
  }

  lemma StartsSafe(parse: Parser, tasks: map<string, Task>, clock: int)
    ensures Inv(parse, tasks, [], clock) && Explained(tasks, tasks, [])
  {
  }

  // ---- How often a task fires ----

  /** How many runs the schedule has after `lo` and up to `hi`. */
  ghost function Instants(c: Cron, lo: int, hi: int): nat
    requires LawfulCron(c)
    decreases hi - lo
  {
    if c(lo) > hi || hi <= lo then 0 else 1 + Instants(c, c(lo), hi)
  }

  predicate Within(e: Entry, id: string, lo: int, hi: int) {
    e.Fired? && e.id == id && lo <= e.time <= hi
  }

  function Fires(log: Log, id: string, lo: int, hi: int): nat {
    if log == [] then 0 else Fires(log[..|log| - 1], id, lo, hi) + if Within(log[|log| - 1], id, lo, hi) then 1 else 0
  }

  lemma {:induction false} OneMoreInstant(c: Cron, lo: int, f: int, g: int)
    requires LawfulCron(c) && lo <= f && c(f) <= g
    ensures Instants(c, lo, g) >= Instants(c, lo, f) + 1
    decreases f - lo
  {
    assert c(lo) <= c(f) && lo < c(lo) && f < c(f);
    if c(lo) <= f {
      OneMoreInstant(c, c(lo), f, g);
    }
  }

  /** The fires counted so far, up to the last one of them at `log[last]`. */
  lemma {:induction false} FiresUpTo(parse: Parser, tasks: map<string, Task>, log: Log, n: nat, id: string, lo: int,
                                     hi: int)
    returns (last: int)
    requires Apart(parse, tasks, log) && Regular(parse, tasks, log, id) && n <= |log|
    ensures Fires(log[..n], id, lo, hi) > 0 ==>
      0 <= last < n && Within(log[last], id, lo, hi) &&
        Fires(log[..n], id, lo, hi) <= 1 + Instants(CronOf(parse, tasks, id), lo, log[last].time)
  {
    var c := CronOf(parse, tasks, id);
    last := -1;
    if n > 0 {
      assert log[..n][..n - 1] == log[..n - 1];
      last := FiresUpTo(parse, tasks, log, n - 1, id, lo, hi);
      if Within(log[n - 1], id, lo, hi) {
        if Fires(log[..n - 1], id, lo, hi) > 0 {
          assert log[last].Fired? && log[last].id == log[n - 1].id;
          OneMoreInstant(c, lo, log[last].time, log[n - 1].time);
        }
        last := n - 1;
      }
    }
  }

  lemma {:induction false} MoreTimeMoreInstants(c: Cron, lo: int, mid: int, hi: int)
    requires LawfulCron(c) && mid <= hi
    ensures Instants(c, lo, mid) <= Instants(c, lo, hi)
    decreases hi - lo
  {
    if lo < mid && c(lo) <= mid {
      MoreTimeMoreInstants(c, c(lo), mid, hi);
    }
  }

  /** In any window a regular task fires at most once more often than its schedule says. */
  lemma FiresBounded(parse: Parser, tasks: map<string, Task>, log: Log, clock: int, id: string, lo: int, hi: int)
    requires Inv(parse, tasks, log, clock) && Regular(parse, tasks, log, id)
    ensures Fires(log, id, lo, hi) <= 1 + Instants(CronOf(parse, tasks, id), lo, hi)
  {
    hide Fires, Instants, NoOverlap, Held, Paced, NextRunGrows, Ordered, Apart;
    var last := FiresUpTo(parse, tasks, log, |log|, id, lo, hi);
    assert log[..|log|] == log;
    if Fires(log, id, lo, hi) > 0 {
      MoreTimeMoreInstants(CronOf(parse, tasks, id), lo, log[last].time, hi);
    }
  }

  // ---- Run IDs ----

  /** IDs below `minted` have been handed out: no two leases share one, and the lease in
      the store is the last one granted. */
  ghost predicate Fresh(tasks: map<string, Task>, log: Log, minted: nat) {
    && (forall i :: 0 <= i < |log| && log[i].Granted? ==> log[i].run < minted)
    && (forall i, j :: 0 <= i < j < |log| && log[i].Granted? && log[j].Granted? ==> log[i].run != log[j].run)
    && (forall id :: id in tasks && tasks[id].lease.Some? ==> tasks[id].lease.value.run < minted)
    && (forall i, j :: 0 <= i < j < |log| && log[i].Granted? && log[j].Granted? && log[i].id == log[j].id ==>
        !Holds(tasks, log[i].id, log[i].run))
  }

  predicate Holds(tasks: map<string, Task>, id: string, run: nat) {
    id in tasks && tasks[id].lease.Some? && tasks[id].lease.value.run == run
  }

  /** A fire leaves the leases alone, a release removes one, a new lease has a new ID. */
  lemma FreshKept(tasks: map<string, Task>, now: map<string, Task>, log: Log, e: Entry, minted: nat)
    requires Fresh(tasks, log, minted) && now.Keys == tasks.Keys
    requires forall id :: id in now && (id != e.id || !e.Granted?) ==>
             now[id].lease == tasks[id].lease || now[id].lease == None
    requires e.Granted? ==>
             e.run == minted && (e.id in now ==> now[e.id].lease == Some(Lease(minted, Leased, e.expires)))
    ensures Fresh(now, log + [e], if e.Granted? then minted + 1 else minted)
  {
    forall i, j | 0 <= i < j < |log + [e]| && (log + [e])[i].Granted? && (log + [e])[j].Granted? &&
      (log + [e])[i].id == (log + [e])[j].id
      ensures !Holds(now, (log + [e])[i].id, (log + [e])[i].run)
    {
      assert j < |log| ==> !Holds(tasks, log[i].id, log[i].run);
    }
  }

  lemma FreshLater(tasks: map<string, Task>, log: Log, minted: nat, later: nat)
    requires Fresh(tasks, log, minted) && minted <= later
    ensures Fresh(tasks, log, later)
  {
  }

  /** Once another run has taken the lease over, the old run no longer holds it, so its
      `MarkTaskDone` is refused. */
  lemma SupersededRunIsStale(tasks: map<string, Task>, log: Log, minted: nat, i: nat, j: nat)
    requires Fresh(tasks, log, minted) && i < j < |log| && log[i].Granted? && log[j].Granted? && log[i].id == log[j].id
    ensures !Holds(tasks, log[i].id, log[i].run)
  {
  }

  // ---- The store ----

  lemma FireKept(parse: Parser, tasks: map<string, Task>, log: Log, id: string, schedule: string, at: int, later: int)
    requires Inv(parse, tasks, log, at) && at <= later && id in tasks && tasks[id].nextRun <= at &&
             parse(schedule).Some?
    ensures var next := parse(schedule).value(later);
      var now, more := tasks[id := tasks[id].(nextRun := next)], log + [Fired(id, at, schedule, next)];
      Inv(parse, now, more, later) && Follows(parse, Snapshot(tasks, log, at), Snapshot(now, more, later))
  {
    hide Inv;
    var next := parse(schedule).value(later);
    var now, e := tasks[id := tasks[id].(nextRun := next)], Fired(id, at, schedule, next);
    assert Changes(parse, Snapshot(tasks, log, at), Snapshot(now, log + [e], later), e);
    EntryKept(parse, tasks, now, log, at, e, later);
  }

  lemma GrantKept(parse: Parser, tasks: map<string, Task>, log: Log, id: string, at: int, run: nat, expires: int,
                  later: int)
    requires Inv(parse, tasks, log, at) && at <= later && id in tasks && !Live(tasks[id].lease, at)
    ensures var now, more := tasks[id := tasks[id].(lease := Some(Lease(run, Leased, expires)))],
            log + [Granted(id, at, run, expires)];
      Inv(parse, now, more, later) && Follows(parse, Snapshot(tasks, log, at), Snapshot(now, more, later))
  {
    hide Inv;
    var now, e := tasks[id := tasks[id].(lease := Some(Lease(run, Leased, expires)))], Granted(id, at, run, expires);
    assert Changes(parse, Snapshot(tasks, log, at), Snapshot(now, log + [e], later), e);
    EntryKept(parse, tasks, now, log, at, e, later);
  }

  function TaskReleased(parse: Parser, t: Task, now: int): Task {
    match parse(t.schedule)
    case None => t.(lease := None)
    case Some(c) => t.(lease := None, nextRun := c(now))
  }

  function AfterRelease(parse: Parser, t: Task, now: int): Option<int> {
    match parse(t.schedule)
    case None => None
    case Some(c) => Some(c(now))
  }

  lemma ReleaseKept(parse: Parser, tasks: map<string, Task>, log: Log, id: string, run: nat, at: int)
    requires Inv(parse, tasks, log, at) && Holds(tasks, id, run)
    ensures var now := tasks[id := TaskReleased(parse, tasks[id], at)];
      var more := log + [Released(id, at, run, AfterRelease(parse, tasks[id], at))];
      Inv(parse, now, more, at) && Follows(parse, Snapshot(tasks, log, at), Snapshot(now, more, at))
  {
    hide Inv;
    var now, e :=
      tasks[id := TaskReleased(parse, tasks[id], at)], Released(id, at, run, AfterRelease(parse, tasks[id], at));
    assert Changes(parse, Snapshot(tasks, log, at), Snapshot(now, log + [e], at), e);
    EntryKept(parse, tasks, now, log, at, e, at);
  }

  /** What follows a later look at an unchanged store follows the earlier one. */
  lemma FollowsEarlier(parse: Parser, tasks: map<string, Task>, log: Log, earlier: int, at: int, b: Snapshot)
    requires earlier <= at && Follows(parse, Snapshot(tasks, log, at), b)
    ensures Follows(parse, Snapshot(tasks, log, earlier), b)
  {
    hide LeaseEffect, PaceEffect;
    if b.log != log || b.tasks != tasks {
      var e :| Changes(parse, Snapshot(tasks, log, at), b, e);
      assert Changes(parse, Snapshot(tasks, log, earlier), b, e);
    }
  }

  class Store {
    const parse: Parser
    var tasks: map<string, Task>
    var clock: int
    ghost var log: Log
    ghost const loaded: map<string, Task>  // what the file held

    ghost predicate Valid()
      reads this
    {
      Inv(parse, tasks, log, clock) && Explained(loaded, tasks, log)
    }

    ghost function Look(): Snapshot
      reads this
    {
      Snapshot(tasks, log, clock)
    }

    /** A store loaded from its file. */
    constructor (parse: Parser, tasks: map<string, Task>, now: int)
      ensures Valid() && this.parse == parse && this.tasks == loaded == tasks && log == []
    {
      this.parse, this.tasks, clock, log, loaded := parse, tasks, now, [], tasks;
    }

    /** `time.Now` */
    method Now() returns (t: int)
      requires Valid()
      modifies this`clock
      ensures Valid() && t == clock && old(clock) <= clock && Follows(parse, old(Look()), Look())
    {
      var passed: nat :| true;
      TimePasses(parse, tasks, log, clock, clock + passed);
      clock := clock + passed;
      t := clock;
    }

    /** `save`: writing the file succeeds or not. */
    method Save() returns (err: Option<StoreError>)
      ensures err in {None, Some(SaveFailed)}
    {
      var ok: bool :| true;
      err := if ok then None else Some(SaveFailed);
    }

    /** `ShouldFire`, with the schedule that the caller passes; `at` is the time
        at which the task was found due or not. */
    method ShouldFire(id: string, schedule: string) returns (r: Result<(bool, int), StoreError>, ghost at: int)
      requires Valid()
      modifies this
      ensures Valid() && old(clock) <= at <= clock && Follows(parse, old(Look()), Look())
      ensures r.Success? && r.value.0 <==> id in old(tasks) && old(tasks)[id].nextRun <= at && parse(schedule).Some?
      ensures r.Success? && r.value.0 ==>
        && r.value.1 == parse(schedule).value(clock)
        && tasks == old(tasks)[id := old(tasks)[id].(nextRun := r.value.1)]
        && log == old(log) + [Fired(id, at, schedule, r.value.1)]
      ensures !(r.Success? && r.value.0) ==> tasks == old(tasks) && log == old(log)
      ensures r.Success? && !r.value.0 ==> id in old(tasks) && r.value.1 == old(tasks)[id].nextRun > at
      ensures r.Failure? ==> r.error == if id in old(tasks) then InvalidSchedule else TaskNotFound
    {
      hide Inv;
      at := clock;
      if id !in tasks {
        return Failure(TaskNotFound), at;
      }
      var t := tasks[id];
      var first := Now();
      at := first;
      if t.nextRun > first {
        return Success((false, t.nextRun)), at;
      }
      var cron := parse(schedule);
      if cron.None? {
        return Failure(InvalidSchedule), at;
      }
      var second := Now();
      var nextRun := cron.value(second);
      FireKept(parse, tasks, log, id, schedule, at, clock);
      FollowsEarlier(parse, tasks, log, old(clock), at,
                     Snapshot(tasks[id := t.(nextRun := nextRun)], log + [Fired(id, at, schedule, nextRun)], clock));
      tasks := tasks[id := t.(nextRun := nextRun)];
      log := log + [Fired(id, at, schedule, nextRun)];
      FollowsExplained(parse, loaded, old(Look()), Look());
      r := Success((true, nextRun));
    }

    /** `AcquireLease`; a lease whose save failed stays in memory. */
    method AcquireLease(id: string, run: nat, expires: int) returns (err: Option<StoreError>, ghost at: int)
      requires Valid()
      modifies this
      ensures Valid() && old(clock) <= at <= clock && Follows(parse, old(Look()), Look())
      ensures id !in old(tasks) ==> err == Some(TaskNotFound)
      ensures id in old(tasks) ==>
        var lease := old(tasks)[id].lease;
        if lease.None? || lease.value.status != Leased || lease.value.expires <= at then
          && err in {None, Some(SaveFailed)}
          && tasks == old(tasks)[id := old(tasks)[id].(lease := Some(Lease(run, Leased, expires)))]
          && log == old(log) + [Granted(id, at, run, expires)]
        else err == Some(AlreadyLeased)
      ensures id in old(tasks) && LoadedIsOver(loaded, id, at) ==>
        (err == Some(AlreadyLeased) <==> exists i :: Outstanding(old(log), i, id, at))
      ensures err in {Some(TaskNotFound), Some(AlreadyLeased)} ==> tasks == old(tasks) && log == old(log)
    {
      hide Inv, Explained, Outstanding, LoadedIsOver;
      at := clock;
      if id !in tasks {
        return Some(TaskNotFound), at;
      }
      var t := tasks[id];
      var now := Now();
      at := now;
      if LoadedIsOver(loaded, id, at) {
        LeasedIffOutstanding(parse, loaded, tasks, log, clock, id, at);
      }
      if t.lease.Some? && t.lease.value.status == Leased && now < t.lease.value.expires {
        return Some(AlreadyLeased), at;
      }
      GrantKept(parse, tasks, log, id, at, run, expires, clock);
      FollowsEarlier(parse, tasks, log, old(clock), at,
                     Snapshot(tasks[id := t.(lease := Some(Lease(run, Leased, expires)))],
                              log + [Granted(id, at, run, expires)], clock));
      tasks := tasks[id := t.(lease := Some(Lease(run, Leased, expires)))];
      log := log + [Granted(id, at, run, expires)];
      FollowsExplained(parse, loaded, old(Look()), Look());
      err := Save();
    }

    /** `LeaseTask` counts the duration from a second look at the clock. */
    method LeaseTask(id: string, run: nat, duration: int) returns (err: Option<StoreError>, ghost at: int)
      requires Valid()
      modifies this
      ensures Valid() && old(clock) <= at <= clock && Follows(parse, old(Look()), Look())
      ensures id !in old(tasks) ==> err == Some(TaskNotFound)
      ensures id in old(tasks) ==>
        var lease := old(tasks)[id].lease;
        if lease.None? || lease.value.status != Leased || lease.value.expires <= at then
          && err in {None, Some(SaveFailed)}
          && tasks == old(tasks)[id := old(tasks)[id].(lease := Some(Lease(run, Leased, clock + duration)))]
          && log == old(log) + [Granted(id, at, run, clock + duration)]
        else err == Some(AlreadyLeased)
      ensures id in old(tasks) && LoadedIsOver(loaded, id, at) ==>
        (err == Some(AlreadyLeased) <==> exists i :: Outstanding(old(log), i, id, at))
      ensures err in {Some(TaskNotFound), Some(AlreadyLeased)} ==> tasks == old(tasks) && log == old(log)
    {
      hide Inv, Explained, Outstanding, LoadedIsOver;
      at := clock;
      if id !in tasks {
        return Some(TaskNotFound), at;
      }
      var t := tasks[id];
      var now := Now();
      at := now;
      if LoadedIsOver(loaded, id, at) {
        LeasedIffOutstanding(parse, loaded, tasks, log, clock, id, at);
      }
      if t.lease.Some? && t.lease.value.status == Leased && now < t.lease.value.expires {
        return Some(AlreadyLeased), at;
      }
      var later := Now();
      GrantKept(parse, tasks, log, id, at, run, later + duration, clock);
      FollowsEarlier(parse, tasks, log, old(clock), at,
                     Snapshot(tasks[id := t.(lease := Some(Lease(run, Leased, later + duration)))],
                              log + [Granted(id, at, run, later + duration)], clock));
      tasks := tasks[id := t.(lease := Some(Lease(run, Leased, later + duration)))];
      log := log + [Granted(id, at, run, later + duration)];
      FollowsExplained(parse, loaded, old(Look()), Look());
      err := Save();
    }

    /** `MarkTaskDone`: only the run that holds the lease gives it back. */
    method MarkTaskDone(id: string, run: nat) returns (err: Option<StoreError>)
      requires Valid()
      modifies this
      ensures Valid() && old(clock) <= clock && Follows(parse, old(Look()), Look())
      ensures id !in old(tasks) ==> err == Some(TaskNotFound) && tasks == old(tasks) && log == old(log)
      ensures id in old(tasks) && (old(tasks)[id].lease.None? || old(tasks)[id].lease.value.run != run) ==>
        err == Some(LeaseMismatch) && tasks == old(tasks) && log == old(log)
      ensures id in old(tasks) && old(tasks)[id].lease.Some? && old(tasks)[id].lease.value.run == run ==>
        var t, cron := old(tasks)[id], parse(old(tasks)[id].schedule);
        && tasks == old(tasks)[id := t.(lease := None, nextRun := if cron.Some? then cron.value(clock) else t.nextRun)]
        && log == old(log) + [Released(id, clock, run, if cron.Some? then Some(cron.value(clock)) else None)]
        && err in if parse(old(tasks)[id].schedule).Some? then {None, Some(SaveFailed)} else {Some(InvalidSchedule)}
    {
      hide Inv;
      if id !in tasks {
        return Some(TaskNotFound);
      }
      var t := tasks[id];
      if t.lease.None? || t.lease.value.run != run {
        return Some(LeaseMismatch);
      }
      var cron := parse(t.schedule);
      if cron.None? {
        ReleaseKept(parse, tasks, log, id, run, clock);
        tasks := tasks[id := t.(lease := None)];
        log := log + [Released(id, clock, run, None)];
        FollowsExplained(parse, loaded, old(Look()), Look());
        return Some(InvalidSchedule);
      }
      var now := Now();
      ReleaseKept(parse, tasks, log, id, run, clock);
      FollowsEarlier(parse, tasks, log, old(clock), clock,
                     Snapshot(tasks[id := t.(lease := None, nextRun := cron.value(now))],
                              log + [Released(id, clock, run, Some(cron.value(now)))], clock));
      tasks := tasks[id := t.(lease := None, nextRun := cron.value(now))];
      log := log + [Released(id, clock, run, Some(cron.value(now)))];
      FollowsExplained(parse, loaded, old(Look()), Look());
      err := Save();
    }
  }

  /** A schedule that never fires again gets a next run in the past (the zero time): the
      task is due again at once, however often it fires. */
  method FiresAgainAtOnce(store: Store, id: string)
    requires store.Valid() && Parsed(store.parse, store.tasks, id) && store.tasks[id].nextRun <= store.clock
    requires forall t :: store.parse(store.tasks[id].schedule).value(t) <= store.clock
    modifies store
    ensures store.Valid() && |store.log| == |old(store.log)| + 2 && old(store.log) <= store.log
    ensures forall k :: |old(store.log)| <= k < |store.log| ==> store.log[k].Fired? && store.log[k].id == id
  {
    hide Inv, Follows;
    var schedule := store.tasks[id].schedule;
    var first, _ := store.ShouldFire(id, schedule);
    var second, _ := store.ShouldFire(id, schedule);
  }

  // ---- The engine ----

  function FireCount(log: Log, id: string): nat {
    if log == [] then 0
    else FireCount(log[..|log| - 1], id) + if log[|log| - 1].Fired? && log[|log| - 1].id == id then 1 else 0
  }

  lemma FireCountSnoc(log: Log, e: Entry)
    ensures forall id :: FireCount(log + [e], id) == FireCount(log, id) + if e.Fired? && e.id == id then 1 else 0
  {
    assert (log + [e])[..|log|] == log;
  }

  /** The `n`-th entry leases the task to this run, until a time between the two. */
  predicate LeasedHere(log: Log, n: nat, id: string, run: nat, earliest: int, latest: int) {
    n < |log| && log[n].Granted? && log[n].id == id && log[n].run == run && earliest <= log[n].expires <= latest
  }

  predicate GivenBackHere(log: Log, n: nat, id: string, run: nat) {
    n < |log| && log[n].Released? && log[n].id == id && log[n].run == run
  }

  class Scheduler {
    const store: Store
    const leaseDuration: int
    var inFlightTasks: int
    var minted: nat

    ghost predicate Valid()
      reads this, store
    {
      store.Valid() && Fresh(store.tasks, store.log, minted)
    }

    /** `minted` is above the IDs of all leases that the file held. */
    constructor (store: Store, leaseDuration: int, minted: nat)
      requires store.Valid() && Fresh(store.tasks, store.log, minted)
      ensures Valid() && this.store == store && this.leaseDuration == leaseDuration && inFlightTasks == 0
    {
      this.store, this.leaseDuration, this.minted, inFlightTasks := store, leaseDuration, minted, 0;
    }

    /** `executeTask`: at most one lease, and the event is submitted only by a run that has
        just taken it; when the submission succeeds the run gives its lease back itself. */
    method ExecuteTask(id: string) returns (submitted: bool, sent: bool)
      requires Valid()
      modifies this, store
      ensures Valid() && inFlightTasks == old(inFlightTasks) && old(store.clock) <= store.clock
      ensures sent ==> submitted
      ensures store.tasks.Keys == old(store.tasks.Keys)
      ensures forall other :: other != id && other in store.tasks ==> store.tasks[other] == old(store.tasks)[other]
      ensures id in store.tasks ==> store.tasks[id].schedule == old(store.tasks)[id].schedule
      ensures forall other :: FireCount(store.log, other) == FireCount(old(store.log), other)
      ensures old(store.log) <= store.log && minted == old(minted) + 1
      ensures submitted ==>
              LeasedHere(store.log, |old(store.log)|, id, old(minted), old(store.clock) + leaseDuration,
                         store.clock + leaseDuration)
      ensures sent ==>
        && |store.log| == |old(store.log)| + 2 && GivenBackHere(store.log, |old(store.log)| + 1, id, old(minted))
        && id in store.tasks && store.tasks[id].lease.None?
        && var cron := store.parse(store.tasks[id].schedule);
           store.tasks[id].nextRun == if cron.Some? then cron.value(store.clock) else old(store.tasks)[id].nextRun
      ensures id in store.tasks ==>
        var lease := old(store.tasks)[id].lease;
        && (lease.None? || lease.value.status != Leased || lease.value.expires <= old(store.clock) ==>
              LeasedHere(store.log, |old(store.log)|, id, old(minted), old(store.clock) + leaseDuration,
                         store.clock + leaseDuration))
        && (lease.Some? && lease.value.status == Leased && store.clock < lease.value.expires ==>
              !submitted && store.tasks == old(store.tasks) && store.log == old(store.log))
      ensures id in store.tasks && LoadedIsOver(store.loaded, id, old(store.clock)) &&
              (forall i :: !Outstanding(old(store.log), i, id, old(store.clock))) ==>
        LeasedHere(store.log, |old(store.log)|, id, old(minted), old(store.clock) + leaseDuration,
                   store.clock + leaseDuration)
    {
      hide Inv, Fresh, FireCount, Explained, Outstanding, LoadedIsOver;
      if id in store.tasks && LoadedIsOver(store.loaded, id, store.clock) {
        LeasedIffOutstanding(store.parse, store.loaded, store.tasks, store.log, store.clock, id, store.clock);
      }
      inFlightTasks := inFlightTasks + 1;
      sent := false;
      var run := minted;
      submitted := Take(id, run);
      if submitted {
        sent :| true;
        var _ := store.Now();
        if sent {
          GiveBack(id, run);
        }
      }
      inFlightTasks := inFlightTasks - 1;
    }

    /** The first half: a fresh ID and the lease. */
    method Take(id: string, run: nat) returns (taken: bool)
      requires Valid() && run == minted
      modifies this`minted, store
      ensures Valid() && minted == run + 1 && old(store.clock) <= store.clock
      ensures store.tasks.Keys == old(store.tasks.Keys)
      ensures forall other :: other != id && other in store.tasks ==> store.tasks[other] == old(store.tasks)[other]
      ensures id in store.tasks ==> store.tasks[id] == old(store.tasks)[id].(lease := store.tasks[id].lease)
      ensures forall other :: FireCount(store.log, other) == FireCount(old(store.log), other)
      ensures store.log == old(store.log) ||
        (|store.log| == |old(store.log)| + 1 && old(store.log) <= store.log &&
         LeasedHere(store.log, |old(store.log)|, id, run, old(store.clock) + leaseDuration,
                    store.clock + leaseDuration))
      ensures taken ==> store.log != old(store.log) && Holds(store.tasks, id, run)
      ensures id in store.tasks ==>
        var lease := old(store.tasks)[id].lease;
        && (lease.None? || lease.value.status != Leased || lease.value.expires <= old(store.clock) ==>
              store.log != old(store.log))
        && (lease.Some? && lease.value.status == Leased && store.clock < lease.value.expires ==>
              !taken && store.tasks == old(store.tasks) && store.log == old(store.log))
    {
      hide Inv, Fresh, FireCount, Explained, Outstanding, LoadedIsOver;
      var now := store.Now();
      ghost var before, log := store.tasks, store.log;
      ghost var at;
      var err;
      err, at := store.AcquireLease(id, run, now + leaseDuration);
      minted := minted + 1;
      if store.log == log {
        FreshLater(before, log, run, run + 1);
      } else {
        ghost var e := Granted(id, at, run, now + leaseDuration);
        FreshKept(before, store.tasks, log, e, run);
        FireCountSnoc(log, e);
      }
      taken := err.None?;
    }

    /** The second half: `MarkTaskDone` by the run that holds the lease. */
    method GiveBack(id: string, run: nat)
      requires Valid() && Holds(store.tasks, id, run)
      modifies store
      ensures Valid() && old(store.clock) <= store.clock
      ensures store.tasks == old(store.tasks)[id := TaskReleased(store.parse, old(store.tasks)[id], store.clock)]
      ensures store.log ==
              old(store.log) +
              [Released(id, store.clock, run, AfterRelease(store.parse, old(store.tasks)[id], store.clock))]
      ensures forall other :: FireCount(store.log, other) == FireCount(old(store.log), other)
    {
      hide Inv, Fresh, FireCount;
      ghost var held, log := store.tasks, store.log;
      var _ := store.MarkTaskDone(id, run);
      ghost var e := Released(id, store.clock, run, AfterRelease(store.parse, held[id], store.clock));
      FreshKept(held, store.tasks, log, e, minted);
      FireCountSnoc(log, e);
    }

    /** The schedule of a loaded task says that it fires at a tick that starts at `now`. */
    ghost predicate Due(tasks: map<string, Task>, id: string, now: int)
      reads store
    {
      id in tasks && tasks[id].schedule != "" && store.parse(tasks[id].schedule).Some? && tasks[id].nextRun <= now
    }

    /** The body of the loop in `processCronJobs`, for one loaded task. */
    method ProcessTask(id: string, schedule: string)
      requires Valid() && id in store.tasks && store.tasks[id].schedule == schedule
      modifies this, store
      ensures Valid() && inFlightTasks == old(inFlightTasks) && old(store.clock) <= store.clock
      ensures store.tasks.Keys == old(store.tasks.Keys)
      ensures forall other :: other != id && other in store.tasks ==> store.tasks[other] == old(store.tasks)[other]
      ensures forall other :: other != id ==> FireCount(store.log, other) == FireCount(old(store.log), other)
      ensures FireCount(store.log, id) <= FireCount(old(store.log), id) + 1
      ensures old(store.log) <= store.log
      ensures Due(old(store.tasks), id, old(store.clock)) ==>
              FireCount(store.log, id) == FireCount(old(store.log), id) + 1
      ensures Due(old(store.tasks), id, old(store.clock)) &&
              (old(store.tasks)[id].lease.None? || old(store.tasks)[id].lease.value.status != Leased ||
               old(store.tasks)[id].lease.value.expires <= old(store.clock)) ==>
        LeasedHere(store.log, |old(store.log)| + 1, id, old(minted), old(store.clock) + leaseDuration,
                   store.clock + leaseDuration)
      ensures schedule == "" || store.parse(schedule).None? ==>
              FireCount(store.log, id) == FireCount(old(store.log), id)
    {
      hide Inv, Fresh, FireCount;
      if schedule == "" {
        return;
      }
      ghost var before, log := store.tasks, store.log;
      var r, at := store.ShouldFire(id, schedule);
      if r.Success? && r.value.0 {
        ghost var e := Fired(id, at, schedule, r.value.1);
        FireCountSnoc(log, e);
        FreshKept(before, store.tasks, log, e, minted);
        var _, _ := ExecuteTask(id);
      }
    }

    /** `processCronJobs`: every loaded task is looked at once, in the order of the map. A
        tick fires no task twice, and each task that is due exactly once. */
    method ProcessCronJobs()
      requires Valid()
      modifies this, store
      ensures Valid() && inFlightTasks == old(inFlightTasks)
      ensures forall id :: FireCount(store.log, id) <= FireCount(old(store.log), id) + 1
      ensures forall id :: Due(old(store.tasks), id, old(store.clock)) ==>
              FireCount(store.log, id) == FireCount(old(store.log), id) + 1
    {
      hide Inv, Fresh, FireCount;
      ghost var log, clock := store.log, store.clock;
      var tasks := store.tasks;
      var todo := tasks.Keys;
      while todo != {}
        invariant todo <= tasks.Keys && Valid() && inFlightTasks == old(inFlightTasks) && clock <= store.clock
        invariant store.tasks.Keys == tasks.Keys && forall id :: id in todo ==> store.tasks[id] == tasks[id]
        invariant forall id :: id in todo || id !in tasks ==> FireCount(store.log, id) == FireCount(log, id)
        invariant forall id :: FireCount(store.log, id) <= FireCount(log, id) + 1
        invariant forall id :: id !in todo && Due(tasks, id, clock) ==>
                  FireCount(store.log, id) == FireCount(log, id) + 1
      {
        var id :| id in todo;
        todo := todo - {id};
        ProcessTask(id, tasks[id].schedule);
      }
    }
  }
}
