/** Duplicate suppression with a time to live: internal/idempotency/store.go. Times are whole
    seconds of a clock that never goes back; a duration counts its whole seconds. */
module Idempotency {
  type Keys = map<string, int>

  const NANOSECONDS := 1_000_000_000

  /** `int64(ttl.Seconds())`, which drops the fraction towards zero. */
  function WholeSeconds(ttl: int): int {
    if ttl >= 0 then ttl / NANOSECONDS else -(-ttl / NANOSECONDS)
  }

  predicate Remembered(keys: Keys, key: string, now: int) {
    key in keys && keys[key] > now
  }

  function Marked(keys: Keys, key: string, ttl: int, now: int): Keys {
    if Remembered(keys, key, now) then keys else keys[key := now + WholeSeconds(ttl)]
  }

  function Pruned(keys: Keys, now: int): Keys {
    map k | k in keys && keys[k] >= now :: keys[k]
  }

  // ---- Pruning is invisible ----

  datatype Op = Mark(key: string, ttl: int, now: int) | Prune(now: int)

  function After(keys: Keys, op: Op): Keys {
    match op
    case Mark(key, ttl, now) => Marked(keys, key, ttl, now)
    case Prune(now) => Pruned(keys, now)
  }

  /** What the calls of `CheckAndMark` answer: is it a duplicate? */
  function Answers(keys: Keys, ops: seq<Op>): seq<bool>
    decreases |ops|
  {
    if ops == [] then []
    else
      (if ops[0].Mark? then [Remembered(keys, ops[0].key, ops[0].now)] else []) +
      Answers(After(keys, ops[0]), ops[1..])
  }

  function WithoutPrunes(ops: seq<Op>): seq<Op> {
    if ops == [] then [] else (if ops[0].Prune? then [] else [ops[0]]) + WithoutPrunes(ops[1..])
  }

  ghost predicate InTime(ops: seq<Op>, from: int) {
    (forall i :: 0 <= i < |ops| ==> from <= ops[i].now) && forall i, j :: 0 <= i < j < |ops| ==>
      ops[i].now <= ops[j].now
  }

  /** The two maps remember the same keys for the same time, as far as anyone can ask. */
  ghost predicate Alike(a: Keys, b: Keys, now: int) {
    forall k, t :: t >= now ==> (Remembered(a, k, t) <==> Remembered(b, k, t))
  }

  lemma PruneAlike(keys: Keys, now: int)
    ensures Alike(Pruned(keys, now), keys, now)
  {
  }

  lemma MarkAlike(a: Keys, b: Keys, key: string, ttl: int, now: int)
    requires Alike(a, b, now)
    ensures Alike(Marked(a, key, ttl, now), Marked(b, key, ttl, now), now)
  {
    var x, y := Marked(a, key, ttl, now), Marked(b, key, ttl, now);
    forall k, t | t >= now ensures Remembered(x, k, t) <==> Remembered(y, k, t) {
      assert Remembered(a, k, t) <==> Remembered(b, k, t);
      assert Remembered(a, key, now) <==> Remembered(b, key, now);
    }
  }

  lemma {:induction false} SameAnswers(a: Keys, b: Keys, ops: seq<Op>, now: int)
    requires InTime(ops, now) && Alike(a, b, now)
    ensures Answers(a, ops) == Answers(b, WithoutPrunes(ops))
    decreases |ops|
  {
    if ops != [] {
      var t, rest := ops[0].now, ops[1..];
      assert InTime(rest, t);
      match ops[0] {
        case Prune(_) =>
          PruneAlike(a, t);
          AlikeThrough(Pruned(a, t), a, b, t, now);
          SameAnswers(Pruned(a, t), b, rest, t);
          assert WithoutPrunes(ops) == WithoutPrunes(rest);
          assert Answers(a, ops) == Answers(Pruned(a, t), rest);
        case Mark(key, ttl, _) =>
          assert Alike(a, b, t);
          MarkAlike(a, b, key, ttl, t);
          SameAnswers(Marked(a, key, ttl, t), Marked(b, key, ttl, t), rest, t);
          assert Remembered(a, key, t) <==> Remembered(b, key, t);
          assert WithoutPrunes(ops)[0] == ops[0] && WithoutPrunes(ops)[1..] == WithoutPrunes(rest);
      }
    }
  }

  lemma AlikeThrough(a: Keys, b: Keys, c: Keys, t: int, now: int)
    requires Alike(a, b, t) && Alike(b, c, now) && now <= t
    ensures Alike(a, c, t)
  {
    forall k, u | u >= t ensures Remembered(a, k, u) <==> Remembered(c, k, u) {
      assert Remembered(a, k, u) <==> Remembered(b, k, u);
    }
  }

  /** Calls of `Prune`, anywhere and any number, never change what `CheckAndMark` answers. */
  lemma PruneIsInvisible(keys: Keys, ops: seq<Op>, now: int)
    requires InTime(ops, now)
    ensures Answers(keys, ops) == Answers(keys, WithoutPrunes(ops))
  {
    SameAnswers(keys, keys, ops, now);
  }

  // ---- Accepted marks ----

  datatype Accepted = Accepted(key: string, time: int, ttl: int)

  /** Two accepted marks of one key are at least the whole seconds of the first's time to
      live apart. */
  ghost predicate MarksApart(log: seq<Accepted>) {
    forall i, j :: 0 <= i < j < |log| && log[i].key == log[j].key ==>
      log[i].time + WholeSeconds(log[i].ttl) <= log[j].time
  }

  /** A mark that has not run out is remembered. */
  ghost predicate MarksKept(keys: Keys, log: seq<Accepted>, clock: int) {
    forall i :: 0 <= i < |log| ==>
      log[i].time <= clock &&
      (log[i].time + WholeSeconds(log[i].ttl) <= clock ||
       (log[i].key in keys && keys[log[i].key] >= log[i].time + WholeSeconds(log[i].ttl)))
  }

  /** Whatever is remembered was marked, or was in the file. */
  ghost predicate FromMarks(loaded: Keys, keys: Keys, log: seq<Accepted>) {
    forall k :: k in keys ==>
      || (k in loaded && keys[k] == loaded[k])
      || exists i :: 0 <= i < |log| && log[i].key == k && keys[k] == log[i].time + WholeSeconds(log[i].ttl)
  }

  lemma MarkedFromMarks(loaded: Keys, keys: Keys, log: seq<Accepted>, key: string, ttl: int, now: int)
    requires FromMarks(loaded, keys, log)
    ensures FromMarks(loaded, keys[key := now + WholeSeconds(ttl)], log + [Accepted(key, now, ttl)])
  {
    hide WholeSeconds;
    var more, marked := log + [Accepted(key, now, ttl)], keys[key := now + WholeSeconds(ttl)];
    forall k | k in marked && !(k in loaded && marked[k] == loaded[k])
      ensures exists i :: 0 <= i < |more| && more[i].key == k && marked[k] == more[i].time + WholeSeconds(more[i].ttl)
    {
      if k == key {
        assert more[|log|].key == k;
      } else {
        var i :| 0 <= i < |log| && log[i].key == k && keys[k] == log[i].time + WholeSeconds(log[i].ttl);
        assert more[i] == log[i];
      }
    }
  }

  /** `at[k]` is the instant, in nanoseconds, of the `k`-th accepted mark. */
  ghost predicate Instants(log: seq<Accepted>, at: seq<int>) {
    |at| == |log| && forall k :: 0 <= k < |log| ==> log[k].time == at[k] / NANOSECONDS
  }

  lemma WholeSecondsMeans(ttl: int)
    ensures ttl - NANOSECONDS < WholeSeconds(ttl) * NANOSECONDS
    ensures if ttl >= 0 then 0 <= WholeSeconds(ttl) * NANOSECONDS <= ttl else WholeSeconds(ttl) <= 0
  {
  }

  lemma SecondMeans(at: int)
    ensures at - NANOSECONDS < at / NANOSECONDS * NANOSECONDS <= at
  {
  }

  /** Two accepted marks of a key are no closer than two seconds less than the time to live. */
  lemma MarksApartInNanoseconds(log: seq<Accepted>, at: seq<int>, i: nat, j: nat)
    requires MarksApart(log) && Instants(log, at) && i < j < |log| && log[i].key == log[j].key
    ensures log[i].ttl - 2 * NANOSECONDS < at[j] - at[i]
  {
    hide WholeSeconds;
    WholeSecondsMeans(log[i].ttl);
    SecondMeans(at[i]);
    SecondMeans(at[j]);
  }

  /** A repetition is a duplicate at least until two seconds before the time to live is over ... */
  lemma RefusedBefore(keys: Keys, log: seq<Accepted>, clock: int, at: seq<int>, i: nat, now: int)
    requires MarksKept(keys, log, clock) && Instants(log, at) && i < |log| && clock <= now / NANOSECONDS
    requires now - at[i] <= log[i].ttl - 2 * NANOSECONDS
    ensures Remembered(keys, log[i].key, now / NANOSECONDS)
  {
    hide WholeSeconds;
    WholeSecondsMeans(log[i].ttl);
    SecondMeans(at[i]);
    SecondMeans(now);
  }

  /** ... and is accepted again as soon as it is over for all earlier ones. */
  lemma AcceptedAfter(loaded: Keys, keys: Keys, log: seq<Accepted>, at: seq<int>, key: string, now: int)
    requires FromMarks(loaded, keys, log) && Instants(log, at)
    requires key in loaded ==> loaded[key] <= now / NANOSECONDS
    requires forall k :: 0 <= k < |log| && log[k].key == key ==> at[k] <= now && log[k].ttl <= now - at[k]
    ensures !Remembered(keys, key, now / NANOSECONDS)
  {
    hide WholeSeconds;
    if key in keys && !(key in loaded && keys[key] == loaded[key]) {
      var i :| 0 <= i < |log| && log[i].key == key && keys[key] == log[i].time + WholeSeconds(log[i].ttl);
      OverBySecond(at[i], log[i].ttl, now);
    }
  }

  lemma OverBySecond(at: int, ttl: int, now: int)
    requires at <= now && ttl <= now - at
    ensures at / NANOSECONDS + WholeSeconds(ttl) <= now / NANOSECONDS
  {
    hide WholeSeconds;
    WholeSecondsMeans(ttl);
    SecondMeans(at);
    SecondMeans(now);
  }

  class Store {
    var keys: Keys
    var clock: int
    ghost var log: seq<Accepted>
    ghost const loaded: Keys  // what the file held

    ghost predicate Valid()
      reads this
    {
      MarksApart(log) && MarksKept(keys, log, clock) && FromMarks(loaded, keys, log)
    }

    /** A store loaded from its file. */
    constructor (keys: Keys, now: int)
      ensures Valid() && this.keys == loaded == keys && log == []
    {
      this.keys, clock, log, loaded := keys, now, [], keys;
    }

    /** `time.Now().Unix()` */
    method Now() returns (t: int)
      requires Valid()
      modifies this`clock
      ensures Valid() && t == clock && old(clock) <= clock
    {
      hide WholeSeconds, FromMarks;
      var passed: nat :| true;
      clock := clock + passed;
      t := clock;
    }

    method CheckAndMark(key: string, ttl: int) returns (duplicate: bool)
      requires Valid()
      modifies this
      ensures Valid() && old(clock) <= clock
      ensures duplicate == Remembered(old(keys), key, clock) && keys == Marked(old(keys), key, ttl, clock)
      ensures log == if duplicate then old(log) else old(log) + [Accepted(key, clock, ttl)]
    {
      hide WholeSeconds, MarksApart, MarksKept, FromMarks;
      var now := Now();
      ghost var before := keys;
      if key in keys {
        if keys[key] > now {
          return true;
        }
        keys := keys - {key};
      }
      keys := keys[key := now + WholeSeconds(ttl)];
      assert keys == before[key := now + WholeSeconds(ttl)];
      MarkedFromMarks(loaded, before, log, key, ttl, now);
      MarkKeepsMarks(before, log, key, ttl, now);
      log := log + [Accepted(key, now, ttl)];
      duplicate := false;
    }

    /** `Prune`, over the keys in any order. */
    method Prune() returns (count: nat)
      requires Valid()
      modifies this
      ensures Valid() && log == old(log) && old(clock) <= clock
      ensures keys == (map k | k in old(keys) && old(keys)[k] >= clock :: old(keys)[k])
      ensures count == |old(keys)| - |keys|
    {
      hide WholeSeconds, MarksApart, MarksKept, FromMarks;
      var now := Now();
      ghost var before := keys;
      var todo := keys.Keys;
      count := 0;
      while todo != {}
        invariant todo <= keys.Keys && clock == now && log == old(log)
        invariant keys == map k | k in before && (before[k] >= now || k in todo) :: before[k]
        invariant count == |before| - |keys|
      {
        var k :| k in todo;
        todo := todo - {k};
        if keys[k] < now {
          assert |keys - {k}| == |keys| - 1;
          keys := keys - {k};
          count := count + 1;
        }
      }
      assert keys == Pruned(before, now);
      PruneKeepsMarks(loaded, before, log, now);
    }
  }

  lemma MarkKeepsMarks(keys: Keys, log: seq<Accepted>, key: string, ttl: int, now: int)
    requires MarksApart(log) && MarksKept(keys, log, now) && !Remembered(keys, key, now)
    ensures MarksApart(log + [Accepted(key, now, ttl)])
    ensures MarksKept(keys[key := now + WholeSeconds(ttl)], log + [Accepted(key, now, ttl)], now)
  {
    hide WholeSeconds;
  }

  lemma PruneKeepsMarks(loaded: Keys, keys: Keys, log: seq<Accepted>, now: int)
    requires MarksKept(keys, log, now) && FromMarks(loaded, keys, log)
    ensures MarksKept(Pruned(keys, now), log, now) && FromMarks(loaded, Pruned(keys, now), log)
  {
    hide WholeSeconds;
  }
}
