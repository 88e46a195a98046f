/** Whole runs of the sharded cache: any interleaving of the operations' locked sections. */
module ClockRuns {
  import opened Common
  import opened ClockRows

  /** One locked section. A write carries the clock reading its expiry was computed from, taken before the
      lock; Clear and Close empty the shards one at a time. */
  datatype Event =
    | Wrote(k: Bytes, v: Bytes, ttl: int, stamp: int, now: int)
    | Touched(k: Bytes, now: int)
    | Purged(k: Bytes, now: int)
    | Deleted(k: Bytes, now: int)
    | Emptied(shard: nat, now: int)

  /** A handler's fixed parameters; the hash is any function. */
  datatype Config = Config(shards: nat, capacity: int, hash: Bytes -> nat) {
    ghost predicate Ok() {
      shards >= 1 && capacity >= 1
    }

    function ShardOf(k: Bytes): (i: nat)
      requires shards >= 1
      ensures i < shards
    {
      hash(k) % shards
    }
  }

  /** The clock does not run backwards, and was at least 2 to begin with. */
  ghost predicate Timely(events: seq<Event>) {
    (forall i :: 0 <= i < |events| && events[i].Wrote? ==>
        2 <= events[i].stamp <= events[i].now && events[i].ttl >= -1) &&
    forall i, j :: 0 <= i < j < |events| ==> events[i].now <= events[j].now
  }

  function Step(c: Config, st: seq<seq<Row>>, e: Event): (r: seq<seq<Row>>)
    requires c.Ok() && |st| == c.shards
    ensures |r| == c.shards
  {
    match e
    case Wrote(k, v, ttl, stamp, _) =>
      st[c.ShardOf(k) := Store(st[c.ShardOf(k)], c.capacity, k, v, ExpiryFor(ttl, stamp))]
    case Touched(k, now) => st[c.ShardOf(k) := Touch(st[c.ShardOf(k)], k, now)]
    case Purged(k, now) => st[c.ShardOf(k) := Purge(st[c.ShardOf(k)], k, now)]
    case Deleted(k, _) => st[c.ShardOf(k) := Delete(st[c.ShardOf(k)], k)]
    case Emptied(i, _) => if i < |st| then st[i := []] else st
  }

  function After(c: Config, events: seq<Event>): (st: seq<seq<Row>>)
    requires c.Ok()
    ensures |st| == c.shards
  {
    if events == [] then seq(c.shards, _ => [])
    else Step(c, After(c, events[..|events| - 1]), events[|events| - 1])
  }

  /** Several locked sections in a row. */
  function Do(c: Config, st: seq<seq<Row>>, events: seq<Event>): (r: seq<seq<Row>>)
    requires c.Ok() && |st| == c.shards
    ensures |r| == c.shards
  {
    if events == [] then st else Step(c, Do(c, st, events[..|events| - 1]), events[|events| - 1])
  }

  lemma {:induction false} AfterDo(c: Config, before: seq<Event>, events: seq<Event>)
    requires c.Ok()
    ensures After(c, before + events) == Do(c, After(c, before), events)
    decreases |events|
  {
    hide Step;
    if events == [] {
      assert before + events == before;
    } else {
      var init := events[..|events| - 1];
      AfterDo(c, before, init);
      assert (before + events)[..|before + events| - 1] == before + init;
    }
  }

  /** The sections of a Clear or Close. */
  function EmptyAll(n: nat, now: int): (events: seq<Event>)
    ensures |events| == n
  {
    seq(n, i requires 0 <= i < n => Emptied(i, now))
  }

  lemma {:induction false} EmptiesAll(c: Config, st: seq<seq<Row>>, n: nat, now: int)
    requires c.Ok() && |st| == c.shards && n <= c.shards
    ensures Do(c, st, EmptyAll(n, now)) == seq(n, _ => []) + st[n..]
  {
    if n == 0 {
      assert st[0..] == st;
    } else {
      EmptiesAll(c, st, n - 1, now);
      assert EmptyAll(n, now)[..n - 1] == EmptyAll(n - 1, now);
      assert seq<seq<Row>>(n, _ => []) == seq<seq<Row>>(n - 1, _ => []) + [[]];
    }
  }

  /** The reference: the last write of k that no later deletion or emptying undid. */
  function LastWrite(c: Config, events: seq<Event>, k: Bytes): (w: Option<Event>)
    requires c.Ok()
    ensures w.Some? ==> w.value.Wrote? && w.value in events && w.value.k == k
  {
    if events == [] then None
    else
      var e := events[|events| - 1];
      if e.Wrote? && e.k == k then Some(e)
      else if e.Deleted? && e.k == k then None
      else if e.Emptied? && e.shard == c.ShardOf(k) then None
      else LastWrite(c, events[..|events| - 1], k)
  }

  /** Whether a value written with this ttl is still to be served. */
  function Live(w: Event, now: int): bool
    requires w.Wrote?
  {
    w.ttl == -1 || (w.ttl > 0 && now <= w.stamp + w.ttl)
  }

  ghost predicate Tells(c: Config, events: seq<Event>, r: Row)
    requires c.Ok()
  {
    var w := LastWrite(c, events, r.key);
    w.Some? && r.value == w.value.v && r.expiry == ExpiryFor(w.value.ttl, w.value.stamp)
  }

  /** Every row sits in its key's shard and holds what the key's last write stored. */
  ghost predicate Honest(c: Config, events: seq<Event>, st: seq<seq<Row>>)
    requires c.Ok() && |st| == c.shards
  {
    forall i :: 0 <= i < |st| ==>
      DistinctKeys(st[i]) && |st[i]| <= c.capacity &&
      forall r :: r in st[i] ==> c.ShardOf(r.key) == i && Tells(c, events, r)
  }

  /** Each step leaves only rows it had, or the row it writes. */
  lemma StepRow(c: Config, st: seq<seq<Row>>, e: Event, i: nat, r: Row)
    requires c.Ok() && |st| == c.shards && i < |st| && DistinctKeys(st[i])
    requires r in Step(c, st, e)[i]
    ensures (e.Wrote? && e.k == r.key && i == c.ShardOf(e.k) && r.value == e.v && r.expiry == ExpiryFor(e.ttl, e.stamp))
            || (!(e.Wrote? && e.k == r.key && i == c.ShardOf(e.k)) && exists o :: o in st[i] && SameContents(o, r))
    ensures e.Deleted? && i == c.ShardOf(e.k) ==> r.key != e.k
    ensures e.Emptied? ==> e.shard != i
  {
    hide Store, Find;
    assert r in st[i] ==> SameContents(r, r);
    match e {
      case Wrote(k, v, ttl, stamp, _) =>
        if i == c.ShardOf(k) {
          StoreOnlyWrites(st[i], c.capacity, k, v, ExpiryFor(ttl, stamp), r);
        }
      case Touched(k, now) =>
        var at := Find(st[i], k);
        assert at < |st[i]| ==> SameContents(st[i][at], st[i][at].(bit := true));
      case Purged(k, now) =>
      case Deleted(k, _) =>
        if i == c.ShardOf(k) && HasKey(st[i], k) {
          RemoveKeepsDistinct(st[i], Find(st[i], k));
        }
      case Emptied(_, _) =>
    }
  }

  lemma StepShape(c: Config, st: seq<seq<Row>>, e: Event, i: nat)
    requires c.Ok() && |st| == c.shards && i < |st| && DistinctKeys(st[i]) && |st[i]| <= c.capacity
    ensures DistinctKeys(Step(c, st, e)[i]) && |Step(c, st, e)[i]| <= c.capacity
  {
    match e {
      case Wrote(k, v, ttl, stamp, _) => StoreWithinCapacity(st[i], c.capacity, k, v, ExpiryFor(ttl, stamp));
      case Touched(_, _) =>
      case Purged(k, _) =>
        if HasKey(st[i], k) {
          RemoveKeepsDistinct(st[i], Find(st[i], k));
        }
      case Deleted(k, _) =>
        if HasKey(st[i], k) {
          RemoveKeepsDistinct(st[i], Find(st[i], k));
        }
      case Emptied(_, _) =>
    }
  }

  lemma {:induction false} RunsAreHonest(c: Config, events: seq<Event>)
    requires c.Ok()
    ensures Honest(c, events, After(c, events))
  {
    if events == [] {
    } else {
      var e, before := events[|events| - 1], events[..|events| - 1];
      RunsAreHonest(c, before);
      var st := After(c, before);
      hide After, Step;
      forall i | 0 <= i < c.shards
        ensures DistinctKeys(After(c, events)[i]) && |After(c, events)[i]| <= c.capacity
        ensures forall r :: r in After(c, events)[i] ==> c.ShardOf(r.key) == i && Tells(c, events, r)
      {
        AfterLast(c, events);
        StepShape(c, st, e, i);
        forall r | r in After(c, events)[i] ensures c.ShardOf(r.key) == i && Tells(c, events, r) {
          StepRow(c, st, e, i, r);
        }
      }
    }
  }

  lemma AfterLast(c: Config, events: seq<Event>)
    requires c.Ok() && events != []
    ensures After(c, events) == Step(c, After(c, events[..|events| - 1]), events[|events| - 1])
  {
  }

  /** The cache may forget but never lies: a hit returns what the key's last write stored, and that write is
      still live. */
  lemma NeverLies(c: Config, events: seq<Event>, k: Bytes, now: int)
    requires c.Ok() && Timely(events) && forall e :: e in events ==> e.now <= now
    ensures var answer, w := Lookup(After(c, events)[c.ShardOf(k)], k, now), LastWrite(c, events, k);
            answer.Hit? ==> w.Some? && answer.value == w.value.v && Live(w.value, now)
  {
    RunsAreHonest(c, events);
    var rows := After(c, events)[c.ShardOf(k)];
    if HasKey(rows, k) {
      var r := rows[Find(rows, k)];
      assert r in rows && Tells(c, events, r);
    }
  }

  // ---- It forgets by eviction only ----

  /** Every write found its key or a free place. */
  ghost predicate NeverEvicts(c: Config, events: seq<Event>)
    requires c.Ok()
  {
    events == [] ||
    var e, before := events[|events| - 1], events[..|events| - 1];
    && NeverEvicts(c, before)
    && (e.Wrote? ==> var rows := After(c, before)[c.ShardOf(e.k)]; HasKey(rows, e.k) || |rows| < c.capacity)
  }

  /** A step keeps a row unless it deletes, empties, evicts, or purges it after its expiry. */
  lemma StepKeeps(c: Config, st: seq<seq<Row>>, e: Event, k: Bytes)
    requires c.Ok() && |st| == c.shards
    requires var rows := st[c.ShardOf(k)];
             && DistinctKeys(rows) && |rows| <= c.capacity && HasKey(rows, k)
             && (e.Wrote? && c.ShardOf(e.k) == c.ShardOf(k) ==> HasKey(rows, e.k) || |rows| < c.capacity)
             && (e.Purged? && e.k == k ==> !Expired(rows[Find(rows, k)].expiry, e.now))
    requires !(e.Deleted? && e.k == k) && !(e.Emptied? && e.shard == c.ShardOf(k))
    ensures HasKey(Step(c, st, e)[c.ShardOf(k)], k)
  {
    var rows := st[c.ShardOf(k)];
    match e {
      case Wrote(k', v, ttl, stamp, _) =>
        if c.ShardOf(k') == c.ShardOf(k) {
          StoreKeeps(rows, c.capacity, k', v, ExpiryFor(ttl, stamp), k);
        }
      case Touched(k', now) =>
        TouchKeepsKeys(rows, k', now, k);
      case Purged(k', _) =>
        if k' != k && HasKey(rows, k') {
          FindWithout(rows, Find(rows, k'), k);
        }
      case Deleted(k', _) =>
        if HasKey(rows, k') {
          FindWithout(rows, Find(rows, k'), k);
        }
      case Emptied(_, _) =>
    }
  }

  lemma TouchKeepsKeys(rows: seq<Row>, k: Bytes, now: int, other: Bytes)
    requires DistinctKeys(rows)
    ensures HasKey(Touch(rows, k, now), other) <==> HasKey(rows, other)
  {
    var after := Touch(rows, k, now);
    assert forall j :: 0 <= j < |rows| ==> after[j].key == rows[j].key;
  }

  lemma {:induction false} LiveWritesStay(c: Config, events: seq<Event>, k: Bytes, now: int)
    requires c.Ok() && Timely(events) && NeverEvicts(c, events) && forall e :: e in events ==> e.now <= now
    requires var w := LastWrite(c, events, k); w.Some? && Live(w.value, now)
    ensures HasKey(After(c, events)[c.ShardOf(k)], k)
  {
    var e, before := events[|events| - 1], events[..|events| - 1];
    var st := After(c, before);
    RunsAreHonest(c, before);
    AfterLast(c, events);
    hide After, Step;
    var rows := st[c.ShardOf(k)];
    if e.Wrote? && e.k == k {
      StoreKeeps(rows, c.capacity, k, e.v, ExpiryFor(e.ttl, e.stamp), k);
      WroteStep(c, st, e);
    } else {
      LiveWritesStay(c, before, k, now);
      var r := rows[Find(rows, k)];
      assert r in rows && Tells(c, before, r);
      StepKeeps(c, st, e, k);
    }
  }

  lemma WroteStep(c: Config, st: seq<seq<Row>>, e: Event)
    requires c.Ok() && |st| == c.shards && e.Wrote?
    ensures Step(c, st, e)[c.ShardOf(e.k)] == Store(st[c.ShardOf(e.k)], c.capacity, e.k, e.v, ExpiryFor(e.ttl, e.stamp))
  {
  }

  /** In a run without evictions a read hits exactly when the key's last write is still live. */
  lemma ExactWithoutEviction(c: Config, events: seq<Event>, k: Bytes, now: int)
    requires c.Ok() && Timely(events) && NeverEvicts(c, events) && forall e :: e in events ==> e.now <= now
    ensures var w := LastWrite(c, events, k);
            Lookup(After(c, events)[c.ShardOf(k)], k, now) ==
              if w.Some? && Live(w.value, now) then Hit(w.value.v) else Fail(ErrNotFound)
  {
    NeverLies(c, events, k, now);
    var w := LastWrite(c, events, k);
    if w.Some? && Live(w.value, now) {
      LiveWritesStay(c, events, k, now);
      RunsAreHonest(c, events);
      var rows := After(c, events)[c.ShardOf(k)];
      var r := rows[Find(rows, k)];
      assert r in rows && Tells(c, events, r);
    }
  }

  /** A purge after the key's expiry, a deletion and an emptying leave nothing of it; a purge before keeps it. */
  lemma RemovedIsGone(c: Config, events: seq<Event>, k: Bytes, now: int)
    requires c.Ok()
    ensures var i, st := c.ShardOf(k), After(c, events);
            && (HasKey(Step(c, st, Purged(k, now))[i], k) <==> Lookup(st[i], k, now).Hit?)
            && !HasKey(Step(c, st, Deleted(k, now))[i], k)
            && Step(c, st, Emptied(i, now))[i] == []
  {
    RunsAreHonest(c, events);
    PurgeAndDelete(After(c, events)[c.ShardOf(k)], k, now, Row(k, [], 0, false));
  }

  // ---- The second chance ----

  /** The event may take k's mark or its row: a write to the same shard, or the removal of k. */
  predicate Disturbs(c: Config, e: Event, k: Bytes)
    requires c.Ok()
  {
    match e
    case Wrote(k', _, _, _, _) => c.ShardOf(k') == c.ShardOf(k)
    case Touched(_, _) => false
    case Purged(k', _) => k' == k
    case Deleted(k', _) => k' == k
    case Emptied(shard, _) => shard == c.ShardOf(k)
  }

  lemma MarkStays(c: Config, st: seq<seq<Row>>, e: Event, k: Bytes)
    requires c.Ok() && |st| == c.shards && !Disturbs(c, e, k)
    requires DistinctKeys(st[c.ShardOf(k)]) && Marked(st[c.ShardOf(k)], k)
    ensures var rows := Step(c, st, e)[c.ShardOf(k)];
            Marked(rows, k) && SameContents(rows[Find(rows, k)], st[c.ShardOf(k)][Find(st[c.ShardOf(k)], k)])
  {
    hide Touch, Lookup, Store;
    var rows := st[c.ShardOf(k)];
    if e.Touched? && c.ShardOf(e.k) == c.ShardOf(k) {
      TouchMarks(rows, e.k, e.now);
      FindSame(rows, Touch(rows, e.k, e.now), k);
    } else if (e.Purged? || e.Deleted?) && c.ShardOf(e.k) == c.ShardOf(k) && HasKey(rows, e.k) {
      FindWithout(rows, Find(rows, e.k), k);
    }
  }

  lemma {:induction false} MarkLasts(c: Config, before: seq<Event>, between: seq<Event>, k: Bytes)
    requires c.Ok() && Marked(After(c, before)[c.ShardOf(k)], k)
    requires forall e :: e in between ==> !Disturbs(c, e, k)
    ensures var rows, was := After(c, before + between)[c.ShardOf(k)], After(c, before)[c.ShardOf(k)];
            Marked(rows, k) && SameContents(rows[Find(rows, k)], was[Find(was, k)])
    decreases |between|
  {
    hide Step, Marked, Disturbs, After;
    if between == [] {
      assert before + between == before;
      MarkedIsThere(After(c, before)[c.ShardOf(k)], k);
    } else {
      var init, e := between[..|between| - 1], between[|between| - 1];
      var events := before + between;
      assert events[..|events| - 1] == before + init && e in between;
      MarkLasts(c, before, init, k);
      RunsAreHonest(c, before + init);
      AfterLast(c, events);
      MarkStays(c, After(c, before + init), e, k);
      MarkedIsThere(After(c, events)[c.ShardOf(k)], k);
    }
  }

  lemma MarkedIsThere(rows: seq<Row>, k: Bytes)
    requires Marked(rows, k)
    ensures HasKey(rows, k) && SameContents(rows[Find(rows, k)], rows[Find(rows, k)])
  {
  }

  /** A key that a read has hit survives the next write to its shard of another key, whatever else happens before
      that but a removal of the key: the write evicts something else, and the key still reads as it did. */
  lemma HitSurvivesNextWrite(c: Config, events: seq<Event>, k: Bytes, now: int, between: seq<Event>, w: Event)
    requires c.Ok() && Lookup(After(c, events)[c.ShardOf(k)], k, now).Hit?
    requires forall e :: e in between ==> !Disturbs(c, e, k)
    requires w.Wrote? && w.k != k
    ensures Lookup(After(c, events + [Touched(k, now)] + between + [w])[c.ShardOf(k)], k, now)
            == Lookup(After(c, events)[c.ShardOf(k)], k, now)
  {
    var i, read := c.ShardOf(k), events + [Touched(k, now)];
    var late, all := read + between, read + between + [w];
    assert read[..|events|] == events && all[..|late|] == late;
    AfterLast(c, read);
    AfterLast(c, all);
    hide Store, Touch, Marked, After, Disturbs;
    TouchMarks(After(c, events)[i], k, now);
    FindSame(After(c, events)[i], After(c, read)[i], k);
    MarkLasts(c, read, between, k);
    RunsAreHonest(c, late);
    MarkedIsThere(After(c, late)[i], k);
    if c.ShardOf(w.k) == i {
      MarkedSurvives(After(c, late)[i], c.capacity, k, w.k, w.v, ExpiryFor(w.ttl, w.stamp));
      OthersHold(After(c, late)[i], c.capacity, k, w.k, w.v, ExpiryFor(w.ttl, w.stamp));
    }
  }

  /** GetTTL reports what is left of the time that the key's last write was given, 0 when it was given for ever. */
  lemma TimeLeftOfLastWrite(c: Config, events: seq<Event>, k: Bytes, now: int)
    requires c.Ok() && Timely(events) && forall e :: e in events ==> e.now <= now
    ensures var answer, w := TimeLeft(After(c, events)[c.ShardOf(k)], k, now), LastWrite(c, events, k);
            answer.Hit? ==>
              && w.Some? && Live(w.value, now)
              && answer.value == if w.value.ttl == -1 then 0 else w.value.stamp + w.value.ttl - now
  {
    RunsAreHonest(c, events);
    var rows := After(c, events)[c.ShardOf(k)];
    if HasKey(rows, k) {
      var r := rows[Find(rows, k)];
      assert r in rows && Tells(c, events, r);
    }
  }
}
