/** The handler: a power-of-two array of shards addressed by a masked hash. */
module ShardedCache {
  import opened Common
  import opened ClockRows
  import opened ClockShard
  import opened ShardCount
  import Runs = ClockRuns

  /** The shards share no entry. */
  ghost predicate Separate(shards: seq<Shard>)
    reads shards
  {
    forall i, j :: 0 <= i < j < |shards| ==> shards[i] != shards[j] && shards[i].repr !! shards[j].repr
  }

  ghost predicate AllValid(shards: seq<Shard>)
    reads shards, set s: Shard, e: Entry | s in shards && e in s.repr :: e
  {
    forall i :: 0 <= i < |shards| ==> shards[i].Valid()
  }

  ghost function AllRows(shards: seq<Shard>): (st: seq<seq<Row>>)
    requires forall s :: s in shards ==> s.Nodes() <= s.repr
    reads shards, set s: Shard, e: Entry | s in shards && e in s.repr :: e
    ensures |st| == |shards| && forall i :: 0 <= i < |shards| ==> st[i] == shards[i].Rows()
  {
    if shards == [] then [] else [shards[0].Rows()] + AllRows(shards[1..])
  }

  function Total(st: seq<seq<Row>>): nat {
    if st == [] then 0 else |st[0]| + Total(st[1..])
  }

  lemma {:induction false} TotalAtMost(st: seq<seq<Row>>, capacity: nat)
    requires forall i :: 0 <= i < |st| ==> |st[i]| <= capacity
    ensures Total(st) <= |st| * capacity
  {
    if st == [] {
    } else {
      TotalAtMost(st[1..], capacity);
      assert |st| * capacity == capacity + |st[1..]| * capacity;
    }
  }

  /** A history on a clock that has not run backwards, and has not passed now. */
  ghost predicate UpTo(events: seq<Runs.Event>, now: int) {
    Runs.Timely(events) && forall e :: e in events ==> e.now <= now
  }

  class LRUOptimizedHandler {
    const shards: seq<Shard>
    const shardMask: nat
    const hash: Bytes -> nat
    const limit: int
    var closed: bool
    ghost var history: seq<Runs.Event>  // the locked sections so far that can change a row

    /** The shards are as they should be, one by one and apart from each other. */
    ghost predicate Built()
      reads shards, set s: Shard, e: Entry | s in shards && e in s.repr :: e
    {
      && IsPow2(|shards|) && |shards| >= 1 && shardMask == |shards| - 1 && limit >= 1
      && Separate(shards) && AllValid(shards)
      && Slots(|shards|, shards[0].capacity) <= limit + |shards| - 1
      && forall i :: 0 <= i < |shards| ==> shards[i].capacity == shards[0].capacity >= 1
    }

    /** And the shards hold what the handler's history made of them. */
    ghost predicate Valid()
      reads this, shards, set s: Shard, e: Entry | s in shards && e in s.repr :: e
    {
      Built() && State() == Runs.After(Setup(), history)
    }

    /** The rows of every shard. */
    ghost function State(): (st: seq<seq<Row>>)
      requires AllValid(shards)
      reads shards, set s: Shard, e: Entry | s in shards && e in s.repr :: e
      ensures |st| == |shards| && forall i :: 0 <= i < |shards| ==> st[i] == shards[i].Rows()
    {
      AllRows(shards)
    }

    constructor (maxEntries: int, processors: int, hash: Bytes -> nat)
      ensures Valid() && !closed && this.hash == hash && limit == Limit(maxEntries)
      ensures fresh(Footprint()) && history == []
    {
      hide Shard.Valid, Shard.Nodes, Shard.Rows, AllRows, IsPow2, Limit, Separate, Slots;
      var shardCount, shardCapacity;
      ghost var shardCap;
      shardCount, shardCapacity, shardCap := ChooseShards(maxEntries, processors);
      this.hash, limit, closed, shardMask := hash, Limit(maxEntries), false, shardCount - 1;
      history := [];
      var all := MakeShards(shardCount, shardCapacity);
      shards := all;
      new;
    }

    static method MakeShards(count: int, capacity: int) returns (all: seq<Shard>)
      requires count >= 0
      ensures |all| == count && Separate(all)
      ensures forall i :: 0 <= i < count ==>
                && fresh(all[i]) && fresh(all[i].repr)
                && all[i].Valid() && all[i].Rows() == [] && all[i].capacity == capacity
    {
      hide Shard.Valid, Shard.Nodes, Shard.Rows;
      all := [];
      for i := 0 to count
        invariant |all| == i && Separate(all)
        invariant forall j :: 0 <= j < i ==>
                    && fresh(all[j]) && fresh(all[j].repr)
                    && all[j].Valid() && all[j].Rows() == [] && all[j].capacity == capacity
      {
        var s := new Shard(capacity);
        all := all + [s];
      }
    }

    /** In every state the entries together stay below the limit plus one shard's rounding. */
    lemma TotalBound()
      requires Built()
      ensures Total(State()) <= limit + |shards| - 1
    {
      hide AllRows, Shard.Rows;
      forall i | 0 <= i < |shards| ensures |State()[i]| <= shards[0].capacity {
        assert shards[i].Valid();
      }
      TotalAtMost(State(), shards[0].capacity);
    }

    function ShardOf(k: Bytes): (i: nat)
      requires |shards| >= 1
      ensures i < |shards|
    {
      hash(k) % |shards|
    }

    /** The masked hash is the remainder, hence always an index. */
    method GetShard(k: Bytes) returns (i: nat)
      requires IsPow2(|shards|) && |shards| >= 1 && shardMask == |shards| - 1
      ensures i == ShardOf(k) < |shards|
    {
      i := BitAnd(hash(k), shardMask);
      ghost var n: nat :| |shards| == Pow2(n);
      MaskIsMod(hash(k), n);
    }

    /** The parameters of this handler's runs. */
    ghost function Setup(): (c: Runs.Config)
      requires |shards| >= 1
      ensures c.shards == |shards| && forall k :: c.ShardOf(k) == ShardOf(k)
    {
      Runs.Config(|shards|, shards[0].capacity, hash)
    }

    /** A hit on these rows is the live last write of the handler's history. */
    lemma HitsAreLastWrites(k: Bytes, now: int)
      requires Valid() && UpTo(history, now)
      ensures IsLastWrite(history, Lookup(State()[ShardOf(k)], k, now), k, now)
    {
      Runs.NeverLies(Setup(), history, k, now);
    }

    /** What a read may answer: a hit is the value of the key's last write, which has not expired. */
    ghost predicate IsLastWrite(events: seq<Runs.Event>, answer: Answer<Bytes>, k: Bytes, now: int)
      requires |shards| >= 1 && Setup().Ok()
    {
      var w := Runs.LastWrite(Setup(), events, k);
      answer.Hit? ==> w.Some? && answer.value == w.value.v && Runs.Live(w.value, now)
    }

    lemma TimesAreOfLastWrites(k: Bytes, now: int)
      requires Valid() && UpTo(history, now)
      ensures IsTimeLeft(history, TimeLeft(State()[ShardOf(k)], k, now), k, now)
    {
      Runs.TimeLeftOfLastWrite(Setup(), history, k, now);
    }

    /** What GetTTL may answer: what is left of the time the key's last write was given, 0 for ever. */
    ghost predicate IsTimeLeft(events: seq<Runs.Event>, answer: Answer<int>, k: Bytes, now: int)
      requires |shards| >= 1 && Setup().Ok()
    {
      var w := Runs.LastWrite(Setup(), events, k);
      answer.Hit? ==>
        && w.Some? && Runs.Live(w.value, now)
        && answer.value == if w.value.ttl == -1 then 0 else w.value.stamp + w.value.ttl - now
    }

    /** The locked sections just performed enter the history. */
    ghost method Note(events: seq<Runs.Event>)
      requires Built() && State() == Runs.Do(Setup(), Runs.After(Setup(), history), events)
      modifies this`history
      ensures Valid() && history == old(history) + events && State() == old(State())
    {
      hide State, Runs.Do, Runs.After, Separate, AllValid, AllRows, IsPow2, Shard.Rows, Shard.Valid;
      Runs.AfterDo(Setup(), history, events);
      history := history + events;
    }

    ghost function KeyFrame(key: Option<Bytes>): set<object>
      requires |shards| >= 1
      reads shards
    {
      if key.None? then {} else {shards[ShardOf(key.value)]} + shards[ShardOf(key.value)].repr
    }

    method Set(key: Option<Bytes>, value: Option<Bytes>, ttl: int, now: int) returns (st: Status)
      requires Valid()
      modifies this`history, KeyFrame(key)
      ensures Valid()
      ensures st == if key.None? then Refused(ErrInvalidKey) else if value.None? then Refused(ErrInvalidValue)
                    else if ttl < -1 then Refused(ErrInvalidTTL) else if closed then Refused(ErrClosed) else Done
      ensures history == old(history) + if st.Done? then [Runs.Wrote(key.value, value.value, ttl, now, now)] else []
    {
      hide Shard.Valid, Shard.Nodes, Shard.Rows, AllRows, Store, Separate, AllValid;
      if key.None? {
        return Refused(ErrInvalidKey);
      }
      if value.None? {
        return Refused(ErrInvalidValue);
      }
      if ttl < -1 {
        return Refused(ErrInvalidTTL);
      }
      if closed {
        return Refused(ErrClosed);
      }
      Write(key.value, value.value, ttl, now);
      st := Done;
    }

    method Write(k: Bytes, v: Bytes, ttl: int, now: int)
      requires Valid()
      modifies this`history, KeyFrame(Some(k))
      ensures Valid() && history == old(history) + [Runs.Wrote(k, v, ttl, now, now)]
    {
      hide Shard.Valid, Shard.Nodes, Shard.Rows, AllRows, Store, Separate, AllValid, IsPow2;
      var i := GetShard(k);
      var expiry := 0;
      if ttl > 0 {
        expiry := now + ttl;
      } else if ttl == 0 {
        expiry := now - 1;
      }
      OneStep(State(), Runs.Wrote(k, v, ttl, now, now));
      PutIn(i, k, v, expiry);
      Note([Runs.Wrote(k, v, ttl, now, now)]);
    }

    lemma OneStep(st: seq<seq<Row>>, e: Runs.Event)
      requires |st| == |shards| >= 1 && Setup().Ok()
      ensures Runs.Do(Setup(), st, [e]) == Runs.Step(Setup(), st, e)
    {
      assert Runs.Do(Setup(), st, [e][..0]) == st;
    }

    method PutIn(i: nat, k: Bytes, v: Bytes, expiry: int)
      requires Built() && i < |shards|
      modifies shards[i], shards[i].repr
      ensures Built()
      ensures State() == old(State())[i := Store(old(State())[i], shards[i].capacity, k, v, expiry)]
    {
      hide Shard.Valid, Shard.Nodes, Shard.Rows, AllRows, Store;
      ghost var was := State();
      ghost var fallback := shards[i].Put(k, v, expiry);
      forall j | 0 <= j < |shards| && j != i ensures shards[j].Valid() && shards[j].Rows() == was[j] {
      }
      assert State() == was[i := shards[i].Rows()];
    }

    method ReadIn(i: nat, k: Bytes, now: int) returns (answer: Answer<Bytes>, stale: bool)
      requires Built() && i < |shards|
      modifies shards[i].repr
      ensures Built()
      ensures var rows := old(State())[i];
              && answer == Lookup(rows, k, now)
              && stale == (HasKey(rows, k) && Expired(rows[Find(rows, k)].expiry, now))
              && State() == old(State())[i := Touch(rows, k, now)]
    {
      hide Shard.Valid, Shard.Nodes, Shard.Rows, AllRows, Lookup, Touch;
      ghost var was := State();
      answer, stale := shards[i].Read(k, now);
      forall j | 0 <= j < |shards| && j != i ensures shards[j].Valid() && shards[j].Rows() == was[j] {
      }
      assert State() == was[i := shards[i].Rows()];
    }

    method PurgeIn(i: nat, k: Bytes, now: int)
      requires Built() && i < |shards|
      modifies shards[i], shards[i].repr
      ensures Built() && State() == old(State())[i := Purge(old(State())[i], k, now)]
    {
      hide Shard.Valid, Shard.Nodes, Shard.Rows, AllRows, Purge;
      ghost var was := State();
      shards[i].PurgeIfExpired(k, now);
      forall j | 0 <= j < |shards| && j != i ensures shards[j].Valid() && shards[j].Rows() == was[j] {
      }
      assert State() == was[i := shards[i].Rows()];
    }

    method RemoveIn(i: nat, k: Bytes)
      requires Built() && i < |shards|
      modifies shards[i], shards[i].repr
      ensures Built() && State() == old(State())[i := Delete(old(State())[i], k)]
    {
      hide Shard.Valid, Shard.Nodes, Shard.Rows, AllRows, Delete;
      ghost var was := State();
      shards[i].Remove(k);
      forall j | 0 <= j < |shards| && j != i ensures shards[j].Valid() && shards[j].Rows() == was[j] {
      }
      assert State() == was[i := shards[i].Rows()];
    }

    method ClearIn(i: nat)
      requires Built() && i < |shards|
      modifies shards[i], shards[i].repr
      ensures Built() && State() == old(State())[i := []] && shards[i].repr == old(shards[i].repr)
    {
      hide Shard.Valid, Shard.Nodes, Shard.Rows, AllRows;
      ghost var was := State();
      shards[i].Clear();
      forall j | 0 <= j < |shards| && j != i ensures shards[j].Valid() && shards[j].Rows() == was[j] {
      }
      assert State() == was[i := shards[i].Rows()];
    }

    /** A read at time now; when it meets an expired row it takes the write lock and, at time later, purges it. A
        hit is the value of the key's last write, still live, if the clock has not run backwards. */
    method Get(key: Option<Bytes>, now: int, later: int) returns (answer: Answer<Bytes>)
      requires Valid()
      modifies this`history, KeyFrame(key)
      ensures Valid()
      ensures answer == if key.None? then Fail(ErrInvalidKey) else if closed then Fail(ErrClosed)
                        else Lookup(old(State())[ShardOf(key.value)], key.value, now)
      ensures history == old(history) + if key.None? || closed then []
                                        else ReadEvents(old(State()), key.value, now, later)
      ensures key.Some? && UpTo(old(history), now) ==>
                IsLastWrite(old(history), answer, key.value, now)
    {
      hide Built, State, Lookup, ReadEvents, Runs.After, Runs.LastWrite, UpTo;
      if key.None? {
        return Fail(ErrInvalidKey);
      }
      if closed {
        return Fail(ErrClosed);
      }
      answer := Fetch(key.value, now, later);
    }

    /** A read under the read lock, then the purge under the write lock if what was found had expired. */
    method Fetch(k: Bytes, now: int, later: int) returns (answer: Answer<Bytes>)
      requires Valid()
      modifies this`history, KeyFrame(Some(k))
      ensures Valid()
      ensures answer == Lookup(old(State())[ShardOf(k)], k, now)
      ensures history == old(history) + ReadEvents(old(State()), k, now, later)
      ensures UpTo(old(history), now) ==>
                IsLastWrite(old(history), answer, k, now)
    {
      hide Shard.Valid, Shard.Nodes, Shard.Rows, AllRows, Lookup, Touch, Purge, IsPow2, Separate, Runs.Do, Runs.After;
      hide ReadEvents, IsLastWrite, UpTo;
      if UpTo(history, now) {
        HitsAreLastWrites(k, now);
      }
      ghost var was := State();
      answer := ReadAndPurge(k, now, later);
      ReadSteps(was, k, now, later);
      Note(ReadEvents(was, k, now, later));
    }

    method ReadAndPurge(k: Bytes, now: int, later: int) returns (answer: Answer<Bytes>)
      requires Built()
      modifies KeyFrame(Some(k))
      ensures Built()
      ensures answer == Lookup(old(State())[ShardOf(k)], k, now)
      ensures var i, st := ShardOf(k), old(State());
              var touched := st[i := Touch(st[i], k, now)];
              State() == if HasKey(st[i], k) && Expired(st[i][Find(st[i], k)].expiry, now)
                         then touched[i := Purge(touched[i], k, later)] else touched
    {
      hide Shard.Valid, Shard.Nodes, Shard.Rows, AllRows, Lookup, Touch, Purge, IsPow2, Separate;
      var i := GetShard(k);
      var stale;
      ghost var was := State();
      answer, stale := ReadIn(i, k, now);
      if stale {
        StaleTouch(was[i], k, now);
        PurgeIn(i, k, later);
      }
    }

    /** The locked sections of a read of these rows: the read, and the purge if what it found had expired. */
    ghost function ReadEvents(st: seq<seq<Row>>, k: Bytes, now: int, later: int): seq<Runs.Event>
      requires |st| == |shards| >= 1
    {
      var rows := st[ShardOf(k)];
      [Runs.Touched(k, now)]
      + if HasKey(rows, k) && Expired(rows[Find(rows, k)].expiry, now) then [Runs.Purged(k, later)] else []
    }

    lemma ReadSteps(st: seq<seq<Row>>, k: Bytes, now: int, later: int)
      requires |st| == |shards| >= 1 && shards[0].capacity >= 1
      ensures var i := ShardOf(k);
              var touched := st[i := Touch(st[i], k, now)];
              Runs.Do(Setup(), st, ReadEvents(st, k, now, later))
              == if HasKey(st[i], k) && Expired(st[i][Find(st[i], k)].expiry, now)
                 then touched[i := Purge(touched[i], k, later)] else touched
    {
      hide Touch, Purge, Find;
      var t, p := Runs.Touched(k, now), Runs.Purged(k, later);
      assert [t][..0] == [] && [t, p][..1] == [t];
      assert Runs.Do(Setup(), st, []) == st;
      assert Runs.Do(Setup(), st, [t]) == Runs.Step(Setup(), st, t);
      assert Runs.Do(Setup(), st, [t, p]) == Runs.Step(Setup(), Runs.Do(Setup(), st, [t]), p);
    }

    method GetTTL(key: Option<Bytes>, now: int) returns (answer: Answer<int>)
      requires Valid()
      ensures answer == if key.None? then Fail(ErrInvalidKey) else if closed then Fail(ErrClosed)
                        else TimeLeft(State()[ShardOf(key.value)], key.value, now)
      ensures key.Some? && UpTo(history, now) ==> IsTimeLeft(history, answer, key.value, now)
    {
      hide Runs.After, Runs.LastWrite, UpTo, TimeLeft, Separate, AllRows;
      if key.Some? && UpTo(history, now) {
        TimesAreOfLastWrites(key.value, now);
      }
      if key.None? {
        return Fail(ErrInvalidKey);
      }
      if closed {
        return Fail(ErrClosed);
      }
      var i := GetShard(key.value);
      answer := shards[i].ReadTTL(key.value, now);
    }

    /** now is when the removal takes place; the program does not read the clock for it. */
    method Del(key: Option<Bytes>, ghost now: int) returns (st: Status)
      requires Valid()
      modifies this`history, KeyFrame(key)
      ensures Valid()
      ensures st == if key.None? then Refused(ErrInvalidKey) else if closed then Refused(ErrClosed) else Done
      ensures history == old(history) + if st.Refused? then [] else [Runs.Deleted(key.value, now)]
    {
      hide Shard.Valid, Shard.Nodes, Shard.Rows, AllRows, Delete, IsPow2, Separate, AllValid;
      if key.None? {
        return Refused(ErrInvalidKey);
      }
      if closed {
        return Refused(ErrClosed);
      }
      Forget(key.value, now);
      st := Done;
    }

    method Forget(k: Bytes, ghost now: int)
      requires Valid()
      modifies this`history, KeyFrame(Some(k))
      ensures Valid() && history == old(history) + [Runs.Deleted(k, now)]
    {
      hide Shard.Valid, Shard.Nodes, Shard.Rows, AllRows, Delete, IsPow2, Separate, AllValid;
      var i := GetShard(k);
      OneStep(State(), Runs.Deleted(k, now));
      RemoveIn(i, k);
      Note([Runs.Deleted(k, now)]);
    }

    ghost function Footprint(): set<object>
      reads shards
    {
      var owners: set<object> := set s: Shard | s in shards;
      var entries: set<object> := set s: Shard, e: Entry | s in shards && e in s.repr :: e;
      owners + entries
    }

    /** Every shard is emptied in turn; the handler stays open. */
    method Clear(ghost now: int)
      requires Valid()
      modifies this`history, Footprint()
      ensures Valid()
      ensures State() == if closed then old(State()) else seq(|shards|, _ => [])
      ensures history == old(history) + if closed then [] else Runs.EmptyAll(|shards|, now)
    {
      hide Built, State, AllRows, Runs.After;
      if closed {
        return;
      }
      Empty(now);
    }

    /** The first call empties every shard; later calls do nothing. */
    method Close(ghost now: int)
      requires Valid()
      modifies this`closed, this`history, Footprint()
      ensures Valid() && closed
      ensures State() == if old(closed) then old(State()) else seq(|shards|, _ => [])
      ensures history == old(history) + if old(closed) then [] else Runs.EmptyAll(|shards|, now)
    {
      hide Built, State, AllRows, Runs.After;
      if closed {
        return;
      }
      closed := true;
      Empty(now);
    }

    method Empty(ghost now: int)
      requires Valid()
      modifies this`history, Footprint()
      ensures Valid() && State() == seq(|shards|, _ => [])
      ensures history == old(history) + Runs.EmptyAll(|shards|, now)
    {
      hide Shard.Valid, Shard.Nodes, Shard.Rows, AllRows, IsPow2, Separate, AllValid, Runs.After, Runs.Do;
      Runs.EmptiesAll(Setup(), State(), |shards|, now);
      ClearShards();
      Note(Runs.EmptyAll(|shards|, now));
    }

    method ClearShards()
      requires Built()
      modifies Footprint()
      ensures Built() && State() == seq(|shards|, _ => [])
    {
      hide Shard.Valid, Shard.Nodes, Shard.Rows, AllRows;
      for i := 0 to |shards|
        invariant Built()
        invariant forall j :: 0 <= j < |shards| ==> shards[j].repr == old(shards[j].repr)
        invariant forall j :: 0 <= j < i ==> State()[j] == []
      {
        ghost var was := State();
        ClearIn(i);
      }
      assert State() == seq(|shards|, _ => []);
    }

    /** What a batch read owes position j. */
    ghost function Owed(keys: seq<Option<Bytes>>, clock: nat -> int, j: nat): Answer<Bytes>
      requires Built() && j < |keys|
      reads this, shards, set s: Shard, e: Entry | s in shards && e in s.repr :: e
    {
      if keys[j].None? then Fail(ErrInvalidKey)
      else Lookup(State()[ShardOf(keys[j].value)], keys[j].value, clock(j))
    }

    ghost predicate InBatch(keys: seq<Option<Bytes>>, indices: seq<nat>, b: nat)
      requires |shards| >= 1
    {
      forall x :: x in indices ==> x < |keys| && keys[x].Some? && ShardOf(keys[x].value) == b
    }

    /** Every non-nil position among the first n is in its shard's group. */
    ghost predicate Grouped(keys: seq<Option<Bytes>>, n: nat, batches: map<nat, seq<nat>>)
      requires |shards| >= 1 && n <= |keys|
    {
      (forall b :: b in batches ==> b < |shards| && InBatch(keys, batches[b], b)) &&
      forall j :: 0 <= j < n && keys[j].Some? ==>
        ShardOf(keys[j].value) in batches && j in batches[ShardOf(keys[j].value)]
    }

    method GroupByShard(keys: seq<Option<Bytes>>) returns (batches: map<nat, seq<nat>>)
      requires IsPow2(|shards|) && |shards| >= 1 && shardMask == |shards| - 1
      ensures Grouped(keys, |keys|, batches)
    {
      batches := map[];
      for i := 0 to |keys|
        invariant Grouped(keys, i, batches)
      {
        if keys[i].Some? {
          var b := GetShard(keys[i].value);
          if b !in batches {
            batches := batches[b := []];
          }
          batches := batches[b := batches[b] + [i]];
        }
      }
    }

    /** Every position is answered as Get would answer it in this state, at the time the position is looked
        at. The keys are grouped by shard first, and the groups are served in any order. */
    method BatchGet(keys: seq<Option<Bytes>>, clock: nat -> int) returns (answers: seq<Answer<Bytes>>)
      requires Valid()
      ensures |answers| == |keys|
      ensures forall j :: 0 <= j < |keys| ==> answers[j] == if closed then Fail(ErrClosed) else Owed(keys, clock, j)
      ensures forall j :: 0 <= j < |keys| && keys[j].Some? && UpTo(history, clock(j)) ==>
                IsLastWrite(history, answers[j], keys[j].value, clock(j))
    {
      hide State, AllRows, AllValid, Separate, Lookup, IsLastWrite, UpTo, Runs.After;
      if closed {
        answers := seq(|keys|, _ => Fail(ErrClosed));
      } else {
        answers := AnswerAll(keys, clock);
      }
      forall j | 0 <= j < |keys| && keys[j].Some? && UpTo(history, clock(j))
        ensures IsLastWrite(history, answers[j], keys[j].value, clock(j))
      {
        AnswersAreLastWrites(answers[j], keys[j].value, clock(j));
      }
    }

    lemma AnswersAreLastWrites(answer: Answer<Bytes>, k: Bytes, now: int)
      requires Valid() && UpTo(history, now)
      requires answer == Fail(ErrClosed) || answer == Lookup(State()[ShardOf(k)], k, now)
      ensures IsLastWrite(history, answer, k, now)
    {
      HitsAreLastWrites(k, now);
    }

    method AnswerAll(keys: seq<Option<Bytes>>, clock: nat -> int) returns (answers: seq<Answer<Bytes>>)
      requires Built()
      ensures |answers| == |keys| && forall j :: 0 <= j < |keys| ==> answers[j] == Owed(keys, clock, j)
    {
      hide Shard.Valid, Shard.Nodes, Shard.Rows, AllRows, Lookup, InBatch;
      answers := seq(|keys|, _ => Fail(ErrInvalidKey));
      var batches := GroupByShard(keys);
      ghost var all := batches;
      while batches != map[]
        invariant |answers| == |keys| && batches.Keys <= all.Keys && forall b :: b in batches ==> batches[b] == all[b]
        invariant forall j :: 0 <= j < |keys| && (keys[j].None? || ShardOf(keys[j].value) !in batches) ==>
                  answers[j] == Owed(keys, clock, j)
        decreases |batches|
      {
        var b :| b in batches;
        answers := ServeBatch(keys, clock, b, batches[b], answers);
        batches := batches - {b};
      }
    }

    /** One shard's group, under its read lock: nothing but the group's own positions is written. */
    method ServeBatch(keys: seq<Option<Bytes>>, clock: nat -> int, b: nat, indices: seq<nat>,
        before: seq<Answer<Bytes>>)
      returns (answers: seq<Answer<Bytes>>)
      requires Built() && b < |shards| && |before| == |keys| && InBatch(keys, indices, b)
      ensures |answers| == |keys|
      ensures forall j :: 0 <= j < |keys| ==> answers[j] == if j in indices then Owed(keys, clock, j) else before[j]
    {
      hide Shard.Valid, Shard.Nodes, Shard.Rows, AllRows, Lookup;
      answers := before;
      for n := 0 to |indices|
        invariant |answers| == |keys|
        invariant forall j :: 0 <= j < |keys| ==>
                    answers[j] == if j in indices[..n] then Owed(keys, clock, j) else before[j]
      {
        var idx := indices[n];
        assert idx in indices;
        var answer := shards[b].Peek(keys[idx].value, clock(idx));
        assert answer == Owed(keys, clock, idx);
        answers := answers[idx := answer];
        assert indices[..n + 1] == indices[..n] + [idx];
      }
      assert indices[..|indices|] == indices;
    }
  }
}
