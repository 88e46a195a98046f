/** The strict LRU handler: a recency list and a map, updated by every operation. */
module LruHandler {
  import opened Common
  import opened LruRuns
  import opened LruSpec

  class LRUHandler {
    const maxEntries: int
    var ll: seq<Bytes>           // keys, most recent first
    var cache: map<Bytes, Item>
    var closed: bool
    ghost var history: seq<Op>   // the operations on the present list and map

    ghost predicate Built()
      reads this`ll, this`cache
    {
      maxEntries >= 1 && State().Ok(maxEntries)
    }

    /** And the list and the map are what the history made of them. */
    ghost predicate Valid()
      reads this
    {
      Built() && State() == Run(EMPTY, maxEntries, history)
    }

    ghost function State(): Lru
      reads this`ll, this`cache
    {
      Lru(ll, cache)
    }

    constructor (maxEntries: int)
      ensures Valid() && State() == EMPTY && !closed && history == []
      ensures this.maxEntries == if maxEntries <= 0 then 10000 else maxEntries
    {
      this.maxEntries := if maxEntries <= 0 then 10000 else maxEntries;
      ll, cache, closed, history := [], map[], false, [];
    }

    /** An operation just performed enters the history. */
    ghost method Note(op: Op)
      requires Built() && State() == Step(Run(EMPTY, maxEntries, history), maxEntries, op)
      modifies this`history
      ensures Valid() && history == old(history) + [op]
    {
      RunSnoc(EMPTY, maxEntries, history, op);
      hide Step;
      history := history + [op];
    }

    /** container/list's Remove, on the element holding k. */
    method Unlink(k: Bytes)
      modifies this`ll
      ensures ll == Without(old(ll), k)
    {
      var i := 0;
      var kept := [];
      while i < |ll|
        invariant 0 <= i <= |ll| && kept + Without(ll[i..], k) == Without(ll, k)
      {
        if ll[i] != k {
          kept := kept + [ll[i]];
        }
        i := i + 1;
      }
      ll := kept;
    }

    method MoveToFront(k: Bytes)
      modifies this`ll
      ensures ll == [k] + Without(old(ll), k)
    {
      Unlink(k);
      ll := [k] + ll;
    }

    method PurgeExpired(k: Bytes, now: int) returns (removed: bool)
      requires Built() && k in cache
      modifies this`ll, this`cache
      ensures removed == Expired(old(cache)[k], now)
      ensures State() == if removed then Removed(old(State()), k) else old(State())
      ensures Built()
    {
      removed := Expired(cache[k], now);
      WithoutSize(ll, k);
      if removed {
        Unlink(k);
        cache := cache - {k};
      }
    }

    /** A hit is the value of the key's last Set, still live, if the clock has not run backwards. */
    method Get(key: Option<Bytes>, now: int) returns (answer: Answer<Option<Bytes>>)
      requires Valid()
      modifies this`ll, this`cache, this`history
      ensures Valid()
      ensures answer == if key.None? then Fail(ErrInvalidKey) else if closed then Fail(ErrClosed)
                        else Reply(old(State()), Op.Get(key.value, now))
      ensures history == old(history) + if key.None? || closed then [] else [Op.Get(key.value, now)]
      ensures key.Some? && Timed(old(history), now) ==> IsLastSet(old(history), answer, key.value, now)
    {
      hide Run, Step, Timed, LastSet, Reply;
      if key.None? {
        return Fail(ErrInvalidKey);
      }
      if closed {
        return Fail(ErrClosed);
      }
      if Timed(history, now) {
        NeverLies(maxEntries, history, key.value, now);
      }
      answer := Fetch(key.value, now);
      Note(Op.Get(key.value, now));
    }

    method Fetch(k: Bytes, now: int) returns (answer: Answer<Option<Bytes>>)
      requires Built()
      modifies this`ll, this`cache
      ensures Built()
      ensures answer == Reply(old(State()), Op.Get(k, now))
      ensures State() == Step(old(State()), maxEntries, Op.Get(k, now))
    {
      StepOk(State(), maxEntries, Op.Get(k, now));
      if k !in cache {
        return Fail(ErrNotFound);
      }
      var removed := PurgeExpired(k, now);
      if removed {
        return Fail(ErrNotFound);
      }
      MoveToFront(k);
      answer := Hit(cache[k].value);
    }

    /** A time is what is left of the time that the key's last Set was given, 0 when it was given for ever. */
    method GetTTL(key: Option<Bytes>, now: int) returns (answer: Answer<int>)
      requires Valid()
      modifies this`ll, this`cache, this`history
      ensures Valid()
      ensures answer == if key.None? then Fail(ErrInvalidKey) else if closed then Fail(ErrClosed)
                        else TimeLeft(old(State()), key.value, now)
      ensures history == old(history) + if key.None? || closed then [] else [Op.GetTTL(key.value, now)]
      ensures answer.Hit? && Timed(old(history), now) ==>
                var w := LastSet(old(history), key.value);
                && w.Some? && Live(w.value, now)
                && answer.value == if w.value.ttl < 0 then 0 else w.value.now + w.value.ttl - now
    {
      hide Run, Step, Timed, LastSet, TimeLeft;
      if key.None? {
        return Fail(ErrInvalidKey);
      }
      if closed {
        return Fail(ErrClosed);
      }
      if Timed(history, now) {
        NeverLies(maxEntries, history, key.value, now);
      }
      answer := FetchTTL(key.value, now);
      Note(Op.GetTTL(key.value, now));
    }

    method FetchTTL(k: Bytes, now: int) returns (answer: Answer<int>)
      requires Built()
      modifies this`ll, this`cache
      ensures Built()
      ensures answer == TimeLeft(old(State()), k, now)
      ensures State() == Step(old(State()), maxEntries, Op.GetTTL(k, now))
    {
      StepOk(State(), maxEntries, Op.GetTTL(k, now));
      if k !in cache {
        return Fail(ErrNotFound);
      }
      var removed := PurgeExpired(k, now);
      if removed {
        return Fail(ErrNotFound);
      }
      var expiry := cache[k].expiry;
      answer := Hit(if expiry.None? then 0 else expiry.value - now);
    }

    method Set(key: Option<Bytes>, value: Option<Bytes>, ttl: int, now: int) returns (st: Status)
      requires Valid()
      modifies this`ll, this`cache, this`history
      ensures Valid()
      ensures st == if key.None? then Refused(ErrInvalidKey) else if value.None? then Refused(ErrInvalidValue)
                    else if ttl < -1 then Refused(ErrInvalidTTL) else if closed then Refused(ErrClosed) else Done
      ensures history == old(history) + if st.Done? then [Op.Set(key.value, value.value, ttl, now)] else []
    {
      hide Run, Step;
      if key.None? {
        return Refused(ErrInvalidKey);
      }
      if value.None? {
        return Refused(ErrInvalidValue);
      }
      if ttl < -1 {
        return Refused(ErrInvalidTTL);
      }
      if closed {
        return Refused(ErrClosed);
      }
      Store(key.value, value.value, ttl, now);
      Note(Op.Set(key.value, value.value, ttl, now));
      st := Done;
    }

    method Store(k: Bytes, v: Bytes, ttl: int, now: int)
      requires Built()
      modifies this`ll, this`cache
      ensures Built() && State() == Step(old(State()), maxEntries, Op.Set(k, v, ttl, now))
    {
      StepOk(State(), maxEntries, Op.Set(k, v, ttl, now));
      var item := Item(CopyBytes(v), ExpiryFor(ttl, now));
      PushedCases(State(), maxEntries, k, item);
      hide Pushed, Without;
      if k in cache {
        cache := cache[k := item];
        MoveToFront(k);
        return;
      }
      ll := [k] + ll;
      cache := cache[k := item];
      if maxEntries > 0 && |ll| > maxEntries {
        var back := ll[|ll| - 1];
        cache := cache - {back};
        ll := ll[..|ll| - 1];
      }
    }

    method Del(key: Option<Bytes>) returns (st: Status)
      requires Valid()
      modifies this`ll, this`cache, this`history
      ensures Valid()
      ensures st == if key.None? then Refused(ErrInvalidKey) else if closed then Refused(ErrClosed) else Done
      ensures history == old(history) + if st.Done? then [Op.Del(key.value)] else []
    {
      hide Run, Step;
      if key.None? {
        return Refused(ErrInvalidKey);
      }
      if closed {
        return Refused(ErrClosed);
      }
      Remove(key.value);
      Note(Op.Del(key.value));
      st := Done;
    }

    method Remove(k: Bytes)
      requires Built()
      modifies this`ll, this`cache
      ensures Built() && State() == Step(old(State()), maxEntries, Op.Del(k))
    {
      StepOk(State(), maxEntries, Op.Del(k));
      if k in cache {
        Unlink(k);
        cache := cache - {k};
      }
    }

    /** One position after the other, each at its own clock reading. A nil key counts as the empty key here. */
    method BatchGet(keys: seq<Bytes>, clock: nat -> int) returns (answers: seq<Answer<Option<Bytes>>>)
      requires Valid()
      modifies this`ll, this`cache, this`history
      ensures Valid() && |answers| == |keys|
      ensures closed ==> State() == old(State()) && forall i :: 0 <= i < |keys| ==> answers[i] == Fail(ErrClosed)
      ensures history == old(history) + if closed then [] else BatchOps(keys, clock)
      ensures !closed ==>
                var ops := BatchOps(keys, clock);
                forall i :: 0 <= i < |keys| ==> answers[i] == Reply(Run(old(State()), maxEntries, ops[..i]), ops[i])
    {
      if closed {
        return seq(|keys|, _ => Fail(ErrClosed));
      }
      answers := BatchRounds(keys, clock);
    }

    method BatchRounds(keys: seq<Bytes>, clock: nat -> int) returns (answers: seq<Answer<Option<Bytes>>>)
      requires Valid() && !closed
      modifies this`ll, this`cache, this`history
      ensures Valid() && |answers| == |keys|
      ensures history == old(history) + BatchOps(keys, clock)
      ensures forall i :: 0 <= i < |keys| ==>
                var ops := BatchOps(keys, clock);
                answers[i] == Reply(Run(old(State()), maxEntries, ops[..i]), ops[i])
    {
      hide Step, Reply, BatchOps, Valid, State;
      ghost var ops, was := BatchOps(keys, clock), State();
      answers := [];
      RunNothing(was, maxEntries, ops);
      hide Run;
      for i := 0 to |keys|
        invariant Valid() && |answers| == i && State() == Run(was, maxEntries, ops[..i])
        invariant history == old(history) + ops[..i]
        invariant forall j :: 0 <= j < i ==> answers[j] == Reply(Run(was, maxEntries, ops[..j]), ops[j])
      {
        RunOneMore(was, maxEntries, ops, i);
        var answer := BatchOne(keys[i], clock(i));
        answers := answers + [answer];
        assert ops[..i + 1] == ops[..i] + [ops[i]];
      }
    }

    method BatchOne(k: Bytes, now: int) returns (answer: Answer<Option<Bytes>>)
      requires Valid() && !closed
      modifies this`ll, this`cache, this`history
      ensures Valid() && history == old(history) + [BatchItem(k, now)]
      ensures answer == Reply(old(State()), BatchItem(k, now))
      ensures State() == Step(old(State()), maxEntries, BatchItem(k, now))
    {
      hide Run, Step, Reply;
      answer := FetchOne(k, now);
      Note(BatchItem(k, now));
    }

    method FetchOne(k: Bytes, now: int) returns (answer: Answer<Option<Bytes>>)
      requires Built()
      modifies this`ll, this`cache
      ensures Built()
      ensures answer == Reply(old(State()), BatchItem(k, now))
      ensures State() == Step(old(State()), maxEntries, BatchItem(k, now))
    {
      StepOk(State(), maxEntries, BatchItem(k, now));
      if k == [] {
        return Fail(ErrInvalidKey);
      }
      if k !in cache {
        return Fail(ErrNotFound);
      }
      var removed := PurgeExpired(k, now);
      if removed {
        return Fail(ErrNotFound);
      }
      MoveToFront(k);
      var v := cache[k].value;
      answer := Hit(Some(if v.Some? then v.value else []));
    }

    method Close()
      requires Valid()
      modifies this
      ensures Valid() && closed && State() == if old(closed) then old(State()) else EMPTY
      ensures !old(closed) ==> history == []
    {
      if closed {
        return;
      }
      closed := true;
      ll, cache, history := [], map[], [];
    }
  }
}
