/** ExpiringHandler (expiring.go): a locked map with expiry times, lazily purged on reads and swept in samples. */
module ExpiringHandler {
  import opened Common
  import LruSpec
  import opened ExpiringSpec

  const SAMPLE_SIZE: nat := 256
  const MAX_ROUNDS: nat := 16
  const BUDGET: int := 2_000_000
  const CONTINUE_RATIO: nat := 4

  class ExpiringHandler {
    var items: map<Bytes, Item>
    var closed: bool

    ghost function State(): Box
      reads this
    {
      Box(items, map[])
    }

    constructor ()
      ensures State() == EMPTY && !closed
    {
      items, closed := map[], false;
    }

    method Set(key: Option<Bytes>, value: Option<Bytes>, ttl: int, now: int) returns (st: Status)
      modifies this`items
      ensures st == if key.None? then Refused(ErrInvalidKey) else if closed then Refused(ErrClosed)
                    else if value.None? then Refused(ErrInvalidValue) else if ttl < -1 then Refused(ErrInvalidTTL)
                    else Done
      ensures State() == if st.Done? then Step(old(State()), Event.Set(key.value, value.value, ttl, now))
                         else old(State())
    {
      if key.None? {
        return Refused(ErrInvalidKey);
      }
      if closed {
        return Refused(ErrClosed);
      }
      if value.None? {
        return Refused(ErrInvalidValue);
      }
      if ttl < -1 {
        return Refused(ErrInvalidTTL);
      }
      var expiry := None;
      if ttl > 0 {
        expiry := Some(now + ttl);
      } else if ttl == 0 {
        expiry := Some(now - LruSpec.SECOND);
      }
      items := items[key.value := Item(value.value, expiry)];
      st := Done;
    }

    /** Get's second look, under the write lock: delete the entry if it is still there and still expired. */
    method LazyDelete(k: Bytes, now: int)
      modifies this`items
      ensures State() == Step(old(State()), Drop({k}, now))
    {
      if k in items && Expired(items[k], now) {
        items := items - {k};
      } else {
        assert items - {} == items;
      }
    }

    /** now is the clock at the expiry test, later the clock at the second look. */
    method Get(key: Option<Bytes>, now: int, later: int) returns (answer: Answer<Bytes>)
      modifies this`items
      ensures key.None? ==> answer == Answer.Fail(ErrInvalidKey) && State() == old(State())
      ensures key.Some? && closed ==> answer == Answer.Fail(ErrClosed) && State() == old(State())
      ensures key.Some? && !closed ==>
                var item := ExpiringSpec.Get(old(items), key.value);
                && answer == Shown(item, now)
                && State() == if item.Some? && Expired(item.value, now)
                    then Step(old(State()), Drop({key.value}, later))
                              else old(State())
    {
      if key.None? {
        return Answer.Fail(ErrInvalidKey);
      }
      if closed {
        return Answer.Fail(ErrClosed);
      }
      if key.value !in items {
        return Answer.Fail(ErrNotFound);
      }
      var item := items[key.value];
      if item.expiry.Some? && now > item.expiry.value {
        LazyDelete(key.value, later);
        return Answer.Fail(ErrNotFound);
      }
      answer := Hit(item.value);
    }

    method GetTTL(key: Option<Bytes>, now: int) returns (answer: Answer<int>)
      ensures answer == if key.None? then Answer.Fail(ErrInvalidKey) else if closed then Answer.Fail(ErrClosed)
                        else TimeLeft(State(), key.value, now)
    {
      if key.None? {
        return Answer.Fail(ErrInvalidKey);
      }
      if closed {
        return Answer.Fail(ErrClosed);
      }
      if key.value !in items {
        return Answer.Fail(ErrNotFound);
      }
      var expiry := items[key.value].expiry;
      if expiry.None? {
        return Hit(0);
      }
      answer := Hit(expiry.value - now);
    }

    method Del(key: Option<Bytes>) returns (st: Status)
      modifies this`items
      ensures st == if key.None? then Refused(ErrInvalidKey) else if closed then Refused(ErrClosed) else Done
      ensures State() == if st.Done? then Step(old(State()), Event.Del(key.value)) else old(State())
    {
      if key.None? {
        return Refused(ErrInvalidKey);
      }
      if closed {
        return Refused(ErrClosed);
      }
      items := items - {key.value};
      st := Done;
    }

    /** A nil key counts as the empty key here. */
    method BatchGet(keys: seq<Bytes>, now: int) returns (answers: seq<Answer<Bytes>>)
      ensures answers == if closed then seq(|keys|, _ => Answer.Fail(ErrClosed)) else Reply(State(), Batch(keys, now))
    {
      if closed {
        return seq(|keys|, _ => Answer.Fail(ErrClosed));
      }
      answers := [];
      for i := 0 to |keys|
        invariant |answers| == i
        invariant forall j :: 0 <= j < i ==> answers[j] == BatchAnswer(items, keys[j], now)
      {
        var answer := Answer.Fail(ErrNotFound);
        if keys[i] == [] {
          answer := Answer.Fail(ErrInvalidKey);
        } else if keys[i] in items {
          var item := items[keys[i]];
          if !(item.expiry.Some? && now > item.expiry.value) {
            answer := Hit(item.value);
          }
        }
        answers := answers + [answer];
      }
    }

    /** One sweep round looks at limit entries of its own choice, or at all if there are fewer, and removes
        exactly those of them that have expired. */
    method SweepSample(limit: nat, now: int) returns (scanned: nat, expired: nat, ghost seen: set<Bytes>)
      modifies this`items
      ensures seen <= old(items).Keys && scanned == |seen|
      ensures scanned == if |old(items)| <= limit then |old(items)| else limit
      ensures expired == |Overdue(old(items), seen, now)| <= scanned
      ensures State() == Step(old(State()), Drop(seen, now))
    {
      hide Overdue;
      scanned, expired, seen := 0, 0, {};
      var todo := items.Keys;
      NothingSeen(items, now);
      while todo != {} && scanned < limit
        invariant todo <= old(items).Keys && seen == old(items).Keys - todo
        invariant scanned == |seen| <= limit && scanned + |todo| == |old(items)|
        invariant expired == |Overdue(old(items), seen, now)| <= scanned
        invariant items == old(items) - Overdue(old(items), seen, now)
        decreases |todo|
      {
        var k :| k in todo;
        SeeOneMore(old(items), seen, k, now);
        todo := todo - {k};
        seen := seen + {k};
        scanned := scanned + 1;
        if items[k].expiry.Some? && now > items[k].expiry.value {
          items := items - {k};
          expired := expired + 1;
        }
      }
    }

    /** One tick of the sweeper; clock gives the time of each round's scan and of each deadline test, seen what
        each round looks at. It goes on exactly as long as the rounds are dense and in time, at most 16 of them.
        Nothing it removes is unexpired when it is removed, the last scan being the latest; and if no more than a
        sample was stored, every entry that had expired when it began is gone. */
    method SweepIncremental(start: int, clock: nat -> int) returns (ghost seen: seq<set<Bytes>>)
      requires Rising(start, clock)
      modifies this`items
      ensures 1 <= |seen| <= MAX_ROUNDS
      ensures exists stopped ::
                Swept(old(items), items, seen, clock, start, stopped) && (|seen| < MAX_ROUNDS ==> stopped)
      ensures OnlyOverdueGone(old(items), items, clock(2 * (|seen| - 1)), start)
      ensures |old(items)| - |items| <= |seen| * SAMPLE_SIZE
    {
      hide Swept, Round, Overdue, OnlyOverdueGone, Rising;
      var round := 0;
      seen := [];
      var stopped := false;
      NothingSwept(items, clock, start);
      while round < MAX_ROUNDS && !stopped
        invariant |seen| == round <= MAX_ROUNDS && (round == 0 ==> !stopped)
        invariant Swept(old(items), items, seen, clock, start, stopped)
        decreases MAX_ROUNDS - round
      {
        ghost var before, looked := items, {};
        stopped, looked := SweepRound(round, clock, start + BUDGET);
        SweptMore(old(items), before, items, seen, looked, clock, start, stopped);
        seen := seen + [looked];
        round := round + 1;
      }
      SweptFacts(old(items), items, seen, clock, start, stopped);
      SweptBound(old(items), items, seen, clock, start, stopped);
    }

    /** A round, and whether it is the last. */
    method SweepRound(round: nat, clock: nat -> int, deadline: int) returns (stop: bool, ghost looked: set<Bytes>)
      modifies this`items
      ensures Round(old(items), items, looked, clock(2 * round), clock(2 * round + 1) > deadline, stop)
    {
      var scanned, expired;
      scanned, expired, looked := SweepSample(SAMPLE_SIZE, clock(2 * round));
      stop := scanned == 0 || expired * CONTINUE_RATIO < scanned || clock(2 * round + 1) > deadline;
    }

    method Close()
      modifies this`closed
      ensures closed
    {
      closed := true;
    }
  }

  // ---- Rounds ----

  /** A clock that does not run backwards, read from start on. */
  ghost predicate Rising(start: int, clock: nat -> int) {
    start <= clock(0) && forall i, j :: 0 <= i <= j ==> clock(i) <= clock(j)
  }

  /** A round looks at a full sample, or at everything, removes what has expired of that, and is the last if it
      met nothing or few expired entries, or its time is up. */
  ghost predicate Round(items: map<Bytes, Item>, left: map<Bytes, Item>, looked: set<Bytes>, now: int, late: bool,
                        stop: bool)
  {
    var gone := Overdue(items, looked, now);
    && looked <= items.Keys && |looked| == (if |items| <= SAMPLE_SIZE then |items| else SAMPLE_SIZE)
    && left == items - gone
    && (stop <==> |looked| == 0 || |gone| * CONTINUE_RATIO < |looked| || late)
  }

  /** left is what these rounds make of items, of which only the last may have been one to stop at. */
  ghost predicate Swept(items: map<Bytes, Item>, left: map<Bytes, Item>, seen: seq<set<Bytes>>, clock: nat -> int,
                        start: int, stopped: bool)
    decreases |seen|
  {
    if seen == [] then left == items && !stopped
    else
      var last := |seen| - 1;
      exists before, going ::
        && Swept(items, before, seen[..last], clock, start, going) && !going
        && Round(before, left, seen[last], clock(2 * last), clock(2 * last + 1) > start + BUDGET, stopped)
  }

  lemma NothingSwept(items: map<Bytes, Item>, clock: nat -> int, start: int)
    ensures Swept(items, items, [], clock, start, false)
  {
  }

  lemma SweptMore(items: map<Bytes, Item>, before: map<Bytes, Item>, left: map<Bytes, Item>, seen: seq<set<Bytes>>,
                  looked: set<Bytes>, clock: nat -> int, start: int, stop: bool)
    requires Swept(items, before, seen, clock, start, false)
    requires Round(before, left, looked, clock(2 * |seen|), clock(2 * |seen| + 1) > start + BUDGET, stop)
    ensures Swept(items, left, seen + [looked], clock, start, stop)
  {
    hide Round;
    assert (seen + [looked])[..|seen|] == seen;
  }

  /** What the rounds remove has expired by the last scan, and the first round clears a map that fits it. */
  lemma {:induction false} SweptFacts(items: map<Bytes, Item>, left: map<Bytes, Item>, seen: seq<set<Bytes>>,
                                      clock: nat -> int, start: int, stopped: bool)
    requires Swept(items, left, seen, clock, start, stopped) && seen != [] && Rising(start, clock)
    ensures OnlyOverdueGone(items, left, clock(2 * (|seen| - 1)), start)
    decreases |seen|
  {
    hide OnlyOverdueGone, Round;
    var last := |seen| - 1;
    var before, going :|
      && Swept(items, before, seen[..last], clock, start, going) && !going
      && Round(before, left, seen[last], clock(2 * last), clock(2 * last + 1) > start + BUDGET, stopped);
    if last == 0 {
      FirstRound(items, left, seen[0], clock(0), clock(1) > start + BUDGET, stopped, start);
    } else {
      SweptFacts(items, before, seen[..last], clock, start, going);
      assert clock(2 * (last - 1)) <= clock(2 * last);
      LaterRound(items, before, left, seen[last], clock(2 * (last - 1)), clock(2 * last),
                 clock(2 * last + 1) > start + BUDGET, stopped, start);
    }
  }

  lemma {:induction false} SweptBound(items: map<Bytes, Item>, left: map<Bytes, Item>, seen: seq<set<Bytes>>,
                                      clock: nat -> int, start: int, stopped: bool)
    requires Swept(items, left, seen, clock, start, stopped)
    ensures |items| - |left| <= |seen| * SAMPLE_SIZE
    decreases |seen|
  {
    hide Round;
    if seen == [] {
    } else {
      var last := |seen| - 1;
      var before, going :|
        && Swept(items, before, seen[..last], clock, start, going) && !going
        && Round(before, left, seen[last], clock(2 * last), clock(2 * last + 1) > start + BUDGET, stopped);
      SweptBound(items, before, seen[..last], clock, start, going);
      RoundFacts(before, left, seen[last], clock(2 * last), clock(2 * last + 1) > start + BUDGET, stopped);
    }
  }

  /** A round removes no more than it looked at, which is at most a sample. */
  lemma RoundFacts(items: map<Bytes, Item>, left: map<Bytes, Item>, looked: set<Bytes>, now: int, late: bool,
                   stop: bool)
    requires Round(items, left, looked, now, late, stop)
    ensures |items| - |left| <= |looked| <= SAMPLE_SIZE
  {
    var gone := Overdue(items, looked, now);
    SubsetSize(gone, looked);
    assert left.Keys == items.Keys - gone;
  }

  /** left is part of items; what is missing had expired at now, and all that had expired at start is missing
      if items fits one sample. */
  ghost predicate OnlyOverdueGone(items: map<Bytes, Item>, left: map<Bytes, Item>, now: int, start: int) {
    && (forall k :: k in left ==> k in items && left[k] == items[k])
    && (forall k :: k in items && k !in left ==> Expired(items[k], now))
    && (|items| <= SAMPLE_SIZE ==> forall k :: k in left ==> !Expired(left[k], start))
  }

  lemma FirstRound(items: map<Bytes, Item>, left: map<Bytes, Item>, looked: set<Bytes>, now: int, late: bool,
                   stop: bool, start: int)
    requires Round(items, left, looked, now, late, stop) && start <= now
    ensures OnlyOverdueGone(items, left, now, start)
  {
    if |items| <= SAMPLE_SIZE {
      SubsetSame(looked, items.Keys);
    }
  }

  lemma LaterRound(items: map<Bytes, Item>, before: map<Bytes, Item>, left: map<Bytes, Item>, looked: set<Bytes>,
                   was: int, now: int, late: bool, stop: bool, start: int)
    requires OnlyOverdueGone(items, before, was, start) && was <= now && Round(before, left, looked, now, late, stop)
    ensures OnlyOverdueGone(items, left, now, start)
  {
  }

  lemma NothingSeen(items: map<Bytes, Item>, now: int)
    ensures Overdue(items, {}, now) == {}
    ensures items - {} == items
  {
  }

  lemma SeeOneMore(items: map<Bytes, Item>, seen: set<Bytes>, k: Bytes, now: int)
    requires k in items && k !in seen
    ensures var gone, more, over := Overdue(items, seen, now), Overdue(items, seen + {k}, now), Expired(items[k], now);
            && k in items - gone
            && |more| == |gone| + (if over then 1 else 0)
            && items - more == if over then items - gone - {k} else items - gone
  {
    var gone := Overdue(items, seen, now);
    assert k !in gone;
    assert Overdue(items, seen + {k}, now) == gone + if Expired(items[k], now) then {k} else {};
  }
}
