/** The expiring map as a value. Every locked section is one step, so runs interleave readers, writers, the
    sweeper and lazy deletions freely. */
module ExpiringSpec {
  import opened Common
  import LruSpec

  datatype Item = Item(value: Bytes, expiry: Option<int>)

  /** held is what each Get in flight (named by a thread number) has read and not yet judged. */
  datatype Box = Box(items: map<Bytes, Item>, held: map<nat, Option<Item>>)

  const EMPTY: Box := Box(map[], map[])

  function Expired(item: Item, now: int): bool {
    item.expiry.Some? && now > item.expiry.value
  }

  datatype Event =
    | Set(k: Bytes, v: Bytes, ttl: int, now: int)
    | Del(k: Bytes)
    | Fetch(th: nat, k: Bytes)            // Get's read section
    | Judge(th: nat, now: int)            // Get's expiry test and its answer
    | Batch(keys: seq<Bytes>, now: int)
    | Drop(seen: set<Bytes>, now: int)    // a sweep round or a lazy delete that looks at these keys
  {
    function Clocked(): bool {
      !Del? && !Fetch?
    }
  }

  /** The keys among seen that a drop at this time removes. */
  function Overdue(items: map<Bytes, Item>, seen: set<Bytes>, now: int): set<Bytes> {
    set k | k in seen && k in items && Expired(items[k], now)
  }

  function Get(items: map<Bytes, Item>, k: Bytes): Option<Item> {
    if k in items then Some(items[k]) else None
  }

  function Step(b: Box, e: Event): Box {
    match e
    case Set(k, v, ttl, now) => b.(items := b.items[k := Item(v, LruSpec.ExpiryFor(ttl, now))])
    case Del(k) => b.(items := b.items - {k})
    case Fetch(th, k) => b.(held := b.held[th := Get(b.items, k)])
    case Judge(th, _) => b.(held := b.held - {th})
    case Batch(_, _) => b
    case Drop(seen, now) => b.(items := b.items - Overdue(b.items, seen, now))
  }

  /** What a reader is told about an item it has read. */
  function Shown(item: Option<Item>, now: int): Answer<Bytes> {
    if item.None? || Expired(item.value, now) then Answer.Fail(ErrNotFound) else Hit(item.value.value)
  }

  function BatchAnswer(items: map<Bytes, Item>, k: Bytes, now: int): Answer<Bytes> {
    if k == [] then Answer.Fail(ErrInvalidKey) else Shown(Get(items, k), now)
  }

  function Reply(b: Box, e: Event): seq<Answer<Bytes>> {
    match e
    case Judge(th, now) => if th in b.held then [Shown(b.held[th], now)] else []
    case Batch(keys, now) => seq(|keys|, i requires 0 <= i < |keys| => BatchAnswer(b.items, keys[i], now))
    case _ => []
  }

  function After(events: seq<Event>): Box {
    if events == [] then EMPTY else Step(After(events[..|events| - 1]), events[|events| - 1])
  }

  /** Everything Get and BatchGet answered, in order. */
  function Answers(events: seq<Event>): seq<Answer<Bytes>> {
    if events == [] then []
    else
      var before := events[..|events| - 1];
      Answers(before) + Reply(After(before), events[|events| - 1])
  }

  /** The events read the clock in order, none later than t. */
  ghost predicate Timed(events: seq<Event>, t: int) {
    events != [] ==>
      var e := events[|events| - 1];
      (e.Clocked() ==> e.now <= t) && Timed(events[..|events| - 1], if e.Clocked() then e.now else t)
  }

  /** The same run with no sweeping and no lazy deletion. */
  function Unswept(events: seq<Event>): seq<Event> {
    if events == [] then []
    else
      var before, e := Unswept(events[..|events| - 1]), events[|events| - 1];
      if e.Drop? then before else before + [e]
  }

  // ---- Sweeping is invisible to Get and BatchGet ----

  ghost predicate SameItem(s: Option<Item>, f: Option<Item>, t: int) {
    s == f || (s.None? && f.Some? && Expired(f.value, t))
  }

  /** s is f with some entries that are expired at t forgotten. */
  ghost predicate Near(s: Box, f: Box, t: int) {
    && (forall k :: SameItem(Get(s.items, k), Get(f.items, k), t))
    && s.held.Keys == f.held.Keys
    && forall th :: th in s.held ==> SameItem(s.held[th], f.held[th], t)
  }

  lemma NearLater(s: Box, f: Box, t: int, u: int)
    requires Near(s, f, t) && t <= u
    ensures Near(s, f, u)
  {
  }

  lemma SameAnswers(s: Box, f: Box, e: Event, t: int)
    requires Near(s, f, t) && !e.Drop? && (e.Clocked() ==> t <= e.now)
    ensures Reply(s, e) == Reply(f, e)
  {
  }

  lemma StepKeepsNear(s: Box, f: Box, e: Event, t: int)
    requires Near(s, f, t) && (e.Clocked() ==> t <= e.now)
    ensures Near(Step(s, e), if e.Drop? then f else Step(f, e), if e.Clocked() then e.now else t)
  {
    var r, g, u := Step(s, e), if e.Drop? then f else Step(f, e), if e.Clocked() then e.now else t;
    forall k ensures SameItem(Get(r.items, k), Get(g.items, k), u) {
      assert SameItem(Get(s.items, k), Get(f.items, k), t);
    }
  }

  lemma UnsweptStep(events: seq<Event>)
    requires events != []
    ensures var before, e := events[..|events| - 1], events[|events| - 1];
            e.Drop? ==> && After(Unswept(events)) == After(Unswept(before))
                        && Answers(Unswept(events)) == Answers(Unswept(before))
    ensures var before, e := events[..|events| - 1], events[|events| - 1];
            !e.Drop? ==> && After(Unswept(events)) == Step(After(Unswept(before)), e)
                         && Answers(Unswept(events)) == Answers(Unswept(before)) + Reply(After(Unswept(before)), e)
  {
  }

  /** Whatever the sweeper and the lazy deletions remove and whenever they run, every Get and every BatchGet
      answers as in the run without them. */
  lemma {:induction false} SweepingIsInvisible(events: seq<Event>, t: int)
    requires Timed(events, t)
    ensures Answers(events) == Answers(Unswept(events))
    ensures Near(After(events), After(Unswept(events)), t)
    decreases |events|
  {
    hide Near, Step, Reply;
    if events == [] {
      NearSelf(EMPTY, t);
    } else {
      var before, e := events[..|events| - 1], events[|events| - 1];
      var u := if e.Clocked() then e.now else t;
      SweepingIsInvisible(before, u);
      UnsweptStep(events);
      var s, f := After(before), After(Unswept(before));
      StepKeepsNear(s, f, e, u);
      if e.Drop? {
        DropIsSilent(s, e);
      } else {
        SameAnswers(s, f, e, u);
      }
      NearLater(After(events), After(Unswept(events)), u, t);
    }
  }

  lemma NearSelf(b: Box, t: int)
    ensures Near(b, b, t)
  {
  }

  lemma DropIsSilent(b: Box, e: Event)
    requires e.Drop?
    ensures Reply(b, e) == []
  {
  }

  // ---- Every read tells the last write ----

  /** What the last write or deletion of k left, counting nothing the sweeper did. */
  function LastWrite(events: seq<Event>, k: Bytes): Option<Item> {
    if events == [] then None
    else
      var e := events[|events| - 1];
      if e.Set? && e.k == k then Some(Item(e.v, LruSpec.ExpiryFor(e.ttl, e.now)))
      else if e.Del? && e.k == k then None
      else LastWrite(events[..|events| - 1], k)
  }

  lemma {:induction false} UnsweptHoldsLastWrites(events: seq<Event>, k: Bytes)
    ensures Get(After(Unswept(events)).items, k) == LastWrite(events, k)
  {
    if events == [] {
    } else {
      UnsweptHoldsLastWrites(events[..|events| - 1], k);
      UnsweptStep(events);
    }
  }

  /** The state is the last writes, less some that have expired. */
  lemma ItemsAreLastWrites(events: seq<Event>, t: int, k: Bytes)
    requires Timed(events, t)
    ensures SameItem(Get(After(events).items, k), LastWrite(events, k), t)
  {
    SweepingIsInvisible(events, t);
    UnsweptHoldsLastWrites(events, k);
  }

  /** The last Set of k that no later Del undid. */
  function LastSet(events: seq<Event>, k: Bytes): (w: Option<Event>)
    ensures w.Some? ==> w.value.Set? && w.value.k == k
  {
    if events == [] then None
    else
      var e := events[|events| - 1];
      if e.Set? && e.k == k then Some(e) else if e.Del? && e.k == k then None else LastSet(events[..|events| - 1], k)
  }

  /** Whether a value written with this ttl is still to be served. A negative one, -1, is for ever. */
  predicate Live(w: Event, now: int)
    requires w.Set?
  {
    w.ttl < 0 || (w.ttl > 0 && now <= w.now + w.ttl)
  }

  /** What a read is to tell: the value of the last Set while it is live. */
  function Told(w: Option<Event>, now: int): Answer<Bytes>
    requires w.Some? ==> w.value.Set?
  {
    if w.Some? && Live(w.value, now) then Hit(w.value.v) else Answer.Fail(ErrNotFound)
  }

  lemma {:induction false} LastWriteIsLastSet(events: seq<Event>, k: Bytes, now: int)
    requires Timed(events, now)
    ensures var w, item := LastSet(events, k), LastWrite(events, k);
            && (w.Some? <==> item.Some?)
            && (w.Some? ==>
                  && w.value.now <= now && item.value.value == w.value.v
                  && (Expired(item.value, now) <==> !Live(w.value, now))
                  && if w.value.ttl < 0 then item.value.expiry.None?
                     else item.value.expiry.Some?
                          && (w.value.ttl > 0 ==> item.value.expiry.value == w.value.now + w.value.ttl))
    decreases |events|
  {
    if events == [] {
    } else {
      var before, e := events[..|events| - 1], events[|events| - 1];
      TimedLater(before, if e.Clocked() then e.now else now, now);
      LastWriteIsLastSet(before, k, now);
    }
  }

  /** BatchGet answers each position from the last write of its key. */
  lemma BatchTellsLastWrites(events: seq<Event>, keys: seq<Bytes>, now: int, i: nat)
    requires Timed(events, now) && i < |keys|
    ensures var reply := Reply(After(events), Batch(keys, now));
            && |reply| == |keys|
            && reply[i] == if keys[i] == [] then Answer.Fail(ErrInvalidKey) else Told(LastSet(events, keys[i]), now)
  {
    ItemsAreLastWrites(events, now, keys[i]);
    LastWriteIsLastSet(events, keys[i], now);
  }

  predicate Uses(e: Event, th: nat) {
    (e.Fetch? || e.Judge?) && e.th == th
  }

  lemma {:induction false} HeldStays(before: seq<Event>, between: seq<Event>, th: nat)
    requires th in After(before).held
    requires forall e :: e in between ==> !Uses(e, th)
    ensures th in After(before + between).held && After(before + between).held[th] == After(before).held[th]
  {
    if between == [] {
      assert before + between == before;
    } else {
      var init, e := between[..|between| - 1], between[|between| - 1];
      HeldStays(before, init, th);
      assert (before + between)[..|before + between| - 1] == before + init;
      assert e in between;
    }
  }

  lemma {:induction false} TimedPrefix(before: seq<Event>, after: seq<Event>, t: int)
    requires Timed(before + after, t)
    ensures Timed(before, t)
  {
    if after == [] {
      assert before + after == before;
    } else {
      var init, e := after[..|after| - 1], after[|after| - 1];
      assert (before + after)[..|before + after| - 1] == before + init;
      TimedPrefix(before, init, if e.Clocked() then e.now else t);
      if e.Clocked() {
        TimedLater(before, e.now, t);
      }
    }
  }

  lemma TimedLater(events: seq<Event>, t: int, u: int)
    requires Timed(events, t) && t <= u
    ensures Timed(events, u)
  {
  }

  /** A Get answers from the last write before its read section, judged by the clock at its end, whatever
      other threads and the sweeper do in between. */
  lemma GetTellsLastWrite(before: seq<Event>, th: nat, k: Bytes, between: seq<Event>, now: int)
    requires Timed(before + [Fetch(th, k)] + between, now)
    requires forall e :: e in between ==> !Uses(e, th)
    ensures Reply(After(before + [Fetch(th, k)] + between), Judge(th, now)) == [Told(LastSet(before, k), now)]
  {
    var fetched := before + [Fetch(th, k)];
    assert fetched[..|before|] == before;
    HeldStays(fetched, between, th);
    assert before + [Fetch(th, k)] + between == before + ([Fetch(th, k)] + between);
    TimedPrefix(before, [Fetch(th, k)] + between, now);
    ItemsAreLastWrites(before, now, k);
    LastWriteIsLastSet(before, k, now);
  }

  // ---- GetTTL does see the sweeper ----

  /** GetTTL reports what is left of an entry's time without asking whether it has expired. */
  function TimeLeft(b: Box, k: Bytes, now: int): Answer<int> {
    if k !in b.items then Answer.Fail(ErrNotFound)
    else if b.items[k].expiry.None? then Hit(0)
    else Hit(b.items[k].expiry.value - now)
  }

  /** GetTTL agrees with the unswept run unless the key's last write has expired and the entry is gone; then
      one run reports a negative time and the other ErrNotFound. */
  lemma TimeLeftSeesSweeping(events: seq<Event>, t: int, k: Bytes)
    requires Timed(events, t)
    ensures var s, f, w := After(events), After(Unswept(events)), LastWrite(events, k);
            && (TimeLeft(s, k, t) == TimeLeft(f, k, t) <==> !(w.Some? && Expired(w.value, t) && k !in s.items))
            && (TimeLeft(f, k, t).Hit? && TimeLeft(f, k, t).value < 0 <==> w.Some? && Expired(w.value, t))
            && (TimeLeft(s, k, t) != TimeLeft(f, k, t) ==> TimeLeft(s, k, t) == Answer.Fail(ErrNotFound))
  {
    SweepingIsInvisible(events, t);
    UnsweptHoldsLastWrites(events, k);
    assert SameItem(Get(After(events).items, k), Get(After(Unswept(events)).items, k), t);
  }

  /** What GetTTL reports is what is left of the time that the key's last Set was given, however little or negative;
      0 when it was given for ever. */
  lemma TimeLeftOfLastSet(events: seq<Event>, k: Bytes, now: int)
    requires Timed(events, now)
    ensures var w, answer := LastSet(events, k), TimeLeft(After(events), k, now);
            && (answer.Hit? ==>
                  && w.Some?
                  && (w.value.ttl < 0 ==> answer.value == 0)
                  && (w.value.ttl > 0 ==> answer.value == w.value.now + w.value.ttl - now)
                  && (w.value.ttl == 0 ==> answer.value < 0))
            && (w.Some? && Live(w.value, now) ==> answer.Hit?)
  {
    ItemsAreLastWrites(events, now, k);
    LastWriteIsLastSet(events, k, now);
  }

  /** A ttl of 0 shows it at once: the entry is written a second past its expiry. */
  lemma ZeroTTLThenSweep(k: Bytes, v: Bytes, now: int)
    ensures TimeLeft(After([Set(k, v, 0, now)]), k, now) == Hit(-LruSpec.SECOND)
    ensures TimeLeft(After([Set(k, v, 0, now), Drop({k}, now)]), k, now) == Answer.Fail(ErrNotFound)
  {
  }
}
