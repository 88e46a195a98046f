/** The delayed queue's Redis state and its atomic scripts, as functions, and what holds over whole runs. */
module DelayQueueSpec {
  import opened Common
  import opened ZSets

  datatype Task = Task(key: Key, data: string, executeAt: int, retries: nat)

  datatype Queue = Queue(ready: ZSet, processing: ZSet, bodies: map<Key, Task>, dead: seq<Task>)

  const EMPTY: Queue := Queue(map[], map[], map[], [])

  // ---- The scripts ----

  function Enqueue(q: Queue, k: Key, score: int, body: Task): Queue {
    q.(ready := q.ready[k := score], bodies := q.bodies[k := body])
  }

  /** The members r of one set, all given the same score. */
  function Scored(r: seq<Key>, score: int): ZSet {
    map k | k in r :: score
  }

  function Remaining(z: ZSet, r: seq<Key>): ZSet {
    z - (set k | k in r)
  }

  function MoveStale(q: Queue, r: seq<Key>, now: int): Queue {
    q.(processing := Remaining(q.processing, r), ready := q.ready + Scored(r, now))
  }

  function MoveOut(q: Queue, r: seq<Key>, visibleAt: int): Queue {
    q.(ready := Remaining(q.ready, r), processing := q.processing + Scored(r, visibleAt))
  }

  /** One round of a script's loop over members. */
  lemma MoveOneMore(z: ZSet, r: seq<Key>, i: nat, score: int)
    requires i < |r|
    ensures Remaining(z, r[..i + 1]) == Remaining(z, r[..i]) - {r[i]}
    ensures z + Scored(r[..i + 1], score) == (z + Scored(r[..i], score))[r[i] := score]
  {
  }

  lemma MoveNothing(z: ZSet, score: int)
    ensures Remaining(z, []) == z == z + Scored([], score)
  {
  }

  /** The bodies of these members, skipping those that have none. */
  function BodiesOf(bodies: map<Key, Task>, r: seq<Key>): (ts: seq<Task>)
    ensures (forall k :: k in r ==> k in bodies) ==> |ts| == |r| && forall i :: 0 <= i < |r| ==> ts[i] == bodies[r[i]]
    ensures |ts| <= |r|
  {
    if r == [] then []
    else (if r[0] in bodies then [bodies[r[0]]] else []) + BodiesOf(bodies, r[1..])
  }

  lemma BodiesOneMore(bodies: map<Key, Task>, r: seq<Key>, i: nat, done: seq<Task>)
    requires i < |r|
    ensures done + BodiesOf(bodies, r[i..])
            == (if r[i] in bodies then done + [bodies[r[i]]] else done) + BodiesOf(bodies, r[i + 1..])
  {
  }

  /** A script's reply; Lua's false is None. */
  function ReplyOf(ts: seq<Task>): Option<seq<Task>> {
    if ts == [] then None else Some(ts)
  }

  ghost function Requeue(q: Queue, now: int, batch: nat): Queue {
    MoveStale(q, Range(q.processing, now, batch), now)
  }

  ghost function Dequeue(q: Queue, now: int, batch: nat, visibleAt: int): Queue {
    MoveOut(q, Range(q.ready, now, batch), visibleAt)
  }

  ghost function DequeueReply(q: Queue, now: int, batch: nat): Option<seq<Task>> {
    ReplyOf(BodiesOf(q.bodies, Range(q.ready, now, batch)))
  }

  function Ack(q: Queue, k: Key): Queue {
    if k in q.processing then q.(processing := q.processing - {k}, bodies := q.bodies - {k}) else q
  }

  function Cancel(q: Queue, k: Key): Queue {
    q.(ready := q.ready - {k}, processing := q.processing - {k}, bodies := q.bodies - {k})
  }

  // ---- Runs ----

  datatype Event =
    | DoEnqueue(k: Key, score: int, body: Task)
    | DoDequeue(now: int, batch: nat, visibleAt: int)
    | DoPoll(now: int, batch: nat, visibleAt: int)
    | DoRequeue(now: int, batch: nat)
    | DoAck(k: Key)
    | DoCancel(k: Key)
    | DoDead(body: Task)

  ghost function Step(q: Queue, e: Event): Queue {
    match e
    case DoEnqueue(k, score, body) => Enqueue(q, k, score, body)
    case DoDequeue(now, batch, visibleAt) => Dequeue(q, now, batch, visibleAt)
    case DoPoll(now, batch, visibleAt) => Dequeue(Requeue(q, now, batch), now, batch, visibleAt)
    case DoRequeue(now, batch) => Requeue(q, now, batch)
    case DoAck(k) => Ack(q, k)
    case DoCancel(k) => Cancel(q, k)
    case DoDead(body) => q.(dead := [body] + q.dead)
  }

  /** The keys an event leases to the consumer that caused it. */
  ghost function HandedOut(q: Queue, e: Event): seq<Key> {
    match e
    case DoDequeue(now, batch, _) => Range(q.ready, now, batch)
    case DoPoll(now, batch, _) => Range(Requeue(q, now, batch).ready, now, batch)
    case DoEnqueue(_, _, _) => []
    case DoRequeue(_, _) => []
    case DoAck(_) => []
    case DoCancel(_) => []
    case DoDead(_) => []
  }

  ghost function After(q: Queue, events: seq<Event>): Queue
    decreases |events|
  {
    if events == [] then q else Step(After(q, events[..|events| - 1]), events[|events| - 1])
  }

  // ---- Leases ----

  /** An event that may put an overdue lease back, up to the time it is given. */
  predicate Reclaims(e: Event, visibleAt: int) {
    (e.DoPoll? || e.DoRequeue?) && e.now >= visibleAt
  }

  predicate Releases(e: Event, k: Key, visibleAt: int) {
    (e.DoEnqueue? && e.k == k) || Reclaims(e, visibleAt)
  }

  /** k is not for anyone to take, and if leased, leased until visibleAt. */
  ghost predicate Leased(q: Queue, k: Key, visibleAt: int) {
    k !in q.ready && (k in q.processing ==> q.processing[k] == visibleAt)
  }

  lemma LeaseHolds(q: Queue, e: Event, k: Key, visibleAt: int)
    requires Leased(q, k, visibleAt)
    requires !Releases(e, k, visibleAt)
    ensures Leased(Step(q, e), k, visibleAt) && k !in HandedOut(q, e)
  {
  }

  lemma HandOutLeases(q: Queue, e: Event, k: Key)
    requires k in HandedOut(q, e)
    ensures Leased(Step(q, e), k, e.visibleAt)
  {
  }

  lemma AfterPrefix(q: Queue, events: seq<Event>, n: nat)
    requires n < |events|
    ensures After(q, events[..n + 1]) == Step(After(q, events[..n]), events[n])
  {
    assert events[..n + 1][..n] == events[..n];
  }

  lemma {:induction false} LeaseKept(q: Queue, events: seq<Event>, i: nat, n: nat, k: Key)
    requires i < n <= |events| && k in HandedOut(After(q, events[..i]), events[i])
    requires forall m :: i < m < n ==> !Releases(events[m], k, events[i].visibleAt)
    ensures Leased(After(q, events[..n]), k, events[i].visibleAt)
  {
    hide After, Step, Leased;
    AfterPrefix(q, events, n - 1);
    if n == i + 1 {
      HandOutLeases(After(q, events[..i]), events[i], k);
    } else {
      LeaseKept(q, events, i, n - 1, k);
      LeaseHolds(After(q, events[..n - 1]), events[n - 1], k, events[i].visibleAt);
    }
  }

  /** Lease exclusivity, for any number of consumers and any clocks: between two hand-outs of the same key
      there is an enqueue of it, or a poll or requeue at a time not before the first lease's end (which may
      be the poll of the second hand-out itself). */
  lemma LeaseExclusive(q: Queue, events: seq<Event>, i: nat, j: nat, k: Key)
    requires i < j < |events|
    ensures k in HandedOut(After(q, events[..i]), events[i]) && k in HandedOut(After(q, events[..j]), events[j]) ==>
              exists m :: i < m <= j && Releases(events[m], k, events[i].visibleAt)
  {
    if k in HandedOut(After(q, events[..i]), events[i]) && k in HandedOut(After(q, events[..j]), events[j])
       && forall m :: i < m <= j ==> !Releases(events[m], k, events[i].visibleAt)
    {
      LeaseKept(q, events, i, j, k);
      LeaseHolds(After(q, events[..j]), events[j], k, events[i].visibleAt);
      assert false;
    }
  }

  // ---- Bodies ----

  /** Every stored body belongs to a key that is ready or leased. */
  ghost predicate NoneStranded(q: Queue) {
    q.bodies.Keys <= q.ready.Keys + q.processing.Keys
  }

  /** Every key is ready or leased, not both, and has its body. */
  ghost predicate Tidy(q: Queue) {
    q.ready.Keys !! q.processing.Keys && q.bodies.Keys == q.ready.Keys + q.processing.Keys
  }

  lemma StepStrandsNone(q: Queue, e: Event)
    requires NoneStranded(q)
    ensures NoneStranded(Step(q, e))
  {
  }

  /** The one step that makes a tidy queue untidy is enqueuing a key while it is leased. */
  lemma StepKeepsTidy(q: Queue, e: Event)
    requires Tidy(q)
    ensures Tidy(Step(q, e)) <==> !(e.DoEnqueue? && e.k in q.processing)
  {
    hide Tidy, Dequeue, Requeue;
    match e
    case DoEnqueue(k, score, body) => EnqueueTidy(q, k, score, body);
    case DoDequeue(now, batch, visibleAt) => MovesTidy(q, now, batch, visibleAt);
    case DoPoll(now, batch, visibleAt) =>
      MovesTidy(q, now, batch, visibleAt);
      MovesTidy(Requeue(q, now, batch), now, batch, visibleAt);
    case DoRequeue(now, batch) => MovesTidy(q, now, batch, 0);
    case DoAck(k) => DropsTidy(q, k, []);
    case DoCancel(k) => DropsTidy(q, k, []);
    case DoDead(body) => DropsTidy(q, body.key, [body] + q.dead);
  }

  lemma EnqueueTidy(q: Queue, k: Key, score: int, body: Task)
    requires Tidy(q)
    ensures Tidy(Enqueue(q, k, score, body)) <==> k !in q.processing
  {
  }

  lemma MovesTidy(q: Queue, now: int, batch: nat, visibleAt: int)
    requires Tidy(q)
    ensures Tidy(Dequeue(q, now, batch, visibleAt)) && Tidy(Requeue(q, now, batch))
  {
    hide NoDup;
    RangeInside(q.ready, now, batch);
    RangeInside(q.processing, now, batch);
    hide Range;
  }

  lemma RangeInside(z: ZSet, now: int, limit: nat)
    ensures forall k :: k in Range(z, now, limit) ==> k in z
  {
  }

  lemma DropsTidy(q: Queue, k: Key, dead: seq<Task>)
    requires Tidy(q)
    ensures Tidy(Ack(q, k)) && Tidy(Cancel(q, k)) && Tidy(q.(dead := dead))
  {
  }

  /** And then an acknowledgement loses the rescheduled task: it stays ready, but no hand-out of it yields a
      body. An acknowledgement leaves a ready key without a body exactly when the key was ready and leased. */
  lemma AckLosesRescheduled(q: Queue, k: Key)
    requires k in q.bodies
    ensures k in Ack(q, k).ready && k !in Ack(q, k).bodies <==> k in q.ready && k in q.processing
  {
  }

  lemma {:induction false} BodilessYieldsNothing(bodies: map<Key, Task>, r: seq<Key>, k: Key)
    requires k !in bodies && forall x :: x in bodies ==> bodies[x].key == x
    ensures forall t :: t in BodiesOf(bodies, r) ==> t.key != k
  {
    if r == [] {
    } else {
      BodilessYieldsNothing(bodies, r[1..], k);
    }
  }

  /** The smallest such run: enqueue, poll, enqueue again while leased, acknowledge, poll. */
  lemma RescheduleWhileLeasedIsLost(k: Key, first: Task, second: Task)
    ensures var q := After(EMPTY, [DoEnqueue(k, 0, first), DoPoll(0, 1, 10), DoEnqueue(k, 5, second), DoAck(k)]);
            q.ready == map[k := 5] && q.bodies == map[] && q.dead == []
  {
    var events := [DoEnqueue(k, 0, first), DoPoll(0, 1, 10), DoEnqueue(k, 5, second), DoAck(k)];
    hide After, Dequeue, Requeue;
    FirstPoll(k, first);
    AfterNothing(EMPTY, events);
    AfterPrefix(EMPTY, events, 0);
    AfterPrefix(EMPTY, events, 1);
    AfterPrefix(EMPTY, events, 2);
    AfterPrefix(EMPTY, events, 3);
  }

  lemma AfterNothing(q: Queue, events: seq<Event>)
    ensures After(q, events[..0]) == q && events[..|events|] == events
  {
  }

  lemma FirstPoll(k: Key, first: Task)
    ensures Step(Enqueue(EMPTY, k, 0, first), DoPoll(0, 1, 10))
            == Queue(map[], map[k := 10], map[k := first], [])
  {
  }

  lemma {:induction false} NoBodyStranded(events: seq<Event>)
    ensures NoneStranded(After(EMPTY, events))
  {
    if events == [] {
    } else {
      NoBodyStranded(events[..|events| - 1]);
      StepStrandsNone(After(EMPTY, events[..|events| - 1]), events[|events| - 1]);
    }
  }

  /** No event enqueues a key that is leased at that moment. */
  ghost predicate NeverReenqueuesLeased(events: seq<Event>) {
    forall i :: 0 <= i < |events| && events[i].DoEnqueue? ==> events[i].k !in After(EMPTY, events[..i]).processing
  }

  lemma {:induction false} RunsStayTidy(events: seq<Event>)
    requires NeverReenqueuesLeased(events)
    ensures Tidy(After(EMPTY, events))
  {
    if events == [] {
    } else {
      var before := events[..|events| - 1];
      forall i | 0 <= i < |before| && before[i].DoEnqueue?
        ensures before[i].k !in After(EMPTY, before[..i]).processing
      {
        assert events[i].DoEnqueue? && before[..i] == events[..i];
      }
      RunsStayTidy(before);
      StepKeepsTidy(After(EMPTY, before), events[|events| - 1]);
    }
  }

  // ---- Polling until nothing is due ----

  /** What polls at this time can still hand out. */
  function Pending(q: Queue, now: int): set<Key> {
    Due(q.ready, now) + Due(q.processing, now)
  }

  function Min(a: nat, b: nat): nat {
    if a < b then a else b
  }

  lemma RequeuedDue(q: Queue, r: seq<Key>, now: int)
    requires ToSet(r) <= Due(q.processing, now)
    ensures Due(MoveStale(q, r, now).ready, now) == Due(q.ready, now) + ToSet(r)
    ensures Pending(MoveStale(q, r, now), now) == Pending(q, now)
  {
  }

  /** Putting overdue leases back makes them due; it is enough of them to fill a batch. */
  lemma RequeuedFill(q: Queue, now: int, batch: nat)
    ensures var q1 := Requeue(q, now, batch);
            && Pending(q1, now) == Pending(q, now)
            && Min(|Due(q1.ready, now)|, batch) == Min(|Pending(q, now)|, batch)
  {
    var stale, overdue := Range(q.processing, now, batch), Due(q.processing, now);
    var due := Due(Requeue(q, now, batch).ready, now);
    RangeIsFirst(q.processing, now, batch);
    NoDupSize(stale);
    RequeuedDue(q, stale, now);
    hide Range, Due, MoveStale;
    SubsetSize(ToSet(stale), due);
    SubsetSize(due, Pending(q, now));
    if |overdue| <= batch {
      SubsetSame(ToSet(stale), overdue);
    }
  }

  lemma TakenAreNotPending(q: Queue, h: seq<Key>, now: int, visibleAt: int)
    requires visibleAt > now
    ensures Pending(MoveOut(q, h, visibleAt), now) == Pending(q, now) - ToSet(h)
  {
  }

  /** A poll hands out as many pending keys as there are and the batch allows, each once, and leaves the
      others pending. */
  lemma PollProgress(q: Queue, now: int, batch: nat, visibleAt: int)
    requires visibleAt > now
    ensures var e := DoPoll(now, batch, visibleAt);
            var h := HandedOut(q, e);
            && NoDup(h) && |h| == Min(|Pending(q, now)|, batch)
            && ToSet(h) <= Pending(q, now)
            && Pending(Step(q, e), now) == Pending(q, now) - ToSet(h)
            && forall i, j :: 0 <= i < j < |h| ==> Before(Requeue(q, now, batch).ready, h[i], h[j])
  {
    var q1 := Requeue(q, now, batch);
    var h := Range(q1.ready, now, batch);
    RequeuedFill(q, now, batch);
    TakenAreNotPending(q1, h, now, visibleAt);
    hide Requeue, MoveOut;
    RangeIsFirst(q1.ready, now, batch);
    assert ToSet(h) <= Due(q1.ready, now) <= Pending(q1, now);
  }

  /** The batches of n polls in a row, one after the other. */
  ghost function Dispatched(q: Queue, now: int, batch: nat, visibleAt: int, n: nat): seq<Key>
    decreases n
  {
    if n == 0 then []
    else
      var e := DoPoll(now, batch, visibleAt);
      HandedOut(q, e) + Dispatched(Step(q, e), now, batch, visibleAt, n - 1)
  }

  /** n polls at one time hand out exactly min(p, n * batch) of the p pending keys, no key twice. */
  lemma {:induction false} PollsDrain(q: Queue, now: int, batch: nat, visibleAt: int, n: nat)
    requires visibleAt > now && batch >= 1
    ensures var d := Dispatched(q, now, batch, visibleAt, n);
            && n * batch >= 0 && NoDup(d) && |d| == Min(|Pending(q, now)|, n * batch)
            && ToSet(d) <= Pending(q, now)
    decreases n
  {
    hide HandedOut, Step, Pending, ToSet, NoDup, Min;
    if n == 0 {
      NothingDispatched(q, now, batch, visibleAt);
    } else {
      var e := DoPoll(now, batch, visibleAt);
      var h, q' := HandedOut(q, e), Step(q, e);
      var rest := Dispatched(q', now, batch, visibleAt, n - 1);
      PollProgress(q, now, batch, visibleAt);
      PollsDrain(q', now, batch, visibleAt, n - 1);
      DisjointConcat(h, rest);
      NoDupSize(h);
      SizeOfRest(Pending(q, now), ToSet(h));
      MinSplit(|Pending(q, now)|, batch, n);
    }
  }

  lemma NothingDispatched(q: Queue, now: int, batch: nat, visibleAt: int)
    ensures var d := Dispatched(q, now, batch, visibleAt, 0);
            NoDup(d) && |d| == Min(|Pending(q, now)|, 0 * batch) && ToSet(d) == {}
  {
  }

  lemma MinSplit(p: nat, batch: nat, n: nat)
    requires n >= 1
    ensures (n - 1) * batch >= 0 && Min(p, n * batch) == Min(p, batch) + Min(p - Min(p, batch), (n - 1) * batch)
  {
  }

  lemma DisjointConcat(a: seq<Key>, b: seq<Key>)
    requires NoDup(a) && NoDup(b) && ToSet(a) !! ToSet(b)
    ensures NoDup(a + b) && ToSet(a + b) == ToSet(a) + ToSet(b)
  {
    assert forall i :: 0 <= i < |a| ==> a[i] in ToSet(a);
    assert forall i :: 0 <= i < |b| ==> b[i] in ToSet(b);
  }

  lemma SizeOfRest(all: set<Key>, part: set<Key>)
    requires part <= all
    ensures |all - part| == |all| - |part|
  {
  }

  /** In a tidy queue every key a poll hands out comes with its body, in the same order. */
  lemma PollReplies(q: Queue, now: int, batch: nat, visibleAt: int)
    requires Tidy(q)
    ensures var h := HandedOut(q, DoPoll(now, batch, visibleAt));
            var reply := DequeueReply(Requeue(q, now, batch), now, batch);
            && (reply.None? <==> h == [])
            && (reply.Some? ==> |reply.value| == |h| && forall i :: 0 <= i < |h| ==> reply.value[i] == q.bodies[h[i]])
  {
  }

  // ---- What is gone ----

  /** Once a leased key is acknowledged nothing of it is left for a requeue to find. */
  lemma AckedIsNowhere(q: Queue, k: Key)
    requires Tidy(q) && k in q.processing
    ensures var q' := Ack(q, k);
            k !in q'.ready && k !in q'.processing && k !in q'.bodies && q'.dead == q.dead
  {
  }

  /** A key that is nowhere stays nowhere until somebody enqueues it. */
  lemma {:induction false} NowhereStaysNowhere(q: Queue, events: seq<Event>, k: Key)
    requires k !in q.ready && k !in q.processing
    requires forall e :: e in events ==> !(e.DoEnqueue? && e.k == k)
    ensures k !in After(q, events).ready && k !in After(q, events).processing
    decreases |events|
  {
    if events == [] {
    } else {
      NowhereStaysNowhere(q, events[..|events| - 1], k);
    }
  }

  lemma HandedOutWasThere(q: Queue, e: Event, k: Key)
    requires k in HandedOut(q, e)
    ensures k in q.ready || k in q.processing
  {
  }

  /** And nobody is handed a key that is nowhere. */
  lemma NowhereIsNotHandedOut(q: Queue, events: seq<Event>, i: nat, k: Key)
    requires k !in q.ready && k !in q.processing && i < |events|
    requires forall e :: e in events[..i] ==> !(e.DoEnqueue? && e.k == k)
    ensures k !in HandedOut(After(q, events[..i]), events[i])
  {
    NowhereStaysNowhere(q, events[..i], k);
    if k in HandedOut(After(q, events[..i]), events[i]) {
      HandedOutWasThere(After(q, events[..i]), events[i], k);
    }
  }

  /** The queues agree about every key but k, and about the dead. */
  ghost predicate SameBut(q: Queue, r: Queue, k: Key) {
    && r.dead == q.dead
    && forall x :: x != k ==>
         && (x in r.ready <==> x in q.ready) && (x in q.ready ==> r.ready[x] == q.ready[x])
         && (x in r.processing <==> x in q.processing) && (x in q.processing ==> r.processing[x] == q.processing[x])
         && (x in r.bodies <==> x in q.bodies) && (x in q.bodies ==> r.bodies[x] == q.bodies[x])
  }

  /** A cancelled key is nowhere, whether it was waiting or leased, and nothing else is touched. */
  lemma CancelledIsNowhere(q: Queue, k: Key)
    ensures var r := Step(q, DoCancel(k));
            k !in r.ready && k !in r.processing && k !in r.bodies && SameBut(q, r, k)
  {
  }

  /** So over any run after a cancellation nobody is handed the key until somebody enqueues it. */
  lemma CancelledIsNotHandedOut(q: Queue, k: Key, events: seq<Event>, i: nat)
    requires i < |events| && forall e :: e in events[..i] ==> !(e.DoEnqueue? && e.k == k)
    ensures k !in HandedOut(After(Step(q, DoCancel(k)), events[..i]), events[i])
  {
    CancelledIsNowhere(q, k);
    NowhereIsNotHandedOut(Step(q, DoCancel(k)), events, i, k);
  }

  // ---- What a script puts in ----

  /** An enqueue schedules, or reschedules: whatever was there before, the key is due exactly from the given time on,
      with the given body; nothing else is touched, not even a lease of the key. */
  lemma EnqueueSchedules(q: Queue, k: Key, score: int, body: Task, now: int)
    ensures var r := Step(q, DoEnqueue(k, score, body));
            && (k in Due(r.ready, now) <==> score <= now)
            && k in r.bodies && r.bodies[k] == body
            && SameBut(q, r, k) && r.processing == q.processing
  {
  }

  /** An acknowledgement touches one key only, and that only if it is leased. */
  lemma AckTouches(q: Queue, k: Key)
    ensures var r := Step(q, DoAck(k));
            && SameBut(q, r, k) && r.ready == q.ready && k !in r.processing
            && (k !in q.processing ==> r == q)
  {
  }

  /** A key that is requeued is due from the time of the requeue on and no earlier; a key that is handed out is
      leased until the time asked for. Bodies and dead tasks stay. */
  lemma MovedKeys(q: Queue, k: Key, now: int, batch: nat, visibleAt: int)
    ensures var r := Requeue(q, now, batch);
            && (k in Range(q.processing, now, batch) ==> k in r.ready && r.ready[k] == now && k !in r.processing)
            && (k !in Range(q.processing, now, batch) ==>
                  && (k in r.ready <==> k in q.ready) && (k in q.ready ==> r.ready[k] == q.ready[k])
                  && (k in r.processing <==> k in q.processing)
                  && (k in q.processing ==> r.processing[k] == q.processing[k]))
            && r.bodies == q.bodies && r.dead == q.dead
    ensures var r := Dequeue(q, now, batch, visibleAt);
            && (k in Range(q.ready, now, batch) ==>
                  k in r.processing && r.processing[k] == visibleAt && k !in r.ready)
            && (k !in Range(q.ready, now, batch) ==>
                  && (k in r.ready <==> k in q.ready) && (k in q.ready ==> r.ready[k] == q.ready[k])
                  && (k in r.processing <==> k in q.processing)
                  && (k in q.processing ==> r.processing[k] == q.processing[k]))
            && r.bodies == q.bodies && r.dead == q.dead
  {
    hide Range;
  }
}
