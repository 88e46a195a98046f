/** Consumers of the delayed queue: every hand-out of a task is one hand, whose acknowledgement and whose
    follow-up are two requests to Redis, either of which may not be executed. */
module RetrySpec {
  import opened Common
  import opened ZSets
  import opened DelayQueueSpec

  /** Exponential backoff before the n-th retry. */
  function Backoff(base: int, n: nat): int {
    base * Pow2(n)
  }

  /** After a failure's acknowledgement: retry later, or bury. */
  function Retry(q: Queue, t: Task, now: int, maxRetries: nat, base: int): Queue {
    if t.retries >= maxRetries then q.(dead := [t] + q.dead)
    else
      var at := now + Backoff(base, t.retries + 1);
      Enqueue(q, t.key, at, t.(retries := t.retries + 1, executeAt := at))
  }

  /** After a refusal's acknowledgement: back as it was, due at once. */
  function Return(q: Queue, t: Task, now: int): Queue {
    Enqueue(q, t.key, now, t.(executeAt := now))
  }

  function AckIf(q: Queue, k: Key, acked: bool): Queue {
    if acked then Ack(q, k) else q
  }

  /** Both requests after a failure, with nothing in between. */
  function HandleFailure(q: Queue, t: Task, now: int, maxRetries: nat, base: int, acked: bool, done: bool): Queue {
    var q1 := AckIf(q, t.key, acked);
    if done then Retry(q1, t, now, maxRetries, base) else q1
  }

  // ---- One failure ----

  /** A failed task is still in the queue or newly buried exactly when the acknowledgement was not executed or
      the follow-up was. When neither was, nothing has changed, and the lease is there to be reclaimed. When
      only the retry was, the key is ready and leased at once. */
  lemma FailureKeepsTask(q: Queue, t: Task, now: int, maxRetries: nat, base: int, acked: bool, done: bool)
    requires Tidy(q) && t.key in q.processing
    ensures var k, r := t.key, HandleFailure(q, t, now, maxRetries, base, acked, done);
            && ((k in r.bodies && (k in r.ready || k in r.processing)) || r.dead == [t] + q.dead <==> !acked || done)
            && (!acked && !done ==> r == q && forall later :: q.processing[k] <= later ==> k in Pending(r, later))
            && (!acked && done && t.retries < maxRetries ==> k in r.ready && k in r.processing)
  {
    assert [t] + q.dead != q.dead;
  }

  // ---- Any number of consumers ----

  /** A hand works on its task, owes the follow-up to its acknowledgement, or is done. failed tells a failure
      from a refusal by the worker pool. */
  datatype Hand = Working(t: Task) | Owing(t: Task, failed: bool) | Finished

  datatype System = System(q: Queue, hands: seq<Hand>)

  datatype Happening =
    | Script(e: Event)                             // any script, also one whose reply nobody hears
    | HandOut(e: Event)                            // a dequeue or poll whose reply arrives: a hand for each task
    | Succeed(i: nat, acked: bool)
    | LetGo(i: nat, failed: bool, acked: bool)     // the acknowledgement after a failure or a refusal
    | Follow(i: nat, now: int, done: bool)         // the request after that
  {
    function OfHand(): bool {
      !Script? && !HandOut?
    }
  }

  predicate Enabled(s: System, h: Happening) {
    match h
    case Script(_) => true
    case HandOut(e) => e.DoDequeue? || e.DoPoll?
    case Succeed(i, _) => i < |s.hands| && s.hands[i].Working?
    case LetGo(i, _, _) => i < |s.hands| && s.hands[i].Working?
    case Follow(i, _, _) => i < |s.hands| && s.hands[i].Owing?
  }

  ghost function Happen(s: System, h: Happening, maxRetries: nat, base: int): System
    requires Enabled(s, h)
  {
    match h
    case Script(e) => s.(q := Step(s.q, e))
    case HandOut(e) => System(Step(s.q, e), s.hands + Hands(BodiesOf(s.q.bodies, HandedOut(s.q, e))))
    case Succeed(i, acked) => System(AckIf(s.q, s.hands[i].t.key, acked), s.hands[i := Finished])
    case LetGo(i, failed, acked) =>
      System(AckIf(s.q, s.hands[i].t.key, acked), s.hands[i := Owing(s.hands[i].t, failed)])
    case Follow(i, now, done) =>
      var t := s.hands[i].t;
      var q := if !done then s.q
               else if s.hands[i].failed then Retry(s.q, t, now, maxRetries, base) else Return(s.q, t, now);
      System(q, s.hands[i := Finished])
  }

  function Hands(ts: seq<Task>): (hs: seq<Hand>)
    ensures |hs| == |ts| && forall i :: 0 <= i < |ts| ==> hs[i] == Working(ts[i])
  {
    seq(|ts|, i requires 0 <= i < |ts| => Working(ts[i]))
  }

  // ---- The account of an always failing task ----

  function DeadOf(dead: seq<Task>, k: Key): seq<Task> {
    if dead == [] then []
    else (if dead[0].key == k then [dead[0]] else []) + DeadOf(dead[1..], k)
  }

  predicate Owes(h: Hand, k: Key) {
    h.Owing? && h.t.key == k
  }

  ghost predicate NobodyOwes(s: System, k: Key) {
    forall i :: 0 <= i < |s.hands| ==> !Owes(s.hands[i], k)
  }

  ghost predicate OnlyOwes(s: System, k: Key, i: nat) {
    i < |s.hands| && Owes(s.hands[i], k) && forall j :: 0 <= j < |s.hands| && j != i ==> !Owes(s.hands[j], k)
  }

  predicate Nowhere(q: Queue, k: Key) {
    k !in q.ready && k !in q.processing && k !in q.bodies
  }

  /** Waiting or leased once, with retry count f; or, after one failure more than the limit, gone and buried
      once with the count at the limit. */
  ghost predicate Settled(q: Queue, k: Key, f: nat, maxRetries: nat) {
    if f <= maxRetries then
      && k in q.bodies && q.bodies[k].key == k && q.bodies[k].retries == f
      && (k in q.ready <==> k !in q.processing) && DeadOf(q.dead, k) == []
    else
      f == maxRetries + 1 && Nowhere(q, k) && |DeadOf(q.dead, k)| == 1 && DeadOf(q.dead, k)[0].retries == maxRetries
  }

  /** Between the two requests of one hand. */
  ghost predicate Between(s: System, k: Key, f: nat, maxRetries: nat, i: nat) {
    && OnlyOwes(s, k, i) && Nowhere(s.q, k) && DeadOf(s.q.dead, k) == []
    && s.hands[i].t.retries <= maxRetries
    && s.hands[i].t.retries + (if s.hands[i].failed then 1 else 0) == f
  }

  /** After f failures of k the books are right. */
  ghost predicate Accounted(s: System, k: Key, f: nat, maxRetries: nat) {
    (NobodyOwes(s, k) && Settled(s.q, k, f, maxRetries)) || exists i: nat :: Between(s, k, f, maxRetries, i)
  }

  /** Nobody but the consumers writes this key, and its handler never succeeds. */
  predicate Alone(s: System, h: Happening, k: Key)
    requires Enabled(s, h)
  {
    match h
    case Script(e) =>
      && !(e.DoEnqueue? && e.k == k) && !(e.DoCancel? && e.k == k)
      && !(e.DoAck? && e.k == k) && !(e.DoDead? && e.body.key == k)
    case Succeed(i, _) => s.hands[i].t.key != k
    case _ => true
  }

  /** The happening is of a hand on k. */
  predicate Concerns(s: System, h: Happening, k: Key)
    requires Enabled(s, h)
  {
    h.OfHand() && s.hands[h.i].t.key == k
  }

  /** An acknowledgement is executed and finds a lease of the task with the hand's own count; a follow-up is
      executed. */
  predicate Sound(s: System, h: Happening, k: Key)
    requires Enabled(s, h)
  {
    Concerns(s, h, k) ==>
      match h
      case LetGo(i, _, acked) =>
        acked && k in s.q.processing && k in s.q.bodies && s.q.bodies[k].retries == s.hands[i].t.retries
      case Follow(_, _, done) => done
      case _ => true
  }

  function FailuresIn(s: System, h: Happening, k: Key): nat
    requires Enabled(s, h)
  {
    if h.LetGo? && h.failed && Concerns(s, h, k) then 1 else 0
  }

  lemma DeadCons(t: Task, dead: seq<Task>, k: Key)
    ensures DeadOf([t] + dead, k) == (if t.key == k then [t] else []) + DeadOf(dead, k)
  {
  }

  /** For the books of k, q' differs from q by nothing but a move of k between the two sets. */
  ghost predicate SameBooks(q: Queue, q': Queue, k: Key) {
    && (k in q'.bodies <==> k in q.bodies) && (k in q.bodies ==> q'.bodies[k] == q.bodies[k])
    && DeadOf(q'.dead, k) == DeadOf(q.dead, k)
    && ((k in q.ready <==> k !in q.processing) ==> (k in q'.ready <==> k !in q'.processing))
    && (k !in q.ready && k !in q.processing ==> k !in q'.ready && k !in q'.processing)
  }

  lemma ScriptKeepsBooks(q: Queue, e: Event, k: Key)
    requires !(e.DoEnqueue? && e.k == k) && !(e.DoCancel? && e.k == k)
    requires !(e.DoAck? && e.k == k) && !(e.DoDead? && e.body.key == k)
    ensures SameBooks(q, Step(q, e), k)
  {
    if e.DoDead? {
      DeadCons(e.body, q.dead, k);
    }
  }

  lemma OthersKeepBooks(s: System, h: Happening, k: Key, maxRetries: nat, base: int)
    requires Enabled(s, h) && h.OfHand() && !Concerns(s, h, k)
    ensures SameBooks(s.q, Happen(s, h, maxRetries, base).q, k)
  {
    if h.Follow? {
      DeadCons(s.hands[h.i].t, s.q.dead, k);
    }
  }

  lemma QuietAccounted(s: System, h: Happening, k: Key, f: nat, maxRetries: nat, base: int)
    requires Accounted(s, k, f, maxRetries) && Enabled(s, h) && Alone(s, h, k) && !Concerns(s, h, k)
    ensures Accounted(Happen(s, h, maxRetries, base), k, f, maxRetries)
  {
    hide SameBooks, Step, HandedOut, BodiesOf, AckIf, Retry, Return;
    var s' := Happen(s, h, maxRetries, base);
    assert SameBooks(s.q, s'.q, k) by {
      if h.OfHand() {
        OthersKeepBooks(s, h, k, maxRetries, base);
      } else {
        ScriptKeepsBooks(s.q, h.e, k);
      }
    }
    BooksDecide(s.q, s'.q, k, f, maxRetries);
    if !NobodyOwes(s, k) {
      var i: nat :| Between(s, k, f, maxRetries, i);
      assert Between(s', k, f, maxRetries, i);
    }
  }

  lemma BooksDecide(q: Queue, q': Queue, k: Key, f: nat, maxRetries: nat)
    requires SameBooks(q, q', k)
    ensures Settled(q, k, f, maxRetries) ==> Settled(q', k, f, maxRetries)
    ensures Nowhere(q, k) && DeadOf(q.dead, k) == [] ==> Nowhere(q', k) && DeadOf(q'.dead, k) == []
  {
  }

  lemma LetGoAccounted(s: System, h: Happening, k: Key, f: nat, maxRetries: nat, base: int)
    requires Accounted(s, k, f, maxRetries) && Enabled(s, h) && h.LetGo? && Concerns(s, h, k)
    ensures Accounted(Happen(s, h, maxRetries, base), k, f + FailuresIn(s, h, k), maxRetries) <==> Sound(s, h, k)
  {
    var s', f' := Happen(s, h, maxRetries, base), f + FailuresIn(s, h, k);
    assert Owes(s'.hands[h.i], k);
    if !NobodyOwes(s, k) {
      var j: nat :| Between(s, k, f, maxRetries, j);
      assert j != h.i && Owes(s'.hands[j], k);
    }
    assert forall i: nat :: OnlyOwes(s', k, i) ==> i == h.i;
    if Sound(s, h, k) {
      assert Between(s', k, f', maxRetries, h.i);
    }
  }

  lemma FollowAccounted(s: System, h: Happening, k: Key, f: nat, maxRetries: nat, base: int)
    requires Accounted(s, k, f, maxRetries) && Enabled(s, h) && h.Follow? && Concerns(s, h, k)
    ensures Accounted(Happen(s, h, maxRetries, base), k, f, maxRetries) <==> Sound(s, h, k)
  {
    assert Owes(s.hands[h.i], k);
    var i: nat :| Between(s, k, f, maxRetries, i);
    assert i == h.i;
    DeadCons(s.hands[i].t, s.q.dead, k);
  }

  /** The books stay right exactly at a sound happening. */
  lemma HappeningAccounted(s: System, h: Happening, k: Key, f: nat, maxRetries: nat, base: int)
    requires Accounted(s, k, f, maxRetries) && Enabled(s, h) && Alone(s, h, k)
    ensures Accounted(Happen(s, h, maxRetries, base), k, f + FailuresIn(s, h, k), maxRetries) <==> Sound(s, h, k)
  {
    hide Accounted, Happen;
    if !Concerns(s, h, k) {
      QuietAccounted(s, h, k, f, maxRetries, base);
    } else if h.LetGo? {
      LetGoAccounted(s, h, k, f, maxRetries, base);
    } else {
      FollowAccounted(s, h, k, f, maxRetries, base);
    }
  }

  // ---- Whole runs ----

  /** The system after a run, None when the run is not possible. */
  ghost function Unfold(s: System, hs: seq<Happening>, maxRetries: nat, base: int): Option<System>
    decreases |hs|
  {
    if hs == [] then Some(s)
    else
      var before, h := Unfold(s, hs[..|hs| - 1], maxRetries, base), hs[|hs| - 1];
      if before.Some? && Enabled(before.value, h) then Some(Happen(before.value, h, maxRetries, base)) else None
  }

  ghost predicate Possible(s: System, hs: seq<Happening>, maxRetries: nat, base: int) {
    Unfold(s, hs, maxRetries, base).Some?
  }

  lemma LastStep(s: System, hs: seq<Happening>, maxRetries: nat, base: int)
    requires hs != [] && Possible(s, hs, maxRetries, base)
    ensures var before, h := Unfold(s, hs[..|hs| - 1], maxRetries, base), hs[|hs| - 1];
            && before.Some? && Enabled(before.value, h)
            && Unfold(s, hs, maxRetries, base) == Some(Happen(before.value, h, maxRetries, base))
  {
  }

  ghost predicate AllAlone(s: System, hs: seq<Happening>, k: Key, maxRetries: nat, base: int)
    requires Possible(s, hs, maxRetries, base)
    decreases |hs|
  {
    hs == [] ||
    (LastStep(s, hs, maxRetries, base);
     AllAlone(s, hs[..|hs| - 1], k, maxRetries, base) &&
     Alone(Unfold(s, hs[..|hs| - 1], maxRetries, base).value, hs[|hs| - 1], k))
  }

  ghost predicate AllSound(s: System, hs: seq<Happening>, k: Key, maxRetries: nat, base: int)
    requires Possible(s, hs, maxRetries, base)
    decreases |hs|
  {
    hs == [] ||
    (LastStep(s, hs, maxRetries, base);
     AllSound(s, hs[..|hs| - 1], k, maxRetries, base) &&
     Sound(Unfold(s, hs[..|hs| - 1], maxRetries, base).value, hs[|hs| - 1], k))
  }

  /** How often the handler has failed on k. */
  ghost function Failures(s: System, hs: seq<Happening>, k: Key, maxRetries: nat, base: int): nat
    requires Possible(s, hs, maxRetries, base)
    decreases |hs|
  {
    if hs == [] then 0
    else
      LastStep(s, hs, maxRetries, base);
      Failures(s, hs[..|hs| - 1], k, maxRetries, base)
      + FailuresIn(Unfold(s, hs[..|hs| - 1], maxRetries, base).value, hs[|hs| - 1], k)
  }

  /** The books were right all along. */
  ghost predicate AllAccounted(s: System, hs: seq<Happening>, k: Key, maxRetries: nat, base: int)
    requires Possible(s, hs, maxRetries, base)
    decreases |hs|
  {
    && Accounted(Unfold(s, hs, maxRetries, base).value, k, Failures(s, hs, k, maxRetries, base), maxRetries)
    && (hs == [] || (LastStep(s, hs, maxRetries, base); AllAccounted(s, hs[..|hs| - 1], k, maxRetries, base)))
  }

  /** Retry accounting, for any number of consumers whose handler always fails on k: the books are right all
      along exactly when every acknowledgement was executed on a lease of the task with the hand's own count,
      and every follow-up was executed. */
  lemma {:induction false} RetryAccounting(s: System, hs: seq<Happening>, k: Key, maxRetries: nat, base: int)
    requires Possible(s, hs, maxRetries, base) && AllAlone(s, hs, k, maxRetries, base)
    requires Accounted(s, k, 0, maxRetries)
    ensures AllAccounted(s, hs, k, maxRetries, base) <==> AllSound(s, hs, k, maxRetries, base)
    decreases |hs|
  {
    hide Accounted, Happen, Sound, Alone;
    if hs == [] {
    } else {
      LastStep(s, hs, maxRetries, base);
      var before := hs[..|hs| - 1];
      RetryAccounting(s, before, k, maxRetries, base);
      if AllAccounted(s, before, k, maxRetries, base) {
        HappeningAccounted(Unfold(s, before, maxRetries, base).value, hs[|hs| - 1], k,
                           Failures(s, before, k, maxRetries, base), maxRetries, base);
      }
    }
  }

  ghost predicate AllFeed(hs: seq<Happening>, k: Key, data: string) {
    forall h :: h in hs ==> Feeds(h, k, data)
  }

  lemma {:induction false} DataIsKept(s: System, hs: seq<Happening>, k: Key, data: string, maxRetries: nat, base: int)
    requires Possible(s, hs, maxRetries, base) && Carries(s, k, data) && AllFeed(hs, k, data)
    ensures Carries(Unfold(s, hs, maxRetries, base).value, k, data)
    decreases |hs|
  {
    hide Carries, Happen, Feeds;
    if hs == [] {
    } else {
      LastStep(s, hs, maxRetries, base);
      assert hs[|hs| - 1] in hs;
      DataIsKept(s, hs[..|hs| - 1], k, data, maxRetries, base);
      HappeningCarries(Unfold(s, hs[..|hs| - 1], maxRetries, base).value, hs[|hs| - 1], k, data, maxRetries, base);
    }
  }

  /** What right books mean: the handler failed at most maxRetries + 1 times, and the task is buried, once and
      with the count at the limit, exactly when it failed that often and nobody owes it a follow-up. */
  lemma RightBooks(s: System, k: Key, f: nat, maxRetries: nat)
    requires Accounted(s, k, f, maxRetries)
    ensures f <= maxRetries + 1
    ensures DeadOf(s.q.dead, k) != [] <==> f == maxRetries + 1 && NobodyOwes(s, k)
    ensures DeadOf(s.q.dead, k) != [] ==>
              |DeadOf(s.q.dead, k)| == 1 && DeadOf(s.q.dead, k)[0].retries == maxRetries && Nowhere(s.q, k)
  {
  }

  // ---- What a follow-up puts in ----

  /** A refused task is due again at once as it was, a failed one later with one more retry; a buried one leads the
      dead as it failed. */
  lemma FollowUps(q: Queue, t: Task, now: int, maxRetries: nat, base: int)
    ensures var r := Return(q, t, now);
            && t.key in Due(r.ready, now) && r.ready[t.key] == now == r.bodies[t.key].executeAt
            && r.bodies[t.key] == t.(executeAt := now) && SameBut(q, r, t.key)
    ensures t.retries < maxRetries ==>
              var r, at := Retry(q, t, now, maxRetries, base), now + base * Pow2(t.retries + 1);
              && t.key in r.ready && r.ready[t.key] == at
              && r.bodies[t.key] == t.(retries := t.retries + 1, executeAt := at) && SameBut(q, r, t.key)
    ensures t.retries >= maxRetries ==>
              var r := Retry(q, t, now, maxRetries, base);
              r.dead != [] && r.dead[0] == t && r.dead[1..] == q.dead && r.(dead := q.dead) == q
  {
  }

  ghost predicate HandsCarry(hands: seq<Hand>, k: Key, data: string) {
    forall i :: 0 <= i < |hands| && !hands[i].Finished? && hands[i].t.key == k ==> hands[i].t.data == data
  }

  /** Everything there is of k, stored, in hand or buried, carries this data. */
  ghost predicate Carries(s: System, k: Key, data: string) {
    && (forall x :: x in s.q.bodies ==> s.q.bodies[x].key == x)
    && (k in s.q.bodies ==> s.q.bodies[k].data == data)
    && HandsCarry(s.hands, k, data)
    && (forall i :: 0 <= i < |s.q.dead| && s.q.dead[i].key == k ==> s.q.dead[i].data == data)
  }

  /** What others enqueue or bury has the right key, and if it is k this data. */
  predicate Feeds(h: Happening, k: Key, data: string) {
    h.Script? ==>
      && (h.e.DoEnqueue? ==> h.e.body.key == h.e.k && (h.e.k == k ==> h.e.body.data == data))
      && (h.e.DoDead? && h.e.body.key == k ==> h.e.body.data == data)
  }

  lemma {:induction false} BodiesAreTheirs(bodies: map<Key, Task>, r: seq<Key>, k: Key, data: string)
    requires forall x :: x in bodies ==> bodies[x].key == x
    requires k in bodies ==> bodies[k].data == data
    ensures forall t :: t in BodiesOf(bodies, r) && t.key == k ==> t.data == data
  {
    if r == [] {
    } else {
      BodiesAreTheirs(bodies, r[1..], k, data);
    }
  }

  /** No script, failure or refusal ever changes what a task carries: its handlers get, and the dead keep, what was
      enqueued. */
  lemma HappeningCarries(s: System, h: Happening, k: Key, data: string, maxRetries: nat, base: int)
    requires Enabled(s, h) && Carries(s, k, data) && Feeds(h, k, data)
    ensures Carries(Happen(s, h, maxRetries, base), k, data)
  {
    if h.HandOut? {
      HandOutCarries(s, h, k, data, maxRetries, base);
    } else if h.Script? {
      ScriptCarries(s, h, k, data, maxRetries, base);
    } else {
      FollowUpCarries(s, h, k, data, maxRetries, base);
    }
  }

  lemma HandOutCarries(s: System, h: Happening, k: Key, data: string, maxRetries: nat, base: int)
    requires Enabled(s, h) && Carries(s, k, data) && h.HandOut?
    ensures Carries(Happen(s, h, maxRetries, base), k, data)
  {
    BodiesAreTheirs(s.q.bodies, HandedOut(s.q, h.e), k, data);
    BodiesStay(s.q, h.e);
    DeadStay(s.q, h.e);
    hide HandedOut, BodiesOf, Step, HandsCarry, Hands;
    NewHandsCarry(s.hands, BodiesOf(s.q.bodies, HandedOut(s.q, h.e)), k, data);
  }

  lemma NewHandsCarry(hands: seq<Hand>, ts: seq<Task>, k: Key, data: string)
    requires HandsCarry(hands, k, data) && forall t :: t in ts && t.key == k ==> t.data == data
    ensures HandsCarry(hands + Hands(ts), k, data)
  {
    assert forall i :: 0 <= i < |ts| ==> Hands(ts)[i] == Working(ts[i]) && ts[i] in ts;
  }

  lemma DeadStay(q: Queue, e: Event)
    requires e.DoDequeue? || e.DoPoll?
    ensures Step(q, e).dead == q.dead
  {
  }

  lemma ScriptCarries(s: System, h: Happening, k: Key, data: string, maxRetries: nat, base: int)
    requires Enabled(s, h) && Carries(s, k, data) && h.Script? && Feeds(h, k, data)
    ensures Carries(Happen(s, h, maxRetries, base), k, data)
  {
  }

  lemma FollowUpCarries(s: System, h: Happening, k: Key, data: string, maxRetries: nat, base: int)
    requires Enabled(s, h) && Carries(s, k, data) && h.OfHand()
    ensures Carries(Happen(s, h, maxRetries, base), k, data)
  {
    hide Backoff;
  }

  // ---- Where soundness comes from ----

  /** The task is out under this lease, and nobody is between two requests on it. */
  ghost predicate Standing(s: System, k: Key, visibleAt: int, t: Task) {
    && k !in s.q.ready && k in s.q.processing && s.q.processing[k] == visibleAt
    && k in s.q.bodies && s.q.bodies[k] == t && NobodyOwes(s, k)
  }

  /** A hand-out puts its tasks out, and gives each to a new hand. */
  lemma HandOutStands(s: System, e: Event, k: Key, maxRetries: nat, base: int) returns (i: nat)
    requires Enabled(s, HandOut(e)) && k in HandedOut(s.q, e) && k in s.q.bodies && NobodyOwes(s, k)
    ensures var s' := Happen(s, HandOut(e), maxRetries, base);
            && Standing(s', k, e.visibleAt, s.q.bodies[k])
            && |s.hands| <= i < |s'.hands| && s'.hands[i] == Working(s.q.bodies[k])
  {
    hide Standing, HandedOut, BodiesOf, Step;
    HandOutLeasesTask(s, e, k, maxRetries, base);
    var at := BodyHandedOut(s.q.bodies, HandedOut(s.q, e), k);
    i := |s.hands| + at;
  }

  lemma HandOutLeasesTask(s: System, e: Event, k: Key, maxRetries: nat, base: int)
    requires Enabled(s, HandOut(e)) && k in HandedOut(s.q, e) && k in s.q.bodies && NobodyOwes(s, k)
    ensures Standing(Happen(s, HandOut(e), maxRetries, base), k, e.visibleAt, s.q.bodies[k])
  {
    HandOutLeases(s.q, e, k);
    BodiesStay(s.q, e);
    MovesIn(s.q, e, k);
  }

  lemma {:induction false} BodyHandedOut(bodies: map<Key, Task>, r: seq<Key>, k: Key) returns (at: nat)
    requires k in r && k in bodies
    ensures at < |BodiesOf(bodies, r)| && BodiesOf(bodies, r)[at] == bodies[k]
  {
    if r[0] == k {
      at := 0;
    } else {
      at := BodyHandedOut(bodies, r[1..], k);
      at := if r[0] in bodies then at + 1 else at;
    }
  }

  lemma BodiesStay(q: Queue, e: Event)
    requires e.DoDequeue? || e.DoPoll?
    ensures Step(q, e).bodies == q.bodies
  {
  }

  lemma MovesIn(q: Queue, e: Event, k: Key)
    requires k in HandedOut(q, e)
    ensures k in Step(q, e).processing
  {
  }

  /** The event may take the lease from its holder. */
  predicate TakesLease(h: Happening, k: Key, visibleAt: int) {
    (h.Script? || h.HandOut?) && Releases(h.e, k, visibleAt)
  }

  lemma StandingHolds(s: System, h: Happening, k: Key, visibleAt: int, t: Task, maxRetries: nat, base: int)
    requires Standing(s, k, visibleAt, t) && Enabled(s, h) && Alone(s, h, k)
    requires !Concerns(s, h, k) && !TakesLease(h, k, visibleAt)
    ensures Standing(Happen(s, h, maxRetries, base), k, visibleAt, t)
  {
    if !h.OfHand() {
      ScriptKeepsLease(s.q, h.e, k, visibleAt);
    }
  }

  lemma ScriptKeepsLease(q: Queue, e: Event, k: Key, visibleAt: int)
    requires k !in q.ready && k in q.processing && q.processing[k] == visibleAt && k in q.bodies
    requires !Releases(e, k, visibleAt) && !(e.DoCancel? && e.k == k) && !(e.DoAck? && e.k == k)
    ensures var r := Step(q, e);
            && k !in r.ready && k in r.processing && r.processing[k] == visibleAt
            && k in r.bodies && r.bodies[k] == q.bodies[k]
  {
  }

  /** Nobody touches k, and no clock passes the lease's end. */
  ghost predicate Quiet(s: System, hs: seq<Happening>, k: Key, visibleAt: int, maxRetries: nat, base: int)
    requires Possible(s, hs, maxRetries, base)
    decreases |hs|
  {
    hs == [] ||
    (LastStep(s, hs, maxRetries, base);
     var s1, h := Unfold(s, hs[..|hs| - 1], maxRetries, base).value, hs[|hs| - 1];
     Quiet(s, hs[..|hs| - 1], k, visibleAt, maxRetries, base) &&
     Alone(s1, h, k) && !Concerns(s1, h, k) && !TakesLease(h, k, visibleAt))
  }

  /** A failure is sound when its acknowledgement is executed and no other hand acted on the task and no poll
      or requeue was sent at or after the lease's end since the hand-out. */
  lemma {:induction false} PromptFailureIsSound(s: System, hs: seq<Happening>, k: Key, visibleAt: int, t: Task,
                                                i: nat, maxRetries: nat, base: int)
    requires Standing(s, k, visibleAt, t) && i < |s.hands| && s.hands[i] == Working(t) && t.key == k
    requires Possible(s, hs, maxRetries, base) && Quiet(s, hs, k, visibleAt, maxRetries, base)
    ensures var s' := Unfold(s, hs, maxRetries, base).value;
            && Standing(s', k, visibleAt, t) && i < |s'.hands| && s'.hands[i] == Working(t)
            && Enabled(s', LetGo(i, true, true)) && Sound(s', LetGo(i, true, true), k)
    decreases |hs|
  {
    hide Standing;
    if hs == [] {
      assert Sound(s, LetGo(i, true, true), k) by {
        StandingIsSound(s, k, visibleAt, t, i);
      }
    } else {
      LastStep(s, hs, maxRetries, base);
      var before, h := hs[..|hs| - 1], hs[|hs| - 1];
      PromptFailureIsSound(s, before, k, visibleAt, t, i, maxRetries, base);
      var s1 := Unfold(s, before, maxRetries, base).value;
      StandingHolds(s1, h, k, visibleAt, t, maxRetries, base);
      StandingIsSound(Happen(s1, h, maxRetries, base), k, visibleAt, t, i);
    }
  }

  lemma StandingIsSound(s: System, k: Key, visibleAt: int, t: Task, i: nat)
    requires Standing(s, k, visibleAt, t) && i < |s.hands| && s.hands[i] == Working(t)
    ensures Sound(s, LetGo(i, true, true), k)
  {
  }

  // ---- The burial can be reached ----

  /** A sound step more. */
  lemma Longer(s: System, hs: seq<Happening>, h: Happening, k: Key, maxRetries: nat, base: int)
    returns (hs': seq<Happening>)
    requires Possible(s, hs, maxRetries, base) && AllAlone(s, hs, k, maxRetries, base)
    requires AllSound(s, hs, k, maxRetries, base)
    requires var s1 := Unfold(s, hs, maxRetries, base).value; Enabled(s1, h) && Alone(s1, h, k) && Sound(s1, h, k)
    ensures hs' == hs + [h] && Possible(s, hs', maxRetries, base) && AllAlone(s, hs', k, maxRetries, base)
    ensures AllSound(s, hs', k, maxRetries, base)
    ensures var s1 := Unfold(s, hs, maxRetries, base).value;
            && Unfold(s, hs', maxRetries, base).value == Happen(s1, h, maxRetries, base)
            && Failures(s, hs', k, maxRetries, base) == Failures(s, hs, k, maxRetries, base) + FailuresIn(s1, h, k)
  {
    hide Happen, Alone, Sound, FailuresIn, Enabled;
    hs' := hs + [h];
    assert hs'[..|hs'| - 1] == hs;
  }

  /** A poll late enough and large enough hands out a key that is ready or leased. */
  lemma SomePollHandsOut(q: Queue, k: Key) returns (e: Event)
    requires k in q.ready || k in q.processing
    ensures e.DoPoll? && k in HandedOut(q, e)
  {
    var now := if k in q.ready then q.ready[k] else q.processing[k];
    e := DoPoll(now, |Pending(q, now)|, now + 1);
    assert k in Pending(q, now);
    hide HandedOut, Pending, Step;
    PollProgress(q, now, |Pending(q, now)|, now + 1);
    var h := HandedOut(q, e);
    NoDupSize(h);
    SubsetSame(ToSet(h), Pending(q, now));
    assert k in ToSet(h);
  }

  /** With right books, a key that waits or is leased can be handed out, and its handler can fail. */
  lemma OneMoreFailure(s: System, hs: seq<Happening>, k: Key, maxRetries: nat, base: int)
    returns (hs': seq<Happening>)
    requires Possible(s, hs, maxRetries, base) && AllAlone(s, hs, k, maxRetries, base)
    requires AllSound(s, hs, k, maxRetries, base)
    requires var s1, f := Unfold(s, hs, maxRetries, base).value, Failures(s, hs, k, maxRetries, base);
             NobodyOwes(s1, k) && f <= maxRetries && Settled(s1.q, k, f, maxRetries)
    ensures hs <= hs' && Possible(s, hs', maxRetries, base) && AllAlone(s, hs', k, maxRetries, base)
    ensures AllSound(s, hs', k, maxRetries, base)
    ensures Failures(s, hs', k, maxRetries, base) == Failures(s, hs, k, maxRetries, base) + 1
  {
    hide Happen, AllAlone, AllSound, Failures, Unfold, HandedOut, Standing, DeadOf;
    var s1 := Unfold(s, hs, maxRetries, base).value;
    var e := SomePollHandsOut(s1.q, k);
    hs' := Longer(s, hs, HandOut(e), k, maxRetries, base);
    var i := HandOutStands(s1, e, k, maxRetries, base);
    var s2 := Happen(s1, HandOut(e), maxRetries, base);
    StandingIsSound(s2, k, e.visibleAt, s1.q.bodies[k], i);
    hs' := Longer(s, hs', LetGo(i, true, true), k, maxRetries, base);
  }

  /** Whoever owes the follow-up can have it executed. */
  lemma OneMoreFollow(s: System, hs: seq<Happening>, k: Key, maxRetries: nat, base: int, i: nat)
    returns (hs': seq<Happening>)
    requires Possible(s, hs, maxRetries, base) && AllAlone(s, hs, k, maxRetries, base)
    requires AllSound(s, hs, k, maxRetries, base)
    requires var s1, f := Unfold(s, hs, maxRetries, base).value, Failures(s, hs, k, maxRetries, base);
             Between(s1, k, f, maxRetries, i)
    ensures hs <= hs' && Possible(s, hs', maxRetries, base) && AllAlone(s, hs', k, maxRetries, base)
    ensures AllSound(s, hs', k, maxRetries, base)
    ensures Failures(s, hs', k, maxRetries, base) == Failures(s, hs, k, maxRetries, base)
    ensures NobodyOwes(Unfold(s, hs', maxRetries, base).value, k)
  {
    hide AllAlone, AllSound, Failures, Unfold, DeadOf, Retry, Return;
    hs' := Longer(s, hs, Follow(i, 0, true), k, maxRetries, base);
  }

  /** From every point of a run with right books the run can go on, with right books, until the task is buried. */
  lemma {:induction false} BurialCanBeReached(s: System, hs: seq<Happening>, k: Key, maxRetries: nat, base: int)
    returns (hs': seq<Happening>)
    requires Possible(s, hs, maxRetries, base) && AllAlone(s, hs, k, maxRetries, base)
    requires Accounted(s, k, 0, maxRetries) && AllSound(s, hs, k, maxRetries, base)
    ensures hs <= hs' && Possible(s, hs', maxRetries, base) && AllAlone(s, hs', k, maxRetries, base)
    ensures AllSound(s, hs', k, maxRetries, base) && Failures(s, hs', k, maxRetries, base) == maxRetries + 1
    ensures |DeadOf(Unfold(s, hs', maxRetries, base).value.q.dead, k)| == 1
    decreases maxRetries + 1 - Failures(s, hs, k, maxRetries, base),
              if NobodyOwes(Unfold(s, hs, maxRetries, base).value, k) then 0 else 1
  {
    hide AllAlone, AllSound, Failures, Unfold, DeadOf, NobodyOwes, Settled, Between;
    RetryAccounting(s, hs, k, maxRetries, base);
    var s1, f := Unfold(s, hs, maxRetries, base).value, Failures(s, hs, k, maxRetries, base);
    RightBooks(s1, k, f, maxRetries);
    EitherWay(s1, k, f, maxRetries);
    if NobodyOwes(s1, k) && f == maxRetries + 1 {
      hs' := hs;
    } else if NobodyOwes(s1, k) {
      hs' := OneMoreFailure(s, hs, k, maxRetries, base);
      hs' := BurialCanBeReached(s, hs', k, maxRetries, base);
    } else {
      var i: nat :| Between(s1, k, f, maxRetries, i);
      hs' := OneMoreFollow(s, hs, k, maxRetries, base, i);
      hs' := BurialCanBeReached(s, hs', k, maxRetries, base);
    }
  }

  lemma EitherWay(s: System, k: Key, f: nat, maxRetries: nat)
    requires Accounted(s, k, f, maxRetries)
    ensures if NobodyOwes(s, k) then Settled(s.q, k, f, maxRetries)
            else exists i: nat :: Between(s, k, f, maxRetries, i)
  {
  }

  // ---- Where it fails ----

  /** One task, handed out twice because the first lease ran out. */
  ghost function TwoHands(k: Key, t: Task): System {
    System(Queue(map[], map[k := 20], map[k := t], []), [Working(t), Working(t)])
  }

  lemma TwoPolls(k: Key, t: Task, maxRetries: nat, base: int)
    ensures Unfold(System(Queue(map[k := 0], map[], map[k := t], []), []),
                   [HandOut(DoPoll(0, 1, 10)), HandOut(DoPoll(10, 1, 20))], maxRetries, base)
            == Some(TwoHands(k, t))
  {
    hide HandedOut, Step, BodiesOf;
    var e1, e2 := DoPoll(0, 1, 10), DoPoll(10, 1, 20);
    var q0, q1 := Queue(map[k := 0], map[], map[k := t], []), Queue(map[], map[k := 10], map[k := t], []);
    PollsLoneKey(q0, k, t, 0, 10);
    PollsLoneKey(q1, k, t, 10, 20);
    OneBody(k, t);
    var s0, s1 := System(q0, []), System(q1, [Working(t)]);
    assert Happen(s0, HandOut(e1), maxRetries, base) == s1;
    assert Happen(s1, HandOut(e2), maxRetries, base) == TwoHands(k, t);
    assert [HandOut(e1), HandOut(e2)][..1] == [HandOut(e1)] && [HandOut(e1)][..0] == [];
    assert Unfold(s0, [HandOut(e1)], maxRetries, base) == Some(s1);
  }

  lemma OneBody(k: Key, t: Task)
    ensures BodiesOf(map[k := t], [k]) == [t]
  {
  }

  /** A poll of a queue that holds one task, due in ready or overdue in processing. */
  lemma PollsLoneKey(q: Queue, k: Key, t: Task, now: int, visibleAt: int)
    requires q.bodies == map[k := t] && q.dead == []
    requires (q.ready == map[k := now] && q.processing == map[]) || (q.ready == map[] && q.processing == map[k := now])
    ensures HandedOut(q, DoPoll(now, 1, visibleAt)) == [k]
    ensures Step(q, DoPoll(now, 1, visibleAt)) == Queue(map[], map[k := visibleAt], map[k := t], [])
  {
    LoneRange(q.processing, k, now);
    var q1 := Requeue(q, now, 1);
    assert q1 == Queue(map[k := now], map[], map[k := t], []) && k in q1.ready;
    LoneRange(q1.ready, k, now);
  }

  lemma LoneRange(z: ZSet, k: Key, now: int)
    requires z == map[] || z == map[k := now]
    ensures Range(z, now, 1) == if z == map[] then [] else [k]
  {
    if z == map[] {
      RangeEnds(z, now, 1);
    } else {
      assert Due(z, now) == {k};
      RangeTakes(z, now, 1, k);
      RangeEnds(z - {k}, now, 0);
    }
  }

  /** A handler that outlives its lease, with another consumer given the same task: both fail, and the task is
      buried twice. */
  lemma BuriedTwice(k: Key, t: Task, base: int)
    requires t.key == k
    ensures var s1 := Happen(TwoHands(k, t), LetGo(0, true, true), t.retries, base);
            var s2 := Happen(s1, Follow(0, 21, true), t.retries, base);
            var s3 := Happen(s2, LetGo(1, true, true), t.retries, base);
            var s4 := Happen(s3, Follow(1, 22, true), t.retries, base);
            s4.q == Queue(map[], map[], map[], [t, t])
  {
    var s1 := Happen(TwoHands(k, t), LetGo(0, true, true), t.retries, base);
    assert s1.q == Queue(map[], map[], map[], []);
  }

  /** Below the limit the second failure is not counted: after two the task is on its first retry. */
  lemma CountedOnce(k: Key, t: Task, maxRetries: nat, base: int)
    requires t.key == k && t.retries == 0 && maxRetries > 0
    ensures var s1 := Happen(TwoHands(k, t), LetGo(0, true, true), maxRetries, base);
            var s2 := Happen(s1, Follow(0, 21, true), maxRetries, base);
            var s3 := Happen(s2, LetGo(1, true, true), maxRetries, base);
            var s4 := Happen(s3, Follow(1, 22, true), maxRetries, base);
            k in s4.q.bodies && s4.q.bodies[k].retries == 1 && s4.q.dead == []
  {
  }

  // ---- Delays ----

  /** How far ahead a retry schedules the key. */
  ghost function Delay(s: System, h: Happening, k: Key, maxRetries: nat, base: int): int
    requires Enabled(s, h)
  {
    if h.Follow? && h.done && Concerns(s, h, k) && s.hands[h.i].failed && s.hands[h.i].t.retries < maxRetries
    then Happen(s, h, maxRetries, base).q.ready[k] - h.now else 0
  }

  ghost function TotalDelay(s: System, hs: seq<Happening>, k: Key, maxRetries: nat, base: int): int
    requires Possible(s, hs, maxRetries, base)
    decreases |hs|
  {
    if hs == [] then 0
    else
      LastStep(s, hs, maxRetries, base);
      TotalDelay(s, hs[..|hs| - 1], k, maxRetries, base)
      + Delay(Unfold(s, hs[..|hs| - 1], maxRetries, base).value, hs[|hs| - 1], k, maxRetries, base)
  }

  /** The first r delays together: base * 2, base * 4 and so on. */
  function DoublingSum(base: int, r: nat): int {
    base * (Pow2(r + 1) - 2)
  }

  lemma OneMoreDelay(base: int, r: nat)
    ensures DoublingSum(base, 0) == 0 && DoublingSum(base, r + 1) == DoublingSum(base, r) + Backoff(base, r + 1)
  {
    var p := Pow2(r + 1);
    assert base * (2 * p - 2) == base * (p - 2) + base * p;
  }

  /** The delays so far belong to the retries so far. */
  ghost predicate Paid(s: System, k: Key, total: int, maxRetries: nat, base: int) {
    && (k in s.q.bodies ==> total == DoublingSum(base, s.q.bodies[k].retries))
    && (forall i :: 0 <= i < |s.hands| && Owes(s.hands[i], k) ==> total == DoublingSum(base, s.hands[i].t.retries))
    && (k !in s.q.bodies && NobodyOwes(s, k) ==> total == DoublingSum(base, maxRetries))
  }

  lemma QuietPaid(s: System, h: Happening, k: Key, maxRetries: nat, base: int, total: int)
    requires Enabled(s, h) && Alone(s, h, k) && !Concerns(s, h, k)
    requires Paid(s, k, total, maxRetries, base)
    ensures Paid(Happen(s, h, maxRetries, base), k, total, maxRetries, base)
  {
    hide SameBooks, Step, HandedOut, BodiesOf, AckIf, Retry, Return, DoublingSum, DeadOf;
    var s' := Happen(s, h, maxRetries, base);
    if h.OfHand() {
      OthersKeepBooks(s, h, k, maxRetries, base);
    } else {
      ScriptKeepsBooks(s.q, h.e, k);
    }
    BooksBodies(s.q, s'.q, k);
    assert forall i :: 0 <= i < |s.hands| && Owes(s.hands[i], k) ==> s'.hands[i] == s.hands[i];
  }

  lemma BooksBodies(q: Queue, q': Queue, k: Key)
    requires SameBooks(q, q', k)
    ensures (k in q'.bodies <==> k in q.bodies) && (k in q.bodies ==> q'.bodies[k] == q.bodies[k])
  {
  }

  lemma LetGoPaid(s: System, h: Happening, k: Key, f: nat, maxRetries: nat, base: int, total: int)
    requires Accounted(s, k, f, maxRetries) && Enabled(s, h) && h.LetGo? && Concerns(s, h, k) && Sound(s, h, k)
    requires Paid(s, k, total, maxRetries, base)
    ensures Paid(Happen(s, h, maxRetries, base), k, total, maxRetries, base)
  {
    hide DoublingSum;
    assert Owes(Happen(s, h, maxRetries, base).hands[h.i], k);
  }

  lemma FollowPaid(s: System, h: Happening, k: Key, f: nat, maxRetries: nat, base: int, total: int)
    requires Accounted(s, k, f, maxRetries) && Enabled(s, h) && h.Follow? && Concerns(s, h, k) && Sound(s, h, k)
    requires Paid(s, k, total, maxRetries, base)
    ensures Paid(Happen(s, h, maxRetries, base), k, total + Delay(s, h, k, maxRetries, base), maxRetries, base)
  {
    hide DoublingSum, Backoff;
    assert Owes(s.hands[h.i], k);
    var i: nat :| Between(s, k, f, maxRetries, i);
    assert i == h.i;
    OneMoreDelay(base, s.hands[i].t.retries);
  }

  lemma HappeningPaid(s: System, h: Happening, k: Key, f: nat, maxRetries: nat, base: int, total: int)
    requires Accounted(s, k, f, maxRetries) && Enabled(s, h) && Alone(s, h, k) && Sound(s, h, k)
    requires Paid(s, k, total, maxRetries, base)
    ensures Paid(Happen(s, h, maxRetries, base), k, total + Delay(s, h, k, maxRetries, base), maxRetries, base)
  {
    hide Paid, Accounted, Happen, Sound;
    if !Concerns(s, h, k) {
      QuietPaid(s, h, k, maxRetries, base, total);
    } else if h.LetGo? {
      LetGoPaid(s, h, k, f, maxRetries, base, total);
    } else {
      FollowPaid(s, h, k, f, maxRetries, base, total);
    }
  }

  /** The delays a task is given double from retry to retry: with right books the r retries so far were
      scheduled base * (2^(r+1) - 2) ahead in sum, and a buried task's maxRetries retries
      base * (2^(maxRetries+1) - 2). */
  lemma {:induction false} DelaysDouble(s: System, hs: seq<Happening>, k: Key, maxRetries: nat, base: int)
    requires Possible(s, hs, maxRetries, base) && AllAlone(s, hs, k, maxRetries, base)
    requires Accounted(s, k, 0, maxRetries) && AllSound(s, hs, k, maxRetries, base)
    ensures Paid(Unfold(s, hs, maxRetries, base).value, k, TotalDelay(s, hs, k, maxRetries, base), maxRetries, base)
    decreases |hs|
  {
    hide Accounted, Paid, Happen, Sound, Alone, Delay;
    if hs == [] {
      NothingPaid(s, k, maxRetries, base);
    } else {
      LastStep(s, hs, maxRetries, base);
      var before := hs[..|hs| - 1];
      DelaysDouble(s, before, k, maxRetries, base);
      RetryAccounting(s, before, k, maxRetries, base);
      HappeningPaid(Unfold(s, before, maxRetries, base).value, hs[|hs| - 1], k,
                    Failures(s, before, k, maxRetries, base), maxRetries, base,
                    TotalDelay(s, before, k, maxRetries, base));
    }
  }

  lemma NothingPaid(s: System, k: Key, maxRetries: nat, base: int)
    requires Accounted(s, k, 0, maxRetries)
    ensures Paid(s, k, 0, maxRetries, base)
  {
    OneMoreDelay(base, 0);
  }
}
