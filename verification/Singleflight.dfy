/** Duplicate suppression for loaders: many threads, one map of calls in flight. Two variants: the group that
    removes a call when it completes, and the sync.Map one that removes it later, by key, from a timer. */
module Singleflight {
  import opened Common

  type Key = string
  type Thread = nat
  type CallId = nat

  /** What a load came to; Cancelled is a waiter's own context ending. */
  datatype Reply = Loaded(value: Bytes) | LoadError(message: string) | Cancelled

  /** A call, with the thread that runs its loader (the program does not record it). */
  datatype Call = Call(key: Key, leader: Thread, reply: Option<Reply>)

  datatype Place =
    | Trying(key: Key)                     // found nothing, about to store a call of its own
    | Waiting(key: Key, call: CallId)
    | Loading(key: Key, call: CallId)
    | Scheduling(key: Key, call: CallId)   // reply published, removal timer not yet set
    | Returned(key: Key, call: CallId, reply: Reply)

  datatype Variant = AtOnce | Delayed

  datatype Flight = Flight(m: map<Key, CallId>, calls: seq<Call>, timers: set<CallId>, threads: map<Thread, Place>)

  const EMPTY: Flight := Flight(map[], [], {}, map[])

  datatype Event =
    | Enter(t: Thread, key: Key)        // AtOnce: look up, or store a new call, under one lock
    | Load(t: Thread, key: Key)         // Delayed: the fast path
    | LoadOrStore(t: Thread)            // Delayed: store a call unless there is one by now
    | Finish(t: Thread, reply: Reply)   // the loader is done
    | Schedule(t: Thread)               // Delayed: set the removal timer
    | Fire(call: CallId)                // Delayed: the timer removes the call's key
    | Wake(t: Thread)                   // a waiter sees the reply
    | GiveUp(t: Thread)                 // a waiter's context ends first

  predicate Enabled(v: Variant, f: Flight, e: Event) {
    match e
    case Enter(t, _) => v.AtOnce? && (t in f.threads ==> f.threads[t].Returned?)
    case Load(t, _) => v.Delayed? && (t in f.threads ==> f.threads[t].Returned?)
    case LoadOrStore(t) => v.Delayed? && t in f.threads && f.threads[t].Trying?
    case Finish(t, reply) => t in f.threads && f.threads[t].Loading? && f.threads[t].call < |f.calls|
        && !reply.Cancelled?
    case Schedule(t) =>
      t in f.threads && f.threads[t].Scheduling? && f.threads[t].call < |f.calls|
          && f.calls[f.threads[t].call].reply.Some?
    case Fire(c) => c in f.timers && c < |f.calls|
    case Wake(t) =>
      t in f.threads && f.threads[t].Waiting? && f.threads[t].call < |f.calls| && f.calls[f.threads[t].call].reply.Some?
    case GiveUp(t) => t in f.threads && f.threads[t].Waiting?
  }

  /** Join the call in flight for the key, or start one. */
  function Join(f: Flight, t: Thread, key: Key): Flight {
    if key in f.m then f.(threads := f.threads[t := Waiting(key, f.m[key])])
    else
      var c := |f.calls|;
      f.(m := f.m[key := c], calls := f.calls + [Call(key, t, None)], threads := f.threads[t := Loading(key, c)])
  }

  function Step(v: Variant, f: Flight, e: Event): Flight
    requires Enabled(v, f, e)
  {
    match e
    case Enter(t, key) => Join(f, t, key)
    case Load(t, key) =>
      f.(threads := f.threads[t := if key in f.m then Waiting(key, f.m[key]) else Trying(key)])
    case LoadOrStore(t) => Join(f, t, f.threads[t].key)
    case Finish(t, reply) =>
      var Loading(key, c) := f.threads[t];
      var published := f.(calls := f.calls[c := f.calls[c].(reply := Some(reply))]);
      if v.AtOnce? then published.(m := f.m - {key}, threads := f.threads[t := Returned(key, c, reply)])
      else published.(threads := f.threads[t := Scheduling(key, c)])
    case Schedule(t) =>
      var Scheduling(key, c) := f.threads[t];
      f.(timers := f.timers + {c}, threads := f.threads[t := Returned(key, c, f.calls[c].reply.value)])
    case Fire(c) => f.(timers := f.timers - {c}, m := f.m - {f.calls[c].key})
    case Wake(t) =>
      var Waiting(key, c) := f.threads[t];
      f.(threads := f.threads[t := Returned(key, c, f.calls[c].reply.value)])
    case GiveUp(t) =>
      var Waiting(key, c) := f.threads[t];
      f.(threads := f.threads[t := Returned(key, c, Cancelled)])
  }

  // ---- The invariant ----

  /** Call c is the one in flight for its key. */
  predicate InFlight(f: Flight, c: CallId) {
    c < |f.calls| && f.calls[c].key in f.m && f.m[f.calls[c].key] == c
  }

  /** A thread's place fits the call it names. */
  predicate Placed(f: Flight, t: Thread, p: Place) {
    match p
    case Trying(_) => true
    case Waiting(key, c) => c < |f.calls| && f.calls[c].key == key
    case Loading(key, c) => InFlight(f, c) && f.calls[c] == Call(key, t, None)
    case Scheduling(key, c) => InFlight(f, c) && c !in f.timers && f.calls[c].key == key
        && f.calls[c].leader == t && f.calls[c].reply.Some?
    case Returned(key, c, reply) =>
      c < |f.calls| && f.calls[c].key == key && (!reply.Cancelled? ==> f.calls[c].reply == Some(reply))
  }

  /** The thread that runs call c's loader, or has yet to set its timer. */
  predicate Leads(p: Place, c: CallId) {
    (p.Loading? || p.Scheduling?) && p.call == c
  }

  predicate Led(f: Flight, c: CallId)
    requires c < |f.calls|
  {
    f.calls[c].leader in f.threads && Leads(f.threads[f.calls[c].leader], c)
  }

  ghost predicate Valid(f: Flight) {
    && (forall t :: t in f.threads ==> Placed(f, t, f.threads[t]))
    && (forall k :: k in f.m ==>
          f.m[k] < |f.calls| && f.calls[f.m[k]].key == k && (f.m[k] in f.timers || Led(f, f.m[k])))
    && (forall c :: c in f.timers ==> InFlight(f, c) && f.calls[c].reply.Some?)
  }

  lemma StepKeepsValid(v: Variant, f: Flight, e: Event)
    requires Valid(f) && Enabled(v, f, e)
    ensures Valid(Step(v, f, e))
  {
    match e {
      case Enter(t, key) => JoinKeepsValid(f, t, key);
      case LoadOrStore(t) => JoinKeepsValid(f, t, f.threads[t].key);
      case Finish(t, reply) => FinishKeepsValid(v, f, t, reply);
      case Schedule(t) => ScheduleKeepsValid(v, f, t);
      case Fire(c) => FireKeepsValid(v, f, c);
      case _ => WaitersKeepValid(v, f, e);
    }
  }

  lemma JoinKeepsValid(f: Flight, t: Thread, key: Key)
    requires Valid(f) && (t in f.threads ==> f.threads[t].Trying? || f.threads[t].Returned?)
    ensures Valid(Join(f, t, key))
  {
    if key !in f.m {
      StartKeepsValid(f, t, key);
    }
  }

  lemma StartKeepsValid(f: Flight, t: Thread, key: Key)
    requires Valid(f) && key !in f.m && (t in f.threads ==> f.threads[t].Trying? || f.threads[t].Returned?)
    ensures Valid(Join(f, t, key))
  {
    var g, c := Join(f, t, key), |f.calls|;
    assert g.m == f.m[key := c] && g.timers == f.timers && g.threads == f.threads[t := Loading(key, c)];
    assert forall i :: 0 <= i < c ==> g.calls[i] == f.calls[i];
    forall s | s in g.threads ensures Placed(g, s, g.threads[s]) {
      if s != t {
        assert Placed(f, s, f.threads[s]);
      }
    }
  }

  lemma FinishKeepsValid(v: Variant, f: Flight, t: Thread, reply: Reply)
    requires Valid(f) && Enabled(v, f, Finish(t, reply))
    ensures Valid(Step(v, f, Finish(t, reply)))
  {
  }

  lemma ScheduleKeepsValid(v: Variant, f: Flight, t: Thread)
    requires Valid(f) && Enabled(v, f, Schedule(t))
    ensures Valid(Step(v, f, Schedule(t)))
  {
  }

  lemma FireKeepsValid(v: Variant, f: Flight, c: CallId)
    requires Valid(f) && Enabled(v, f, Fire(c))
    ensures Valid(Step(v, f, Fire(c)))
  {
  }

  lemma WaitersKeepValid(v: Variant, f: Flight, e: Event)
    requires Valid(f) && Enabled(v, f, e) && (e.Load? || e.Wake? || e.GiveUp?)
    ensures Valid(Step(v, f, e))
  {
  }

  // ---- What it gives ----

  /** At most one loader per key is running at any time. */
  lemma OneLoaderPerKey(f: Flight, s: Thread, t: Thread)
    requires Valid(f) && s in f.threads && t in f.threads && f.threads[s].Loading? && f.threads[t].Loading?
    requires f.threads[s].key == f.threads[t].key
    ensures s == t
  {
  }

  /** Who finds a call in flight for the key joins it, in all three looks, and starts nothing; who finds none starts
      one, or on the fast path goes on to try. */
  lemma JoinsTheCallInFlight(v: Variant, f: Flight, e: Event)
    requires Enabled(v, f, e) && (e.Enter? || e.Load? || e.LoadOrStore?)
    ensures var key, r := if e.LoadOrStore? then f.threads[e.t].key else e.key, Step(v, f, e);
            if key in f.m then r == f.(threads := r.threads) && r.threads[e.t] == Waiting(key, f.m[key])
            else if e.Load? then r == f.(threads := r.threads) && r.threads[e.t] == Trying(key)
            else && r.threads[e.t] == Loading(key, |f.calls|) && key in r.m && r.m[key] == |f.calls|
                 && |r.calls| == |f.calls| + 1 && r.calls[|f.calls|] == Call(key, e.t, None)
    ensures forall t :: t in f.threads && t != e.t ==>
              t in Step(v, f, e).threads && Step(v, f, e).threads[t] == f.threads[t]
  {
  }

  /** The delayed removal always finds its own call under its key, never a newer one, and touches no other key. */
  lemma TimerFindsItsOwnCall(f: Flight, c: CallId)
    requires Valid(f) && Enabled(Delayed, f, Fire(c))
    ensures f.calls[c].key in f.m && f.m[f.calls[c].key] == c
    ensures Step(Delayed, f, Fire(c)).m == map k | k in f.m && f.m[k] != c :: f.m[k]
  {
  }

  /** So does the removal on completion. */
  lemma CompletionFindsItsOwnCall(f: Flight, t: Thread, reply: Reply)
    requires Valid(f) && Enabled(AtOnce, f, Finish(t, reply))
    ensures Step(AtOnce, f, Finish(t, reply)).m == map k | k in f.m && f.m[k] != f.threads[t].call :: f.m[k]
  {
  }

  /** No key is blocked for good: whatever is in the map has a timer set, or a thread that will remove it. */
  lemma NoKeyIsStuck(f: Flight, key: Key)
    requires Valid(f) && key in f.m
    ensures f.m[key] in f.timers
            || exists t :: t in f.threads && Leads(f.threads[t], f.m[key]) && f.threads[t].key == key
  {
  }

  /** Threads that shared a call and did not give up returned the same reply. */
  lemma SharedReply(f: Flight, s: Thread, t: Thread)
    requires Valid(f) && s in f.threads && t in f.threads && f.threads[s].Returned? && f.threads[t].Returned?
    requires f.threads[s].call == f.threads[t].call && !f.threads[s].reply.Cancelled? && !f.threads[t].reply.Cancelled?
    ensures f.threads[s].reply == f.threads[t].reply && f.threads[s].key == f.threads[t].key
  {
  }

  // ---- Runs ----

  ghost predicate Run(v: Variant, fs: seq<Flight>, events: seq<Event>) {
    && |fs| == |events| + 1 && fs[0] == EMPTY
    && forall n :: 0 <= n < |events| ==> Enabled(v, fs[n], events[n]) && fs[n + 1] == Step(v, fs[n], events[n])
  }

  lemma {:induction false} RunsStayValid(v: Variant, fs: seq<Flight>, events: seq<Event>, n: nat)
    requires Run(v, fs, events) && n < |fs|
    ensures Valid(fs[n])
  {
    if n == 0 {
    } else {
      RunsStayValid(v, fs, events, n - 1);
      StepKeepsValid(v, fs[n - 1], events[n - 1]);
    }
  }

  /** Replies are published once and never change. */
  lemma RepliesStay(v: Variant, f: Flight, e: Event, c: CallId)
    requires Valid(f) && Enabled(v, f, e) && c < |f.calls|
    ensures c < |Step(v, f, e).calls| && Step(v, f, e).calls[c].key == f.calls[c].key
              && Step(v, f, e).calls[c].leader == f.calls[c].leader
    ensures Step(v, f, e).calls[c].reply
            == if e.Finish? && f.threads[e.t].call == c then Some(e.reply) else f.calls[c].reply
    ensures e.Finish? && f.threads[e.t].call == c ==> f.calls[c].reply.None?
  {
  }

  /** Which event published call c's reply. */
  ghost predicate PublishedAt(fs: seq<Flight>, events: seq<Event>, p: nat, c: CallId, reply: Reply)
    requires p < |events| && |fs| == |events| + 1
  {
    events[p].Finish? && events[p].reply == reply && events[p].t in fs[p].threads
    && fs[p].threads[events[p].t].Loading? && fs[p].threads[events[p].t].call == c
  }

  lemma {:induction false} RepliesComeFromLoaders(v: Variant, fs: seq<Flight>, events: seq<Event>, n: nat, c: CallId)
    requires Run(v, fs, events) && n < |fs| && c < |fs[n].calls| && fs[n].calls[c].reply.Some?
    ensures exists p :: 0 <= p < n && PublishedAt(fs, events, p, c, fs[n].calls[c].reply.value)
  {
    var e := events[n - 1];
    RunsStayValid(v, fs, events, n - 1);
    if c < |fs[n - 1].calls| {
      RepliesStay(v, fs[n - 1], e, c);
      if e.Finish? && fs[n - 1].threads[e.t].call == c {
        assert PublishedAt(fs, events, n - 1, c, e.reply);
      } else {
        RepliesComeFromLoaders(v, fs, events, n - 1, c);
      }
    }
  }

  /** A waiter that does not give up returns precisely the reply of the call it joined, as that call's own
      loader published it, for the key the waiter asked for. */
  lemma WaiterGetsItsCallsReply(v: Variant, fs: seq<Flight>, events: seq<Event>, n: nat, t: Thread)
    requires Run(v, fs, events) && n < |events| && events[n] == Wake(t)
    ensures var waiting, back := fs[n].threads[t], fs[n + 1].threads[t];
            && back.Returned? && back.key == waiting.key && back.call == waiting.call
            && fs[n].calls[waiting.call].key == waiting.key
            && exists p :: 0 <= p < n && PublishedAt(fs, events, p, waiting.call, back.reply)
  {
    RunsStayValid(v, fs, events, n);
    RepliesComeFromLoaders(v, fs, events, n, fs[n].threads[t].call);
  }
}
