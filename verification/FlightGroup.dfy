/** The two implementations of duplicate suppression, one method per atomic section. */
module FlightGroup {
  import opened Common
  import opened Singleflight

  /** What both share: the map of calls in flight and the calls. Where each goroutine stands is known to the proof
      only; what it remembers between sections are a key and a call. */
  class Group {
    const variant: Variant
    var m: map<Key, CallId>
    var replies: seq<Option<Reply>>  // of each call, once it is done
    ghost var calls: seq<Call>
    ghost var timers: set<CallId>
    ghost var threads: map<Thread, Place>

    constructor (variant: Variant)
      ensures this.variant == variant && State() == EMPTY && Ok()
    {
      this.variant := variant;
      m, replies, calls, timers, threads := map[], [], [], {}, map[];
    }

    ghost function State(): Flight
      reads this
    {
      Flight(m, calls, timers, threads)
    }

    ghost predicate Tied()
      reads this
    {
      |replies| == |calls| && forall c :: 0 <= c < |calls| ==> replies[c] == calls[c].reply
    }

    ghost predicate Ok()
      reads this
    {
      Valid(State()) && Tied()
    }

    /** Store a new call for the key, or join the one that is there. */
    method JoinOrStart(ghost t: Thread, key: Key) returns (leader: bool, c: CallId)
      requires Tied()
      modifies this
      ensures Tied() && State() == Join(old(State()), t, key) && leader == (key !in old(m))
      ensures threads[t] == if leader then Loading(key, c) else Waiting(key, c)
    {
      if key in m {
        threads := threads[t := Waiting(key, m[key])];
        return false, m[key];
      }
      leader, c := true, |replies|;
      replies := replies + [None];
      calls := calls + [Call(key, t, None)];
      m := m[key := c];
      threads := threads[t := Loading(key, c)];
    }

    /** flightGroup.Do up to its first unlock: one locked section. */
    method DoBegin(ghost t: Thread, key: Key) returns (leader: bool, c: CallId)
      requires Ok() && Enabled(variant, State(), Enter(t, key))
      modifies this
      ensures State() == Step(variant, old(State()), Enter(t, key)) && Ok()
      ensures leader == (key !in old(m)) && threads[t] == if leader then Loading(key, c) else Waiting(key, c)
    {
      StepKeepsValid(variant, State(), Enter(t, key));
      leader, c := JoinOrStart(t, key);
    }

    /** flightGroup.Do's second locked section: publish, close, and remove by key. */
    method DoEnd(ghost t: Thread, key: Key, c: CallId, reply: Reply)
      requires Ok() && variant.AtOnce? && Enabled(variant, State(), Finish(t, reply))
      requires threads[t] == Loading(key, c)
      modifies this
      ensures State() == Step(variant, old(State()), Finish(t, reply)) && Ok()
    {
      StepKeepsValid(variant, State(), Finish(t, reply));
      replies := replies[c := Some(reply)];
      calls := calls[c := calls[c].(reply := Some(reply))];
      m := m - {key};
      threads := threads[t := Returned(key, c, reply)];
    }

    /** doCall's fast path. */
    method LoadCall(ghost t: Thread, key: Key) returns (found: Option<CallId>)
      requires Ok() && Enabled(variant, State(), Load(t, key))
      modifies this
      ensures State() == Step(variant, old(State()), Load(t, key)) && Ok()
      ensures threads[t] == if found.Some? then Waiting(key, found.value) else Trying(key)
    {
      StepKeepsValid(variant, State(), Load(t, key));
      found := if key in m then Some(m[key]) else None;
      threads := threads[t := if found.Some? then Waiting(key, found.value) else Trying(key)];
    }

    /** doCall's LoadOrStore: by now another thread may have stored a call. */
    method LoadOrStoreCall(ghost t: Thread, key: Key) returns (leader: bool, c: CallId)
      requires Ok() && Enabled(variant, State(), LoadOrStore(t)) && threads[t] == Trying(key)
      modifies this
      ensures State() == Step(variant, old(State()), LoadOrStore(t)) && Ok()
      ensures leader == (key !in old(m)) && threads[t] == if leader then Loading(key, c) else Waiting(key, c)
    {
      StepKeepsValid(variant, State(), LoadOrStore(t));
      leader, c := JoinOrStart(t, key);
    }

    /** doCall: the loader is done and the waiters are released. */
    method Publish(ghost t: Thread, key: Key, c: CallId, reply: Reply)
      requires Ok() && variant.Delayed? && Enabled(variant, State(), Finish(t, reply))
      requires threads[t] == Loading(key, c)
      modifies this
      ensures State() == Step(variant, old(State()), Finish(t, reply)) && Ok()
    {
      StepKeepsValid(variant, State(), Finish(t, reply));
      replies := replies[c := Some(reply)];
      calls := calls[c := calls[c].(reply := Some(reply))];
      threads := threads[t := Scheduling(key, c)];
    }

    /** doCall: the removal timer is set, and the loader's thread returns. */
    method SetTimer(ghost t: Thread, key: Key, c: CallId) returns (reply: Reply)
      requires Ok() && Enabled(variant, State(), Schedule(t)) && threads[t] == Scheduling(key, c)
      modifies this
      ensures State() == Step(variant, old(State()), Schedule(t)) && Ok()
      ensures State().threads[t] == Returned(key, c, reply)
    {
      StepKeepsValid(variant, State(), Schedule(t));
      reply := replies[c].value;
      timers := timers + {c};
      threads := threads[t := Returned(key, c, reply)];
    }

    /** doCall: the timer removes whatever is under its key, which is the call c that set it. */
    method FireTimer(key: Key, ghost c: CallId)
      requires Ok() && Enabled(variant, State(), Fire(c)) && c < |calls| && calls[c].key == key
      modifies this
      ensures State() == Step(variant, old(State()), Fire(c)) && Ok()
      ensures key in old(m) && old(m)[key] == c
    {
      StepKeepsValid(variant, State(), Fire(c));
      timers := timers - {c};
      m := m - {key};
    }

    /** A waiter returns when the call is done. */
    method Await(ghost t: Thread, c: CallId) returns (reply: Reply)
      requires Ok() && Enabled(variant, State(), Wake(t)) && threads[t].call == c
      modifies this
      ensures State() == Step(variant, old(State()), Wake(t)) && Ok()
      ensures Some(reply) == calls[c].reply
    {
      StepKeepsValid(variant, State(), Wake(t));
      reply := replies[c].value;
      threads := threads[t := Returned(threads[t].key, c, reply)];
    }

    /** Or when its own context ends first; doCall's waiters have none. */
    method Abandon(ghost t: Thread) returns (reply: Reply)
      requires Ok() && variant.AtOnce? && Enabled(variant, State(), GiveUp(t))
      modifies this
      ensures State() == Step(variant, old(State()), GiveUp(t)) && Ok() && reply == Cancelled
    {
      StepKeepsValid(variant, State(), GiveUp(t));
      reply := Cancelled;
      threads := threads[t := Returned(threads[t].key, threads[t].call, Cancelled)];
    }
  }
}
