/** The distributed lock: any number of handles, a store with deadlines, and requests whose reply, or whose
    execution, may be lost. */
module LockSpec {
  import opened Common

  type LockKey = string
  type Token = nat

  datatype Entry = Entry(token: Token, deadline: int)

  /** The store and its own clock; used is every token ever generated. */
  datatype Server = Server(now: int, store: map<LockKey, Entry>, used: set<Token>)

  /** A handle's local state. lease is the server time up to which its last successful acquire or extend
      reserved the key; the program does not keep it, the properties speak of it. */
  datatype Handle = Handle(key: LockKey, ttl: int, acquired: bool, token: Option<Token>, lease: int)

  /** The store's key holds this handle's token. */
  predicate Owns(s: Server, h: Handle) {
    h.key in s.store && h.token == Some(s.store[h.key].token)
  }

  function Reset(h: Handle): Handle {
    h.(acquired := false, token := None)
  }

  /** First half of TryLock, for a handle that believes it holds the lock: compare with the store. */
  function CheckHeld(s: Server, h: Handle, fate: Fate): Handle {
    if fate.Answered? && Owns(s, h) then h else Reset(h)
  }

  /** Second half of TryLock: SET NX with a fresh token. */
  function SetNx(s: Server, h: Handle, token: Token, fate: Fate): (Server, Handle) {
    var wins := !fate.Dropped? && h.key !in s.store;
    (s.(store := if wins then s.store[h.key := Entry(token, s.now + h.ttl)] else s.store, used := s.used + {token}),
     if wins && fate.Answered? then h.(acquired := true, token := Some(token), lease := s.now + h.ttl)
     else h.(token := Some(token)))
  }

  function Unlock(s: Server, h: Handle, fate: Fate): (Server, Handle) {
    if !h.acquired then (s, h)
    else (s.(store := if !fate.Dropped? && Owns(s, h) then s.store - {h.key} else s.store), Reset(h))
  }

  /** PEXPIRE with a non-positive time deletes the key. */
  function Extend(s: Server, h: Handle, ttl: int, fate: Fate): (Server, Handle) {
    if !h.acquired || h.token.None? then (s, h)
    else
      var owned := Owns(s, h);
      (s.(store := if fate.Dropped? || !owned then s.store
                   else if ttl <= 0 then s.store - {h.key}
                   else s.store[h.key := s.store[h.key].(deadline := s.now + ttl)]),
       if fate.Answered? && owned then h.(lease := s.now + ttl) else Reset(h))
  }

  function IsLocked(s: Server, h: Handle, fate: Fate): Handle {
    if h.acquired && fate.Answered? && !Owns(s, h) then Reset(h) else h
  }

  // ---- All handles together ----

  type HandleId = nat

  datatype World = World(server: Server, handles: map<HandleId, Handle>)

  datatype Event =
    | Tick(elapsed: nat)
    | Expire(k: LockKey)
    | DoCheckHeld(id: HandleId, fate: Fate)
    | DoSetNx(id: HandleId, token: Token, fate: Fate)
    | DoUnlock(id: HandleId, fate: Fate)
    | DoExtend(id: HandleId, ttl: int, fate: Fate)
    | DoIsLocked(id: HandleId, fate: Fate)

  /** A key may vanish any time from its deadline on; tokens are never reused; an acquiring handle has a
      positive ttl. */
  predicate Enabled(w: World, e: Event) {
    match e
    case Tick(_) => true
    case Expire(k) => k in w.server.store && w.server.now >= w.server.store[k].deadline
    case DoCheckHeld(id, _) => id in w.handles && w.handles[id].acquired
    case DoSetNx(id, token, _) => id in w.handles && !w.handles[id].acquired && token !in w.server.used
        && w.handles[id].ttl > 0
    case DoUnlock(id, _) => id in w.handles
    case DoExtend(id, _, _) => id in w.handles
    case DoIsLocked(id, _) => id in w.handles
  }

  function Step(w: World, e: Event): World
    requires Enabled(w, e)
  {
    var s := w.server;
    match e
    case Tick(elapsed) => w.(server := s.(now := s.now + elapsed))
    case Expire(k) => w.(server := s.(store := s.store - {k}))
    case DoCheckHeld(id, fate) => w.(handles := w.handles[id := CheckHeld(s, w.handles[id], fate)])
    case DoSetNx(id, token, fate) =>
      var (s', h') := SetNx(s, w.handles[id], token, fate);
      World(s', w.handles[id := h'])
    case DoUnlock(id, fate) =>
      var (s', h') := Unlock(s, w.handles[id], fate);
      World(s', w.handles[id := h'])
    case DoExtend(id, ttl, fate) =>
      var (s', h') := Extend(s, w.handles[id], ttl, fate);
      World(s', w.handles[id := h'])
    case DoIsLocked(id, fate) => w.(handles := w.handles[id := IsLocked(s, w.handles[id], fate)])
  }

  /** Whether the event is a TryLock that returns true. */
  predicate LocksFor(w: World, e: Event, id: HandleId)
    requires Enabled(w, e)
  {
    match e
    case DoCheckHeld(i, fate) => i == id && fate.Answered? && Owns(w.server, w.handles[i])
    case DoSetNx(i, _, fate) => i == id && fate.Answered? && w.handles[i].key !in w.server.store
    case _ => false
  }

  /** The handle holds the lock, and the time its last acquire or extend reserved is not over. */
  predicate InLease(w: World, id: HandleId) {
    id in w.handles && w.handles[id].acquired && w.server.now < w.handles[id].lease
  }

  ghost predicate Valid(w: World) {
    && (forall i :: i in w.handles && w.handles[i].token.Some? ==> w.handles[i].token.value in w.server.used)
    && (forall k :: k in w.server.store ==> w.server.store[k].token in w.server.used)
    && (forall i, j :: i in w.handles && j in w.handles && i != j && w.handles[i].token.Some? ==>
        w.handles[i].token != w.handles[j].token)
    && (forall i :: i in w.handles && w.handles[i].acquired ==> w.handles[i].token.Some?)
    && (forall i :: InLease(w, i) ==>
          Owns(w.server, w.handles[i]) && w.server.store[w.handles[i].key].deadline == w.handles[i].lease)
  }

  lemma StepKeepsValid(w: World, e: Event)
    requires Valid(w) && Enabled(w, e)
    ensures Valid(Step(w, e))
  {
    match e {
      case DoSetNx(id, token, fate) => SetNxKeepsValid(w, id, token, fate);
      case DoExtend(id, ttl, fate) => ExtendKeepsValid(w, id, ttl, fate);
      case DoUnlock(id, fate) => UnlockKeepsValid(w, id, fate);
      case Tick(_) => ClockKeepsValid(w, e);
      case Expire(_) => ClockKeepsValid(w, e);
      case DoCheckHeld(id, fate) =>
      case DoIsLocked(id, fate) =>
    }
  }

  lemma ClockKeepsValid(w: World, e: Event)
    requires Valid(w) && Enabled(w, e) && (e.Tick? || e.Expire?)
    ensures Valid(Step(w, e))
  {
  }

  lemma UnlockKeepsValid(w: World, id: HandleId, fate: Fate)
    requires Valid(w) && id in w.handles
    ensures Valid(Step(w, DoUnlock(id, fate)))
  {
  }

  lemma SetNxKeepsValid(w: World, id: HandleId, token: Token, fate: Fate)
    requires Valid(w) && Enabled(w, DoSetNx(id, token, fate))
    ensures Valid(Step(w, DoSetNx(id, token, fate)))
  {
  }

  lemma ExtendKeepsValid(w: World, id: HandleId, ttl: int, fate: Fate)
    requires Valid(w) && id in w.handles
    ensures Valid(Step(w, DoExtend(id, ttl, fate)))
  {
  }

  // ---- One request ----

  /** Unlock and Extend change the store only for the owner, and only when executed; everyone else's leave it.
      The owner's Unlock frees the key, its Extend moves the deadline and keeps the token. */
  lemma OnlyTheOwnerChanges(s: Server, h: Handle, ttl: int, fate: Fate)
    ensures Unlock(s, h, fate).0.store != s.store <==> h.acquired && Owns(s, h) && !fate.Dropped?
    ensures !(h.acquired && Owns(s, h)) ==> Extend(s, h, ttl, fate).0 == s
    ensures h.acquired && Owns(s, h) && !fate.Dropped? ==>
              var after := Extend(s, h, ttl, fate).0.store;
              && h.key !in Unlock(s, h, fate).0.store
              && (h.key in after <==> ttl > 0)
              && (ttl > 0 ==> after[h.key].deadline == s.now + ttl && Some(after[h.key].token) == h.token)
    ensures forall k :: k != h.key ==>
              && (k in Unlock(s, h, fate).0.store <==> k in s.store)
              && (k in Extend(s, h, ttl, fate).0.store <==> k in s.store)
              && (k in s.store ==> Unlock(s, h, fate).0.store[k] == s.store[k])
              && (k in s.store ==> Extend(s, h, ttl, fate).0.store[k] == s.store[k])
  {
  }

  /** What a handle believes after its request, answered or not: that it holds the lock exactly if it did, the
      request was answered and, of Unlock, never. */
  lemma WhatTheHandleBelieves(s: Server, h: Handle, ttl: int, fate: Fate)
    ensures !Unlock(s, h, fate).1.acquired
    ensures h.acquired ==>
              && (Extend(s, h, ttl, fate).1.acquired <==> h.token.None? || (fate.Answered? && Owns(s, h)))
              && (IsLocked(s, h, fate).acquired <==> !fate.Answered? || Owns(s, h))
    ensures !h.acquired ==> Extend(s, h, ttl, fate).1 == h && IsLocked(s, h, fate) == h
  {
  }

  /** Half of a TryLock returns true exactly when it leaves the handle believing that it holds the lock; and then
      the store says so too. */
  lemma LockingMeansOwning(w: World, e: Event, id: HandleId)
    requires Enabled(w, e) && (e.DoCheckHeld? || e.DoSetNx?) && e.id == id
    ensures var w' := Step(w, e);
            && (LocksFor(w, e, id) <==> w'.handles[id].acquired)
            && (LocksFor(w, e, id) ==> Owns(w'.server, w'.handles[id]))
            && (e.DoCheckHeld? ==> w'.server == w.server)
  {
  }

  // ---- Every reachable world ----

  /** No two handles hold the same key in lease. */
  lemma OneLeasePerKey(w: World, i: HandleId, j: HandleId)
    requires Valid(w) && InLease(w, i) && InLease(w, j) && w.handles[i].key == w.handles[j].key
    ensures i == j
  {
  }

  /** A TryLock returns true for a handle only when no other handle is in lease on that key. */
  lemma LockExcludes(w: World, e: Event, id: HandleId, other: HandleId)
    requires Valid(w) && Enabled(w, e) && LocksFor(w, e, id)
    requires other != id && other in w.handles && id in w.handles && w.handles[other].key == w.handles[id].key
    ensures !InLease(w, other)
  {
  }

  /** A lease starts with a successful acquire or extend, and runs for the time it was given. */
  lemma LeaseStarts(w: World, e: Event, id: HandleId)
    requires Valid(w) && Enabled(w, e)
    requires (e.DoSetNx? && LocksFor(w, e, id))
             || (&& e.DoExtend? && e.id == id && e.fate.Answered?
                 && w.handles[id].acquired && Owns(w.server, w.handles[id]))
    ensures Step(w, e).handles[id].lease == w.server.now + if e.DoSetNx? then w.handles[id].ttl else e.ttl
    ensures Step(w, e).handles[id].acquired
  {
  }

  /** The requests of a handle that can end its own lease; nothing else does, but the time running out. */
  predicate LetsGo(e: Event, id: HandleId) {
    (e.DoUnlock? && e.id == id) || (e.DoExtend? && e.id == id) || (e.DoCheckHeld? && e.id == id && !e.fate.Answered?)
  }

  lemma LeaseLasts(w: World, e: Event, id: HandleId)
    requires Valid(w) && Enabled(w, e) && InLease(w, id) && !LetsGo(e, id)
    ensures Step(w, e).handles[id] == w.handles[id]
    ensures Step(w, e).server.now < w.handles[id].lease ==> InLease(Step(w, e), id)
  {
  }

  // ---- Runs ----

  /** Nobody holds anything yet; the store may hold other programs' keys. */
  ghost predicate Start(w: World) {
    && (forall i :: i in w.handles ==> !w.handles[i].acquired && w.handles[i].token.None?)
    && (forall k :: k in w.server.store ==> w.server.store[k].token in w.server.used)
  }

  /** A run: the worlds passed through, and the events between them. */
  ghost predicate Run(ws: seq<World>, events: seq<Event>) {
    && |ws| == |events| + 1 && Start(ws[0])
    && forall n :: 0 <= n < |events| ==> Enabled(ws[n], events[n]) && ws[n + 1] == Step(ws[n], events[n])
  }

  lemma RunSnoc(ws: seq<World>, events: seq<Event>, e: Event)
    requires Run(ws, events) && Enabled(ws[|events|], e)
    ensures Run(ws + [Step(ws[|events|], e)], events + [e])
  {
  }

  lemma RunPrefix(ws: seq<World>, events: seq<Event>, n: nat)
    requires Run(ws, events) && n <= |events|
    ensures Run(ws[..n + 1], events[..n])
  {
  }

  lemma {:induction false} TimePasses(ws: seq<World>, events: seq<Event>, n: nat, m: nat)
    requires Run(ws, events) && n <= m <= |events|
    ensures ws[n].server.now <= ws[m].server.now
    decreases m
  {
    if n == m {
    } else {
      TimePasses(ws, events, n, m - 1);
      assert ws[m] == Step(ws[m - 1], events[m - 1]);
    }
  }

  lemma {:induction false} RunsStayValid(ws: seq<World>, events: seq<Event>, n: nat)
    requires Run(ws, events) && n < |ws|
    ensures Valid(ws[n])
    ensures ws[n].handles.Keys == ws[0].handles.Keys
    ensures forall i :: i in ws[0].handles ==> ws[n].handles[i].key == ws[0].handles[i].key
  {
    hide Valid;
    if n == 0 {
      StartIsValid(ws[0]);
    } else {
      RunsStayValid(ws, events, n - 1);
      StepKeepsValid(ws[n - 1], events[n - 1]);
    }
  }

  lemma StartIsValid(w: World)
    requires Start(w)
    ensures Valid(w)
  {
  }

  /** From a handle's successful acquire or extend until the time it was given runs out or the handle itself
      lets go, it stays in lease. */
  lemma {:induction false} LeaseSpans(ws: seq<World>, events: seq<Event>, n: nat, m: nat, id: HandleId)
    requires Run(ws, events) && n <= m <= |events| && InLease(ws[n], id)
    requires forall p :: n <= p < m ==> !LetsGo(events[p], id)
    requires ws[m].server.now < ws[n].handles[id].lease
    ensures InLease(ws[m], id) && ws[m].handles[id] == ws[n].handles[id]
    decreases m - n
  {
    hide Valid, LetsGo;
    if n == m {
    } else {
      assert ws[m] == Step(ws[m - 1], events[m - 1]);
      assert ws[m - 1].server.now <= ws[m].server.now;
      LeaseSpans(ws, events, n, m - 1, id);
      RunsStayValid(ws, events, m - 1);
      LeaseLasts(ws[m - 1], events[m - 1], id);
    }
  }

  /** The store keeps the key for this token, which no other handle has, at least until then. */
  ghost predicate Reserved(w: World, id: HandleId, k: LockKey, token: Token, until: int) {
    && k in w.server.store && w.server.store[k].token == token && w.server.store[k].deadline >= until
    && token in w.server.used
    && forall i :: i in w.handles && i != id ==> w.handles[i].token != Some(token)
  }

  /** The handle sends an Unlock or Extend under this token, and Redis executes it. */
  predicate Executes(w: World, e: Event, id: HandleId, k: LockKey, token: Token) {
    && (e.DoUnlock? || e.DoExtend?) && e.id == id && !e.fate.Dropped? && id in w.handles
    && w.handles[id].acquired && w.handles[id].key == k && w.handles[id].token == Some(token)
  }

  /** The handle's own executed request gives time back: an Unlock, or an Extend to an earlier end. The caller
      may have heard of it or not. */
  predicate GivesBack(w: World, e: Event, id: HandleId, k: LockKey, token: Token, until: int) {
    Executes(w, e, id, k, token) && (e.DoUnlock? || w.server.now + e.ttl < until)
  }

  /** Before its end, a reservation is lost at exactly the steps that give it back. */
  lemma ReservationHolds(w: World, e: Event, id: HandleId, k: LockKey, token: Token, until: int)
    requires Enabled(w, e) && Reserved(w, id, k, token, until) && Step(w, e).server.now < until
    ensures Reserved(Step(w, e), id, k, token, until) <==> !GivesBack(w, e, id, k, token, until)
  {
  }

  lemma {:induction false} ReservationSpans(ws: seq<World>, events: seq<Event>, n: nat, m: nat, id: HandleId,
                                            k: LockKey, token: Token, until: int)
    requires Run(ws, events) && n <= m <= |events| && Reserved(ws[n], id, k, token, until) && ws[m].server.now < until
    requires forall p :: n <= p < m ==> !GivesBack(ws[p], events[p], id, k, token, until)
    ensures Reserved(ws[m], id, k, token, until)
    decreases m - n
  {
    hide Reserved, GivesBack;
    if n == m {
    } else {
      assert ws[m] == Step(ws[m - 1], events[m - 1]);
      TimePasses(ws, events, m - 1, m);
      ReservationSpans(ws, events, n, m - 1, id, k, token, until);
      ReservationHolds(ws[m - 1], events[m - 1], id, k, token, until);
    }
  }

  lemma InLeaseReserves(w: World, id: HandleId)
    requires Valid(w) && InLease(w, id)
    ensures w.handles[id].token.Some?
    ensures Reserved(w, id, w.handles[id].key, w.handles[id].token.value, w.handles[id].lease)
  {
  }

  /** Lock safety: from a handle's successful acquire or extend until the time it was given, unless the handle
      itself gives time back, no TryLock of another handle on the key returns true. This holds even when the
      handle has meanwhile heard only errors and counts itself no holder. */
  lemma LockSafety(ws: seq<World>, events: seq<Event>, n: nat, m: nat, id: HandleId, other: HandleId)
    requires Run(ws, events) && n <= m < |events| && InLease(ws[n], id) && ws[n].handles[id].token.Some?
    requires var h := ws[n].handles[id];
             && ws[m].server.now < h.lease
             && forall p :: n <= p < m ==> !GivesBack(ws[p], events[p], id, h.key, h.token.value, h.lease)
    requires other != id && other in ws[m].handles && ws[m].handles[other].key == ws[n].handles[id].key
    ensures !LocksFor(ws[m], events[m], other)
  {
    RunsStayValid(ws, events, n);
    InLeaseReserves(ws[n], id);
    var h := ws[n].handles[id];
    ReservationSpans(ws, events, n, m, id, h.key, h.token.value, h.lease);
  }

  // ---- The exception is exact ----

  lemma {:induction false} FreshToken(used: set<Token>) returns (t: Token)
    ensures forall u :: u in used ==> u < t
  {
    if used == {} {
      t := 0;
    } else {
      var last :| last in used;
      t := FreshToken(used - {last});
      assert forall u :: u in used ==> u == last || u in used - {last};
      t := if t <= last then last + 1 else t;
    }
  }

  /** On a free key any handle can lock at once, dropping first what it believes to hold. */
  lemma FreeKeyCanBeLocked(ws: seq<World>, events: seq<Event>, k: LockKey, other: HandleId)
    returns (ws': seq<World>, events': seq<Event>)
    requires Run(ws, events)
    requires var w := ws[|events|];
             k !in w.server.store && other in w.handles && w.handles[other].key == k && w.handles[other].ttl > 0
    ensures Run(ws', events') && ws <= ws' && events < events'
    ensures var q := |events'| - 1;
            LocksFor(ws'[q], events'[q], other) && ws'[q].server.now == ws[|events|].server.now
  {
    ws', events' := ws, events;
    var w := ws[|events|];
    if w.handles[other].acquired {
      RunSnoc(ws', events', DoCheckHeld(other, Answered));
      w := Step(w, DoCheckHeld(other, Answered));
      ws', events' := ws' + [w], events' + [DoCheckHeld(other, Answered)];
    }
    var token := FreshToken(w.server.used);
    assert token !in w.server.used;
    RunSnoc(ws', events', DoSetNx(other, token, Answered));
    ws', events' := ws' + [Step(w, DoSetNx(other, token, Answered))], events' + [DoSetNx(other, token, Answered)];
  }

  /** Every step that gives back could be followed by another handle's successful TryLock before the end of the
      reservation: the run up to it can go on that way. */
  lemma GivingBackLetsOthersIn(ws: seq<World>, events: seq<Event>, p: nat, id: HandleId, k: LockKey, token: Token,
                               until: int, other: HandleId)
    returns (ws': seq<World>, events': seq<Event>)
    requires Run(ws, events) && p < |events|
    requires Reserved(ws[p], id, k, token, until) && ws[p].server.now < until
    requires GivesBack(ws[p], events[p], id, k, token, until)
    requires other != id && other in ws[p].handles && ws[p].handles[other].key == k && ws[p].handles[other].ttl > 0
    ensures Run(ws', events') && ws[..p + 2] <= ws' && events[..p + 1] < events'
    ensures var q := |events'| - 1; LocksFor(ws'[q], events'[q], other) && ws'[q].server.now < until
  {
    hide Run;
    RunPrefix(ws, events, p + 1);
    RunAt(ws, events, p);
    ws', events' := ws[..p + 2], events[..p + 1];
    var w := ws[p + 1];
    if k in w.server.store {
      var tick := Tick(events[p].ttl);
      RunSnoc(ws', events', tick);
      var w2 := Step(w, tick);
      ws', events' := ws' + [w2], events' + [tick];
      RunSnoc(ws', events', Expire(k));
      ws', events' := ws' + [Step(w2, Expire(k))], events' + [Expire(k)];
    }
    ws', events' := FreeKeyCanBeLocked(ws', events', k, other);
  }

  lemma RunAt(ws: seq<World>, events: seq<Event>, n: nat)
    requires Run(ws, events) && n < |events|
    ensures |ws| == |events| + 1 && Enabled(ws[n], events[n]) && ws[n + 1] == Step(ws[n], events[n])
  {
  }

  /** The exception is needed for Extend too: an Extend to an earlier end that was executed, but whose reply
      was lost, lets another handle lock before the last successful acquire's time is over. */
  lemma UnheardExtendGivesBack(k: LockKey) returns (ws: seq<World>, events: seq<Event>)
    ensures Run(ws, events) && |events| == 5
    ensures InLease(ws[1], 0) && ws[4].server.now < ws[1].handles[0].lease
    ensures LocksFor(ws[4], events[4], 1) && ws[4].handles[1].key == ws[1].handles[0].key == k
    ensures forall e :: e in events ==> !e.DoUnlock?
  {
    var h := Handle(k, 100, false, None, 0);
    var w0 := World(Server(0, map[], {}), map[0 := h, 1 := h]);
    events := [DoSetNx(0, 7, Answered), DoExtend(0, 1, Unheard), Tick(1), Expire(k), DoSetNx(1, 8, Answered)];
    var w1 := Step(w0, events[0]);
    var w2 := Step(w1, events[1]);
    var w3 := Step(w2, events[2]);
    var w4 := Step(w3, events[3]);
    ws := [w0, w1, w2, w3, w4, Step(w4, events[4])];
  }

  // ---- Critical sections ----

  /** What the handle may count on after an event, if it could count on until before it: an answered Extend says
      how far from now, an unheard one may have shortened the time, an executed Unlock ends it. */
  function Promise(w: World, e: Event, id: HandleId, k: LockKey, token: Token, until: int): int {
    if !Executes(w, e, id, k, token) then until
    else if e.DoUnlock? then w.server.now
    else if e.fate.Answered? || w.server.now + e.ttl < until then w.server.now + e.ttl
    else until
  }

  /** What it may count on at point p, having acquired in the event before point first. */
  ghost function CountsOn(ws: seq<World>, events: seq<Event>, id: HandleId, first: nat, p: nat): int
    requires |ws| == |events| + 1 && first <= p <= |events|
    requires id in ws[first].handles && ws[first].handles[id].token.Some?
    decreases p
  {
    var h := ws[first].handles[id];
    if p == first then h.lease
    else Promise(ws[p - 1], events[p - 1], id, h.key, h.token.value, CountsOn(ws, events, id, first, p - 1))
  }

  /** A critical section: a TryLock that returns true, the event number from, opens it, and up to point to the
      handle's time has not run out. */
  ghost predicate Section(ws: seq<World>, events: seq<Event>, id: HandleId, from: nat, to: nat)
    requires Run(ws, events)
  {
    && from < to <= |events| && LocksFor(ws[from], events[from], id)
    && id in ws[from + 1].handles && ws[from + 1].handles[id].token.Some?
    && forall p :: from < p <= to ==> ws[p].server.now < CountsOn(ws, events, id, from + 1, p)
  }

  lemma PromiseHolds(w: World, e: Event, id: HandleId, k: LockKey, token: Token, until: int)
    requires Enabled(w, e) && Reserved(w, id, k, token, until) && w.server.now < until
    requires Step(w, e).server.now < Promise(w, e, id, k, token, until)
    ensures Reserved(Step(w, e), id, k, token, Promise(w, e, id, k, token, until))
  {
    if !Executes(w, e, id, k, token) {
      ReservationHolds(w, e, id, k, token, until);
    }
  }

  lemma {:induction false} SectionReserves(ws: seq<World>, events: seq<Event>, id: HandleId, from: nat, to: nat, p: nat)
    requires Run(ws, events) && Section(ws, events, id, from, to) && from < p <= to
    ensures var h := ws[from + 1].handles[id];
            Reserved(ws[p], id, h.key, h.token.value, CountsOn(ws, events, id, from + 1, p))
    decreases p
  {
    hide Reserved, Promise, Executes, Run, Section, Valid;
    SectionAt(ws, events, id, from, to, p);
    var h := ws[from + 1].handles[id];
    if p == from + 1 {
      RunsStayValid(ws, events, p);
      InLeaseReserves(ws[p], id);
    } else {
      SectionReserves(ws, events, id, from, to, p - 1);
      SectionAt(ws, events, id, from, to, p - 1);
      RunAt(ws, events, p - 1);
      PromiseHolds(ws[p - 1], events[p - 1], id, h.key, h.token.value, CountsOn(ws, events, id, from + 1, p - 1));
    }
  }

  lemma SectionAt(ws: seq<World>, events: seq<Event>, id: HandleId, from: nat, to: nat, p: nat)
    requires Run(ws, events) && Section(ws, events, id, from, to) && from < p <= to
    ensures |ws| == |events| + 1 && to <= |events| && id in ws[from + 1].handles && ws[from + 1].handles[id].token.Some?
    ensures ws[p].server.now < CountsOn(ws, events, id, from + 1, p)
    ensures InLease(ws[from + 1], id)
  {
    assert ws[from + 1] == Step(ws[from], events[from]);
    assert ws[from + 1].server.now < CountsOn(ws, events, id, from + 1, from + 1);
  }

  /** While a section lasts, its handle extending and hearing only some of the replies, no TryLock of another
      handle on the key returns true. */
  lemma SectionExcludes(ws: seq<World>, events: seq<Event>, id: HandleId, from: nat, to: nat, p: nat, other: HandleId)
    requires Run(ws, events) && Section(ws, events, id, from, to) && from < p <= to && p < |events|
    requires other != id && other in ws[0].handles && id in ws[0].handles
    requires ws[0].handles[other].key == ws[0].handles[id].key
    ensures !LocksFor(ws[p], events[p], other)
  {
    SectionReserves(ws, events, id, from, to, p);
    RunsStayValid(ws, events, p);
    RunsStayValid(ws, events, from + 1);
  }

  /** Sections of distinct handles on one key never overlap. */
  lemma SectionsNeverOverlap(ws: seq<World>, events: seq<Event>, i: HandleId, from: nat, to: nat,
                             j: HandleId, from': nat, to': nat)
    requires Run(ws, events) && Section(ws, events, i, from, to) && Section(ws, events, j, from', to')
    requires i != j && i in ws[0].handles && j in ws[0].handles && ws[0].handles[i].key == ws[0].handles[j].key
    ensures to < from' || to' < from
  {
    hide Section, Run, LocksFor;
    OpensOnce(ws, events, i, from, to);
    OpensOnce(ws, events, j, from', to');
    if from < from' <= to {
      SectionExcludes(ws, events, i, from, to, from', j);
    } else if from' < from <= to' {
      SectionExcludes(ws, events, j, from', to', from, i);
    }
  }

  lemma OpensOnce(ws: seq<World>, events: seq<Event>, id: HandleId, from: nat, to: nat)
    requires Run(ws, events) && Section(ws, events, id, from, to)
    ensures |ws| == |events| + 1 && from < to <= |events| && Enabled(ws[from], events[from])
    ensures LocksFor(ws[from], events[from], id)
    ensures (events[from].DoSetNx? || events[from].DoCheckHeld?) && events[from].id == id
  {
  }

  lemma {:induction false} CountsOnAtLeast(ws: seq<World>, events: seq<Event>, id: HandleId, first: nat, p: nat)
    requires Run(ws, events) && first <= p <= |events|
    requires id in ws[first].handles && ws[first].handles[id].token.Some?
    requires var h := ws[first].handles[id];
             forall n :: first <= n < p ==> !GivesBack(ws[n], events[n], id, h.key, h.token.value, h.lease)
    ensures CountsOn(ws, events, id, first, p) >= ws[first].handles[id].lease
    decreases p
  {
    if p == first {
    } else {
      CountsOnAtLeast(ws, events, id, first, p - 1);
    }
  }

  /** A lock taken for its ttl, and not given back, opens a section of that length. */
  lemma AcquireOpensSection(ws: seq<World>, events: seq<Event>, id: HandleId, from: nat, to: nat)
    requires Run(ws, events) && from < to <= |events| && events[from].DoSetNx? && LocksFor(ws[from], events[from], id)
    requires ws[to].server.now < ws[from].server.now + ws[from].handles[id].ttl
    requires var h := ws[from + 1].handles[id];
             && h.token.Some?
             && forall n :: from < n < to ==> !GivesBack(ws[n], events[n], id, h.key, h.token.value, h.lease)
    ensures Section(ws, events, id, from, to)
  {
    RunsStayValid(ws, events, from);
    LeaseStarts(ws[from], events[from], id);
    forall p | from < p <= to ensures ws[p].server.now < CountsOn(ws, events, id, from + 1, p) {
      CountsOnAtLeast(ws, events, id, from + 1, p);
      TimePasses(ws, events, p, to);
    }
  }
}
