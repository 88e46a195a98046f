/** The durable channel before Close: a Redis list, what workers hold, and a bounded buffer in memory. A pop whose
    reply is lost takes a message away; a push whose reply is lost is a push all the same. */
module DurablePipe {
  import opened Common

  // ---- A PersistSync producer and a consumer with one worker ----

  /** Where the consumer is: reading the backlog it found (of which it has taken i), or in its worker loop. */
  datatype Phase = Starting | Recovering(i: nat, length: nat) | Working

  /** A message popped from the list, and whether it arrived. */
  datatype Pop<T> = Pop(x: T, arrived: bool)

  /** sent is everything appended to the list, popped everything taken from it, both in order; received everything
      taken from the channel. */
  datatype Pipe<T> = Pipe(sent: seq<T>, popped: seq<Pop<T>>, received: seq<T>, buffer: seq<T>, hand: Option<T>,
                          list: seq<T>, phase: Phase)

  /** popped tells of a failed recovery pop whether it was executed; a failed one of the worker that was not
      executed changes nothing. */
  datatype Event<T> =
    | Send(x: T)
    | RecoverSkip
    | RecoverBegin
    | RecoverPull
    | RecoverFail(popped: bool)
    | RecoverPush
    | RecoverEnd
    | Pull
    | PullLost
    | Push
    | Receive

  /** A consumer starts on whatever the list holds. */
  function StartOn<T>(backlog: seq<T>): Pipe<T> {
    Pipe(backlog, [], [], [], None, backlog, Starting)
  }

  predicate Enabled<T>(p: Pipe<T>, capacity: nat, e: Event<T>) {
    match e
    case Send(_) => true
    case RecoverSkip => p.phase.Starting?
    case RecoverBegin => p.phase.Starting?
    case RecoverPull => p.phase.Recovering? && p.hand.None? && p.phase.i < p.phase.length && p.phase.i < capacity
    case RecoverFail(popped) =>
      && p.phase.Recovering? && p.hand.None? && p.phase.i < p.phase.length && p.phase.i < capacity
      && (popped ==> p.list != [])
    case RecoverPush => p.phase.Recovering? && p.hand.Some?
    case RecoverEnd => p.phase.Recovering? && p.hand.None? && (p.phase.i >= p.phase.length || p.phase.i >= capacity)
    case Pull => p.phase.Working? && p.hand.None? && p.list != []
    case PullLost => p.phase.Working? && p.hand.None? && p.list != []
    case Push => p.phase.Working? && p.hand.Some? && |p.buffer| < capacity
    case Receive => p.buffer != []
  }

  /** The recovery's put-back: the buffer has no room for the message in hand. */
  predicate PutsBack<T>(p: Pipe<T>, capacity: nat, e: Event<T>) {
    e.RecoverPush? && |p.buffer| >= capacity
  }

  /** The event pops a message that does not arrive. */
  predicate Loses<T>(e: Event<T>) {
    e.PullLost? || (e.RecoverFail? && e.popped)
  }

  function Popped<T>(p: Pipe<T>, arrived: bool): Pipe<T>
    requires p.list != []
  {
    p.(popped := p.popped + [Pop(p.list[0], arrived)], list := p.list[1..],
       hand := if arrived then Some(p.list[0]) else p.hand)
  }

  function Step<T>(p: Pipe<T>, capacity: nat, e: Event<T>): Pipe<T>
    requires Enabled(p, capacity, e)
  {
    match e
    case Send(x) => p.(sent := p.sent + [x], list := p.list + [x])
    case RecoverSkip => p.(phase := Working)
    case RecoverBegin => p.(phase := if |p.list| > 0 then Recovering(0, |p.list|) else Working)
    case RecoverPull => if p.list == [] then p.(phase := Working) else Popped(p, true)
    case RecoverFail(popped) => (if popped then Popped(p, false) else p).(phase := Working)
    case RecoverPush =>
      if PutsBack(p, capacity, e) then p.(list := p.list + [p.hand.value], hand := None, phase := Working)
      else p.(buffer := p.buffer + [p.hand.value], hand := None, phase := p.phase.(i := p.phase.i + 1))
    case RecoverEnd => p.(phase := Working)
    case Pull => Popped(p, true)
    case PullLost => Popped(p, false)
    case Push => p.(buffer := p.buffer + [p.hand.value], hand := None)
    case Receive => p.(received := p.received + [p.buffer[0]], buffer := p.buffer[1..])
  }

  function InHand<T>(h: Option<T>): seq<T> {
    if h.Some? then [h.value] else []
  }

  function Values<T>(pops: seq<Pop<T>>): (r: seq<T>)
    ensures |r| == |pops| && forall i :: 0 <= i < |pops| ==> r[i] == pops[i].x
  {
    seq(|pops|, i requires 0 <= i < |pops| => pops[i].x)
  }

  function Arrived<T>(pops: seq<Pop<T>>): (r: seq<T>)
    ensures |r| <= |pops| && (|r| == |pops| <==> forall i :: 0 <= i < |pops| ==> pops[i].arrived)
    ensures |r| == |pops| ==> r == Values(pops)
  {
    if pops == [] then []
    else Arrived(pops[..|pops| - 1]) + (if pops[|pops| - 1].arrived then [pops[|pops| - 1].x] else [])
  }

  lemma OneMorePop<T>(pops: seq<Pop<T>>, x: T, arrived: bool)
    ensures Values(pops + [Pop(x, arrived)]) == Values(pops) + [x]
    ensures Arrived(pops + [Pop(x, arrived)]) == Arrived(pops) + (if arrived then [x] else [])
  {
    assert (pops + [Pop(x, arrived)])[..|pops|] == pops;
  }

  /** One FIFO pipe: everything sent was popped or is still listed, and what arrived of the popped is received,
      buffered or held, all in this order and exactly once. */
  ghost predicate InOrder<T>(p: Pipe<T>, capacity: nat) {
    && p.sent == Values(p.popped) + p.list
    && Arrived(p.popped) == p.received + p.buffer + InHand(p.hand)
    && |p.buffer| <= capacity
    && (p.phase.Starting? ==> p.buffer == [] && p.hand.None?)
    && (p.phase.Recovering? ==> |p.buffer| <= p.phase.i && (p.hand.Some? ==> p.phase.i < capacity))
  }

  predicate Pops<T>(p: Pipe<T>, e: Event<T>) {
    (e.RecoverPull? && p.list != []) || e.Pull? || Loses(e)
  }

  lemma PopKeepsOrder<T>(p: Pipe<T>, capacity: nat, e: Event<T>)
    requires InOrder(p, capacity) && Enabled(p, capacity, e) && Pops(p, e)
    ensures InOrder(Step(p, capacity, e), capacity)
    ensures |Arrived(Step(p, capacity, e).popped)| == |Step(p, capacity, e).popped|
            <==> |Arrived(p.popped)| == |p.popped| && !Loses(e)
  {
    hide Values, Arrived;
    var arrived := !Loses(e);
    OneMorePop(p.popped, p.list[0], arrived);
    assert p.list == [p.list[0]] + p.list[1..];
    assert Values(p.popped) + p.list == Values(p.popped) + [p.list[0]] + p.list[1..];
    assert p.hand.None?;
    assert p.received + p.buffer + InHand<T>(None) + [p.list[0]] == p.received + p.buffer + [p.list[0]];
  }

  lemma MoveKeepsOrder<T>(p: Pipe<T>, capacity: nat, e: Event<T>)
    requires InOrder(p, capacity) && Enabled(p, capacity, e) && !Pops(p, e)
    ensures InOrder(Step(p, capacity, e), capacity) && Step(p, capacity, e).popped == p.popped
  {
    hide Values, Arrived;
    if e.Receive? {
      assert p.buffer == [p.buffer[0]] + p.buffer[1..];
    }
  }

  lemma StepKeepsOrder<T>(p: Pipe<T>, capacity: nat, e: Event<T>)
    requires InOrder(p, capacity) && Enabled(p, capacity, e)
    ensures InOrder(Step(p, capacity, e), capacity) && !PutsBack(p, capacity, e)
    ensures |Arrived(Step(p, capacity, e).popped)| == |Step(p, capacity, e).popped|
            <==> |Arrived(p.popped)| == |p.popped| && !Loses(e)
  {
    hide Values, Arrived, Step;
    if Pops(p, e) {
      PopKeepsOrder(p, capacity, e);
    } else {
      MoveKeepsOrder(p, capacity, e);
    }
  }

  ghost predicate Run<T>(ps: seq<Pipe<T>>, capacity: nat, events: seq<Event<T>>) {
    && |ps| == |events| + 1
    && forall n :: 0 <= n < |events| ==>
         Enabled(ps[n], capacity, events[n]) && ps[n + 1] == Step(ps[n], capacity, events[n])
  }

  /** At every step of every run, including the recovery of any backlog, the pipe is in order; and the recovery
      never has to put a message back, which would have cost it its place. */
  lemma {:induction false} RunsStayInOrder<T>(ps: seq<Pipe<T>>, capacity: nat, events: seq<Event<T>>, backlog: seq<T>,
                                              n: nat)
    requires capacity >= 1 && Run(ps, capacity, events) && ps[0] == StartOn(backlog) && n < |ps|
    ensures InOrder(ps[n], capacity)
    ensures |Arrived(ps[n].popped)| == |ps[n].popped| <==> forall m :: 0 <= m < n ==> !Loses(events[m])
    ensures n < |events| ==> !PutsBack(ps[n], capacity, events[n])
  {
    hide Values, Arrived, Step, Enabled, Loses, InOrder, PutsBack;
    if n == 0 {
      StartsInOrder(backlog, capacity);
    } else {
      RunsStayInOrder(ps, capacity, events, backlog, n - 1);
      StepKeepsOrder(ps[n - 1], capacity, events[n - 1]);
    }
    if n < |events| {
      StepKeepsOrder(ps[n], capacity, events[n]);
    }
  }

  lemma StartsInOrder<T>(backlog: seq<T>, capacity: nat)
    ensures InOrder(StartOn(backlog), capacity) && Arrived(StartOn(backlog).popped) == []
  {
  }

  /** The pipe is exact, sent == received + buffer + hand + list, exactly as long as every pop that Redis executed
      was heard. */
  lemma ExactFifo<T>(ps: seq<Pipe<T>>, capacity: nat, events: seq<Event<T>>, backlog: seq<T>, n: nat)
    requires capacity >= 1 && Run(ps, capacity, events) && ps[0] == StartOn(backlog) && n < |ps|
    ensures ps[n].sent == ps[n].received + ps[n].buffer + InHand(ps[n].hand) + ps[n].list
            <==> forall m :: 0 <= m < n ==> !Loses(events[m])
  {
    RunsStayInOrder(ps, capacity, events, backlog, n);
    var p := ps[n];
    assert |p.received + p.buffer + InHand(p.hand)| == |Arrived(p.popped)|;
  }

  /** What a consumer has received is always a prefix of what arrived, and of what was sent if nothing was lost;
      once nothing is on the way it is all of that. */
  lemma ReceivedIsPrefix<T>(ps: seq<Pipe<T>>, capacity: nat, events: seq<Event<T>>, backlog: seq<T>, n: nat)
    requires capacity >= 1 && Run(ps, capacity, events) && ps[0] == StartOn(backlog) && n < |ps|
    ensures ps[n].received <= Arrived(ps[n].popped)
    ensures (forall m :: 0 <= m < n ==> !Loses(events[m])) ==> ps[n].received <= ps[n].sent
    ensures ps[n].buffer == [] && ps[n].hand.None? && ps[n].list == [] ==>
              ps[n].received == Arrived(ps[n].popped) && ps[n].sent == Values(ps[n].popped)
  {
    RunsStayInOrder(ps, capacity, events, backlog, n);
    ExactFifo(ps, capacity, events, backlog, n);
  }

  // ---- PersistHybrid and PersistAsync: sender, recovery and workers in one process ----

  /** accepted counts every message a Send accepted and the backlog, doubled those that were also put in the other
      place, stray those that were listed although the caller heard an error, lost those popped in vain; between
      names the messages whose Send is between its two writes. The recovery is one of the hands. */
  datatype Shared<T> = Shared(accepted: multiset<T>, doubled: multiset<T>, stray: multiset<T>, lost: multiset<T>,
                              between: multiset<T>, received: seq<T>, buffer: seq<T>, hands: seq<Option<T>>,
                              list: seq<T>)

  datatype Act<T> =
    | Persist(x: T)                 // Hybrid, first write: to the list
    | PersistUnheard(x: T)          // the same, executed although the caller hears an error
    | Offer(x: T)                   // Hybrid, second write: to the buffer, skipped when it is full
    | Enqueue(x: T)                 // Async, first write: to the buffer, waiting for room
    | PersistLater(x: T, ok: bool)  // Async, second write: to the list, which may fail
    | HandPull(w: nat)
    | HandPullLost(w: nat)
    | HandPush(w: nat)
    | HandPutBack(w: nat)           // the recovery's, to the end of the list
    | Take

  predicate CanAct<T(==)>(s: Shared<T>, capacity: nat, a: Act<T>) {
    match a
    case Persist(_) => true
    case PersistUnheard(_) => true
    case Offer(x) => x in s.between
    case Enqueue(_) => |s.buffer| < capacity
    case PersistLater(x, _) => x in s.between
    case HandPull(w) => w < |s.hands| && s.hands[w].None? && s.list != []
    case HandPullLost(w) => w < |s.hands| && s.hands[w].None? && s.list != []
    case HandPush(w) => w < |s.hands| && s.hands[w].Some? && |s.buffer| < capacity
    case HandPutBack(w) => w < |s.hands| && s.hands[w].Some?
    case Take => s.buffer != []
  }

  function Perform<T(==)>(s: Shared<T>, capacity: nat, a: Act<T>): Shared<T>
    requires CanAct(s, capacity, a)
  {
    match a
    case Persist(x) =>
      s.(accepted := s.accepted + multiset{x}, between := s.between + multiset{x}, list := s.list + [x])
    case PersistUnheard(x) => s.(stray := s.stray + multiset{x}, list := s.list + [x])
    case Offer(x) =>
      var done := s.(between := s.between - multiset{x});
      if |s.buffer| < capacity then done.(buffer := s.buffer + [x], doubled := s.doubled + multiset{x}) else done
    case Enqueue(x) =>
      s.(accepted := s.accepted + multiset{x}, between := s.between + multiset{x}, buffer := s.buffer + [x])
    case PersistLater(x, ok) =>
      var done := s.(between := s.between - multiset{x});
      if ok then done.(list := s.list + [x], doubled := s.doubled + multiset{x}) else done
    case HandPull(w) => s.(hands := s.hands[w := Some(s.list[0])], list := s.list[1..])
    case HandPullLost(_) => s.(lost := s.lost + multiset{s.list[0]}, list := s.list[1..])
    case HandPush(w) => s.(buffer := s.buffer + [s.hands[w].value], hands := s.hands[w := None])
    case HandPutBack(w) => s.(list := s.list + [s.hands[w].value], hands := s.hands[w := None])
    case Take => s.(received := s.received + [s.buffer[0]], buffer := s.buffer[1..])
  }

  /** What the hands hold of x. */
  function Held<T(==)>(hands: seq<Option<T>>, x: T): nat {
    if hands == [] then 0 else Held(hands[1..], x) + (if hands[0] == Some(x) then 1 else 0)
  }

  lemma {:induction false} HeldUpdate<T>(hands: seq<Option<T>>, w: nat, h: Option<T>, x: T)
    requires w < |hands|
    ensures Held(hands[w := h], x) + (if hands[w] == Some(x) then 1 else 0)
            == Held(hands, x) + (if h == Some(x) then 1 else 0)
  {
    if w == 0 {
      assert hands[w := h][1..] == hands[1..];
    } else {
      HeldUpdate(hands[1..], w - 1, h, x);
      assert hands[w := h][1..] == hands[1..][w - 1 := h];
    }
  }

  /** How often x was received, is buffered, held or listed. */
  function InPipe<T(==)>(s: Shared<T>, x: T): nat {
    multiset(s.received)[x] + multiset(s.buffer)[x] + Held(s.hands, x) + multiset(s.list)[x]
  }

  /** Conservation: counting what was lost, the pipe holds each accepted message once, and once more if its Send
      also wrote it to the other place; and each stray one. */
  ghost predicate Balanced<T>(s: Shared<T>, x: T) {
    && InPipe(s, x) + s.lost[x] == s.accepted[x] + s.doubled[x] + s.stray[x]
    && s.doubled[x] + s.between[x] <= s.accepted[x]
  }

  predicate FirstWrite<T(==)>(a: Act<T>) {
    a.Persist? || a.PersistUnheard? || a.Enqueue?
  }

  /** A Send's first write: one message accepted or stray, one more in the pipe. */
  lemma FirstWriteKeepsBalance<T>(s: Shared<T>, capacity: nat, a: Act<T>, x: T)
    requires Balanced(s, x) && CanAct(s, capacity, a) && FirstWrite(a)
    ensures Balanced(Perform(s, capacity, a), x)
  {
    FirstWriteFills(s, capacity, a, x);
    FirstWriteCounts(s, capacity, a, x);
    hide InPipe, Perform, CanAct;
  }

  lemma FirstWriteFills<T>(s: Shared<T>, capacity: nat, a: Act<T>, x: T)
    requires CanAct(s, capacity, a) && FirstWrite(a)
    ensures InPipe(Perform(s, capacity, a), x) == InPipe(s, x) + if a.x == x then 1 else 0
  {
    hide Held;
    TailCount(if a.Enqueue? then s.buffer else s.list, a.x, x);
  }

  lemma FirstWriteCounts<T>(s: Shared<T>, capacity: nat, a: Act<T>, x: T)
    requires CanAct(s, capacity, a) && FirstWrite(a)
    ensures var r, one := Perform(s, capacity, a), if a.x == x then 1 else 0;
            && r.doubled == s.doubled && r.lost == s.lost
            && r.accepted[x] == s.accepted[x] + (if a.PersistUnheard? then 0 else one)
            && r.between[x] == s.between[x] + (if a.PersistUnheard? then 0 else one)
            && r.stray[x] == s.stray[x] + (if a.PersistUnheard? then one else 0)
  {
  }

  lemma OfferKeepsBalance<T>(s: Shared<T>, capacity: nat, y: T, x: T)
    requires Balanced(s, x) && CanAct(s, capacity, Offer(y))
    ensures Balanced(Perform(s, capacity, Offer(y)), x)
  {
    OfferFills(s, capacity, y, x);
    OfferCounts(s, capacity, y, x);
    hide InPipe, Perform, CanAct;
  }

  lemma OfferFills<T>(s: Shared<T>, capacity: nat, y: T, x: T)
    requires CanAct(s, capacity, Offer(y))
    ensures InPipe(Perform(s, capacity, Offer(y)), x)
            == InPipe(s, x) + if y == x && |s.buffer| < capacity then 1 else 0
  {
    hide Held;
    TailCount(s.buffer, y, x);
  }

  lemma OfferCounts<T>(s: Shared<T>, capacity: nat, y: T, x: T)
    requires CanAct(s, capacity, Offer(y))
    ensures var r, one := Perform(s, capacity, Offer(y)), if y == x then 1 else 0;
            && r.accepted == s.accepted && r.stray == s.stray && r.lost == s.lost
            && r.between[x] == s.between[x] - one
            && r.doubled[x] == s.doubled[x] + if |s.buffer| < capacity then one else 0
  {
  }

  lemma LaterKeepsBalance<T>(s: Shared<T>, capacity: nat, y: T, ok: bool, x: T)
    requires Balanced(s, x) && CanAct(s, capacity, PersistLater(y, ok))
    ensures Balanced(Perform(s, capacity, PersistLater(y, ok)), x)
  {
    LaterFills(s, capacity, y, ok, x);
    LaterCounts(s, capacity, y, ok, x);
    hide InPipe, Perform, CanAct;
  }

  lemma LaterFills<T>(s: Shared<T>, capacity: nat, y: T, ok: bool, x: T)
    requires CanAct(s, capacity, PersistLater(y, ok))
    ensures InPipe(Perform(s, capacity, PersistLater(y, ok)), x) == InPipe(s, x) + if y == x && ok then 1 else 0
  {
    hide Held;
    TailCount(s.list, y, x);
  }

  lemma LaterCounts<T>(s: Shared<T>, capacity: nat, y: T, ok: bool, x: T)
    requires CanAct(s, capacity, PersistLater(y, ok))
    ensures var r, one := Perform(s, capacity, PersistLater(y, ok)), if y == x then 1 else 0;
            && r.accepted == s.accepted && r.stray == s.stray && r.lost == s.lost
            && r.between[x] == s.between[x] - one
            && r.doubled[x] == s.doubled[x] + if ok then one else 0
  {
  }

  /** Workers, recovery and receivers only move messages along, or lose them. */
  lemma MovesKeepCount<T>(s: Shared<T>, capacity: nat, a: Act<T>, x: T)
    requires CanAct(s, capacity, a)
    requires a.HandPull? || a.HandPullLost? || a.HandPush? || a.HandPutBack? || a.Take?
    ensures var r := Perform(s, capacity, a);
            && InPipe(r, x) + r.lost[x] == InPipe(s, x) + s.lost[x]
            && r.accepted == s.accepted && r.doubled == s.doubled && r.stray == s.stray && r.between == s.between
  {
    hide Held;
    match a {
      case HandPull(w) =>
        HeldUpdate(s.hands, w, Some(s.list[0]), x);
        HeadCount(s.list, x);
      case HandPullLost(_) => HeadCount(s.list, x);
      case HandPush(w) =>
        HeldUpdate(s.hands, w, None, x);
        TailCount(s.buffer, s.hands[w].value, x);
      case HandPutBack(w) =>
        HeldUpdate(s.hands, w, None, x);
        TailCount(s.list, s.hands[w].value, x);
      case Take =>
        HeadCount(s.buffer, x);
        TailCount(s.received, s.buffer[0], x);
    }
  }

  lemma PerformKeepsBalance<T>(s: Shared<T>, capacity: nat, a: Act<T>, x: T)
    requires Balanced(s, x) && CanAct(s, capacity, a)
    ensures Balanced(Perform(s, capacity, a), x)
  {
    hide InPipe, Perform, CanAct;
    match a {
      case Persist(_) => FirstWriteKeepsBalance(s, capacity, a, x);
      case PersistUnheard(_) => FirstWriteKeepsBalance(s, capacity, a, x);
      case Enqueue(_) => FirstWriteKeepsBalance(s, capacity, a, x);
      case Offer(y) => OfferKeepsBalance(s, capacity, y, x);
      case PersistLater(y, ok) => LaterKeepsBalance(s, capacity, y, ok, x);
      case _ => MovesKeepCount(s, capacity, a, x);
    }
  }

  lemma TailCount<T>(q: seq<T>, y: T, x: T)
    ensures multiset(q + [y])[x] == multiset(q)[x] + if y == x then 1 else 0
  {
  }

  lemma HeadCount<T>(q: seq<T>, x: T)
    requires q != []
    ensures multiset(q)[x] == multiset(q[1..])[x] + if q[0] == x then 1 else 0
  {
    assert q == [q[0]] + q[1..];
  }

  /** A process starts on whatever the list holds. */
  function Begin<T(==)>(backlog: seq<T>, hands: nat): Shared<T> {
    Shared(multiset(backlog), multiset{}, multiset{}, multiset{}, multiset{}, [], [], seq(hands, _ => None), backlog)
  }

  function All<T(==)>(s: Shared<T>, capacity: nat, acts: seq<Act<T>>): (r: Option<Shared<T>>) {
    if acts == [] then Some(s)
    else
      var before := All(s, capacity, acts[..|acts| - 1]);
      if before.Some? && CanAct(before.value, capacity, acts[|acts| - 1])
      then Some(Perform(before.value, capacity, acts[|acts| - 1])) else None
  }

  lemma {:induction false} EmptyHandsHoldNothing<T>(hands: nat, x: T)
    ensures Held(seq(hands, _ => None), x) == 0
  {
    if hands == 0 {
    } else {
      EmptyHandsHoldNothing(hands - 1, x);
      assert seq<Option<T>>(hands, _ => None)[1..] == seq<Option<T>>(hands - 1, _ => None);
    }
  }

  lemma {:induction false} RunsStayBalanced<T>(backlog: seq<T>, hands: nat, capacity: nat, acts: seq<Act<T>>, x: T)
    ensures var s := All(Begin(backlog, hands), capacity, acts);
            s.Some? ==> Balanced(s.value, x)
  {
    if acts == [] {
      EmptyHandsHoldNothing(hands, x);
    } else {
      var before := All(Begin(backlog, hands), capacity, acts[..|acts| - 1]);
      RunsStayBalanced(backlog, hands, capacity, acts[..|acts| - 1], x);
      if before.Some? && CanAct(before.value, capacity, acts[|acts| - 1]) {
        PerformKeepsBalance(before.value, capacity, acts[|acts| - 1], x);
      }
    }
  }

  /** Once everything has been taken, each accepted message, backlog included, has been received once, and twice
      if both its writes went through, but for what executed pops nobody heard of took away; and each message
      listed by an unheard write as well. */
  lemma ReceivedOnceOrTwice<T>(backlog: seq<T>, hands: nat, capacity: nat, acts: seq<Act<T>>, x: T)
    requires var s := All(Begin(backlog, hands), capacity, acts);
             s.Some? && s.value.buffer == [] && s.value.list == [] && Held(s.value.hands, x) == 0
    ensures var s := All(Begin(backlog, hands), capacity, acts).value;
            && multiset(s.received)[x] + s.lost[x] == s.accepted[x] + s.doubled[x] + s.stray[x]
            && (s.lost[x] == 0 && s.stray[x] == 0 ==> s.accepted[x] <= multiset(s.received)[x] <= 2 * s.accepted[x])
  {
    RunsStayBalanced(backlog, hands, capacity, acts, x);
  }
}
