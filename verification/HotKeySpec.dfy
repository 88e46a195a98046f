/** The hot-key cache's local map and its insertion-order list, which keeps deleted keys and may repeat. */
module HotKeySpec {
  import opened Common

  /** Any comparable type of keys, and any type of values. */
  type K(==, !new)
  type V(==)

  datatype Local = Local(items: map<K, V>, order: seq<K>)

  const EMPTY: Local := Local(map[], [])

  /** order lists the keys of data once each; a Go map yields them in any order. */
  ghost predicate Lists(order: seq<K>, data: map<K, V>) {
    NoDup(order) && forall k :: k in order <==> k in data
  }

  function Clamp(v: int, low: int, high: int): int {
    if v < low then low else if v > high then high else v
  }

  /** How many keys a cleanup removes from an over-full cache of this size. */
  function Quota(size: nat): (n: nat)
    ensures size >= 1 ==> 1 <= n <= size
  {
    if size == 0 then 0 else Clamp(size / 5, 1, size)
  }

  /** Walk the order from its front until n live keys are gone; dead entries on the way are dropped. */
  function Evict(l: Local, n: nat): Local
    decreases l.order
  {
    if n == 0 || l.order == [] then l
    else
      Evict(Local(l.items - {l.order[0]}, l.order[1..]), if l.order[0] in l.items then n - 1 else n)
  }

  datatype Event =
    | Set(k: K, v: V)
    | Replace(data: map<K, V>, order: seq<K>)  // SetAll, Clear, and LoadAll's refill
    | Delete(k: K)
    | Cleanup(max: nat)

  ghost predicate Possible(e: Event) {
    e.Replace? ==> Lists(e.order, e.data)
  }

  function Step(l: Local, e: Event): Local {
    match e
    case Set(k, v) => Local(l.items[k := v], if k in l.items then l.order else l.order + [k])
    case Replace(data, order) => Local(data, order)
    case Delete(k) => l.(items := l.items - {k})
    case Cleanup(max) => if |l.items| > max then Evict(l, Quota(|l.items|)) else l
  }

  function After(events: seq<Event>): Local {
    if events == [] then EMPTY else Step(After(events[..|events| - 1]), events[|events| - 1])
  }

  // ---- Every reachable state ----

  /** Every live key is in the order. */
  ghost predicate Covered(l: Local) {
    forall k :: k in l.items ==> k in l.order
  }

  ghost predicate IsSuffix<T>(s: seq<T>, of: seq<T>) {
    |s| <= |of| && s == of[|of| - |s|..]
  }

  /** r is l with n live keys gone and nothing else changed, its order a suffix that still covers it. */
  ghost predicate Trimmed(l: Local, n: nat, r: Local) {
    && Covered(r)
    && IsSuffix(r.order, l.order)
    && |r.items| + n == |l.items|
    && forall k :: k in r.items ==> k in l.items && r.items[k] == l.items[k]
  }

  /** Dropping the head of the order, and its item if there is one, keeps the list covered. */
  lemma DropHead(l: Local)
    requires Covered(l) && l.order != []
    ensures Trimmed(l, if l.order[0] in l.items then 1 else 0, Local(l.items - {l.order[0]}, l.order[1..]))
  {
  }

  lemma TrimTwice(l: Local, a: nat, m: Local, b: nat, r: Local)
    requires Trimmed(l, a, m) && Trimmed(m, b, r)
    ensures Trimmed(l, a + b, r)
  {
  }

  lemma OrderNotEmpty(l: Local)
    requires Covered(l) && |l.items| > 0
    ensures l.order != []
  {
  }

  /** On a covered list the walk removes exactly n live keys: the order never runs out first. */
  lemma {:induction false} EvictExactly(l: Local, n: nat)
    requires Covered(l) && n <= |l.items|
    ensures Trimmed(l, n, Evict(l, n))
    decreases l.order
  {
    if n == 0 {
    } else {
      OrderNotEmpty(l);
      DropHead(l);
      var live := l.order[0] in l.items;
      var rest := Local(l.items - {l.order[0]}, l.order[1..]);
      EvictExactly(rest, if live then n - 1 else n);
      TrimTwice(l, if live then 1 else 0, rest, if live then n - 1 else n, Evict(l, n));
    }
  }

  lemma StepKeepsCovered(l: Local, e: Event)
    requires Covered(l) && Possible(e)
    ensures Covered(Step(l, e))
  {
    if e.Cleanup? && |l.items| > e.max {
      EvictExactly(l, Quota(|l.items|));
    }
  }

  lemma {:induction false} RunsStayCovered(events: seq<Event>)
    requires forall e :: e in events ==> Possible(e)
    ensures Covered(After(events))
  {
    if events == [] {
    } else {
      RunsStayCovered(events[..|events| - 1]);
      StepKeepsCovered(After(events[..|events| - 1]), events[|events| - 1]);
    }
  }

  /** In every reachable state a cleanup over the limit removes exactly a fifth of the live keys, rounded down, but
      at least one. */
  lemma CleanupMeetsQuota(events: seq<Event>, max: nat)
    requires forall e :: e in events ==> Possible(e)
    ensures var l, r := After(events), Step(After(events), Cleanup(max));
            var size, n := |l.items|, |l.items| - |r.items|;
            && n >= 0 && Trimmed(l, n, r)
            && if size <= max then n == 0 else n >= 1 && (n == 1 || 5 * n <= size) && size < 5 * (n + 1)
  {
    RunsStayCovered(events);
    var l := After(events);
    if |l.items| > max {
      EvictExactly(l, Quota(|l.items|));
      assert Trimmed(l, Quota(|l.items|), Step(l, Cleanup(max)));
    } else {
      assert Trimmed(l, 0, Step(l, Cleanup(max))) by {
        assert l.order[0..] == l.order;
      }
    }
  }

  // ---- Values ----

  /** What the writes say about k: the value of its last Set, or of the last map that replaced everything, unless a
      Delete or a map without it came later. */
  function LastValue(events: seq<Event>, k: K): Option<V> {
    if events == [] then None
    else
      match events[|events| - 1]
      case Set(k', v) => if k' == k then Some(v) else LastValue(events[..|events| - 1], k)
      case Replace(data, _) => if k in data then Some(data[k]) else None
      case Delete(k') => if k' == k then None else LastValue(events[..|events| - 1], k)
      case Cleanup(_) => LastValue(events[..|events| - 1], k)
  }

  /** The cleanup, if it is one, takes k. */
  ghost predicate Takes(l: Local, e: Event, k: K) {
    e.Cleanup? && k in l.items && k !in Step(l, e).items
  }

  ghost predicate NeverTaken(events: seq<Event>, k: K) {
    forall i :: 0 <= i < |events| ==> !Takes(After(events[..i]), events[i], k)
  }

  lemma {:induction false} EvictKeepsValues(l: Local, n: nat, k: K)
    ensures k in Evict(l, n).items ==> k in l.items && Evict(l, n).items[k] == l.items[k]
    decreases l.order
  {
    if n == 0 || l.order == [] {
    } else {
      EvictKeepsValues(Local(l.items - {l.order[0]}, l.order[1..]), if l.order[0] in l.items then n - 1 else n, k);
    }
  }

  /** What one event does to a key's item, here against what v was before. */
  lemma StepValue(l: Local, e: Event, k: K)
    ensures var r := Step(l, e);
            && (k in r.items ==>
                  if e.Set? && e.k == k then r.items[k] == e.v
                  else if e.Replace? then k in e.data && r.items[k] == e.data[k]
                  else !(e.Delete? && e.k == k) && k in l.items && r.items[k] == l.items[k])
            && ((e.Set? && e.k == k) || (e.Replace? && k in e.data) ==> k in r.items)
            && (k in l.items && !e.Replace? && !(e.Delete? && e.k == k) && !Takes(l, e, k) ==> k in r.items)
  {
    if e.Cleanup? {
      EvictKeepsValues(l, Quota(|l.items|), k);
    }
    hide Evict, Quota;
  }

  /** In every reachable state a live key has its last value; and it is live unless a cleanup has taken it. */
  lemma {:induction false} ItemsAreLastValues(events: seq<Event>, k: K)
    ensures var items := After(events).items;
            && (k in items ==> LastValue(events, k) == Some(items[k]))
            && (LastValue(events, k).Some? && NeverTaken(events, k) ==> k in items)
  {
    hide Step, Takes;
    if events == [] {
    } else {
      var before, e := events[..|events| - 1], events[|events| - 1];
      assert forall i :: 0 <= i < |before| ==> before[..i] == events[..i];
      ItemsAreLastValues(before, k);
      StepValue(After(before), e, k);
    }
  }

  function Cleanups(l: Local, max: nat, n: nat): Local
    decreases n
  {
    if n == 0 then l else Cleanups(Step(l, Cleanup(max)), max, n - 1)
  }

  /** Repeated cleanups bring the size down to the limit, and with a positive limit never empty the cache. */
  lemma {:induction false} CleanupsReachLimit(l: Local, max: nat, n: nat)
    requires Covered(l)
    ensures |l.items| <= max + n ==> |Cleanups(l, max, n).items| <= max
    ensures max >= 1 && |l.items| >= 1 ==> |Cleanups(l, max, n).items| >= 1
    decreases n
  {
    if n == 0 {
    } else {
      StepKeepsCovered(l, Cleanup(max));
      if |l.items| > max {
        EvictExactly(l, Quota(|l.items|));
      }
      CleanupsReachLimit(Step(l, Cleanup(max)), max, n - 1);
    }
  }

  // ---- Oldest first ----

  /** The number of the event that last inserted k where it was not: 0 if none did. */
  function InsertedAt(events: seq<Event>, k: K): (n: nat)
    ensures n <= |events|
  {
    if events == [] then 0
    else
      var before, e := events[..|events| - 1], events[|events| - 1];
      if Inserts(After(before), e, k) then |events|
      else InsertedAt(before, k)
  }

  predicate Inserts(l: Local, e: Event, k: K) {
    (e.Set? && e.k == k && k !in l.items) || (e.Replace? && k in e.data)
  }

  /** The order lists its keys once each, oldest first. */
  ghost predicate Ascending(order: seq<K>, events: seq<Event>) {
    NoDup(order) && forall i, j :: 0 <= i < j < |order| ==> InsertedAt(events, order[i]) <= InsertedAt(events, order[j])
  }

  /** A key that is not live is set while its old entry is still in the order. */
  predicate Resets(l: Local, e: Event) {
    e.Set? && e.k !in l.items && e.k in l.order
  }

  ghost predicate NeverResets(events: seq<Event>) {
    forall i :: 0 <= i < |events| ==> !Resets(After(events[..i]), events[i])
  }

  lemma OneMore(before: seq<Event>, e: Event)
    ensures After(before + [e]) == Step(After(before), e)
    ensures forall k ::
              InsertedAt(before + [e], k)
              == if Inserts(After(before), e, k) then |before| + 1 else InsertedAt(before, k)
  {
    assert (before + [e])[..|before|] == before;
  }

  /** An order stays ascending when its keys keep their numbers, here for a suffix of it. */
  lemma SuffixAscends(order: seq<K>, cut: nat, before: seq<Event>, events: seq<Event>)
    requires Ascending(order, before) && cut <= |order|
    requires forall k :: k in order ==> InsertedAt(events, k) == InsertedAt(before, k)
    ensures Ascending(order[cut..], events)
  {
    hide InsertedAt;
    var r := order[cut..];
    assert forall i :: 0 <= i < |r| ==> r[i] == order[cut + i];
  }

  /** The one step that spoils the order is setting a key that is not live and whose old entry is still there. */
  lemma StepKeepsAscending(before: seq<Event>, e: Event)
    requires Possible(e) && Covered(After(before)) && Ascending(After(before).order, before)
    ensures Ascending(After(before + [e]).order, before + [e]) <==> !Resets(After(before), e)
  {
    hide After, InsertedAt, Evict, Quota, Trimmed;
    OneMore(before, e);
    var l, r, events := After(before), After(before + [e]), before + [e];
    match e
    case Replace(_, _) => ReplacedAscends(r.order, events);
    case Cleanup(_) => CleanupSuffix(before, e, events);
    case Set(k, _) =>
      if k in l.items {
        SuffixAscends(l.order, 0, before, events);
        assert l.order[0..] == l.order;
      } else {
        SetAscends(l.order, k, before, events);
      }
    case Delete(_) =>
      SuffixAscends(l.order, 0, before, events);
      assert l.order[0..] == l.order;
  }

  lemma ReplacedAscends(order: seq<K>, events: seq<Event>)
    requires NoDup(order) && forall k :: k in order ==> InsertedAt(events, k) == |events|
    ensures Ascending(order, events)
  {
    hide InsertedAt;
    assert forall i :: 0 <= i < |order| ==> order[i] in order;
  }

  lemma CleanupSuffix(before: seq<Event>, e: Event, events: seq<Event>)
    requires e.Cleanup? && Covered(After(before)) && Ascending(After(before).order, before)
    requires forall k :: InsertedAt(events, k) == InsertedAt(before, k)
    ensures Ascending(Step(After(before), e).order, events)
  {
    hide After, InsertedAt, Evict, Ascending;
    var l := After(before);
    if |l.items| > e.max {
      EvictExactly(l, Quota(|l.items|));
    } else {
      assert l.order[0..] == l.order;
    }
    SuffixAscends(l.order, |l.order| - |Step(l, e).order|, before, events);
  }

  lemma SetAscends(order: seq<K>, k: K, before: seq<Event>, events: seq<Event>)
    requires Ascending(order, before) && |events| == |before| + 1 && InsertedAt(events, k) == |events|
    requires forall x :: x != k ==> InsertedAt(events, x) == InsertedAt(before, x)
    ensures Ascending(order + [k], events) <==> k !in order
  {
    hide InsertedAt;
    var r := order + [k];
    if k in order {
      var i :| 0 <= i < |order| && order[i] == k;
      assert r[i] == r[|order|];
    } else {
      assert forall i :: 0 <= i < |order| ==> r[i] == order[i] && order[i] in order;
    }
  }

  /** In a run that never sets a key over its old entry, deletions included, the order is oldest first. */
  lemma {:induction false} RunsAscend(events: seq<Event>)
    requires NeverResets(events) && forall e :: e in events ==> Possible(e)
    ensures Ascending(After(events).order, events)
  {
    hide After, InsertedAt, Resets, Covered, Ascending;
    if events == [] {
      NothingAscends(events);
    } else {
      var before, e := events[..|events| - 1], events[|events| - 1];
      assert forall i :: 0 <= i < |before| ==> before[..i] == events[..i];
      assert e in events && events == before + [e];
      RunsAscend(before);
      RunsStayCovered(before);
      StepKeepsAscending(before, e);
    }
  }

  lemma NothingAscends(events: seq<Event>)
    ensures Ascending(After([]).order, events)
  {
  }

  /** What a walk removes lies in the part of the order it has passed. */
  lemma {:induction false} EvictTakesPassed(l: Local, n: nat, k: K)
    requires k in l.items && k !in Evict(l, n).items
    ensures IsSuffix(Evict(l, n).order, l.order) && k in l.order[..|l.order| - |Evict(l, n).order|]
    decreases l.order
  {
    var head, rest := l.order[0], Local(l.items - {l.order[0]}, l.order[1..]);
    var n' := if head in l.items then n - 1 else n;
    EvictSuffix(rest, n');
    var cut := |l.order| - |Evict(l, n).order|;
    assert l.order[cut..] == rest.order[cut - 1..];
    if k != head {
      EvictTakesPassed(rest, n', k);
      assert l.order[..cut] == [head] + rest.order[..cut - 1];
    } else {
      assert l.order[..cut][0] == head;
    }
  }

  lemma {:induction false} EvictSuffix(l: Local, n: nat)
    ensures IsSuffix(Evict(l, n).order, l.order)
    decreases l.order
  {
    if n == 0 || l.order == [] {
      assert l.order[0..] == l.order;
    } else {
      EvictSuffix(Local(l.items - {l.order[0]}, l.order[1..]), if l.order[0] in l.items then n - 1 else n);
    }
  }

  /** In such a run a cleanup takes the oldest keys, whatever stale entries it walks over: no key that goes was
      inserted after one that stays. */
  lemma VictimsAreOldest(events: seq<Event>, max: nat, gone: K, kept: K)
    requires NeverResets(events) && forall e :: e in events ==> Possible(e)
    requires var l, r := After(events), Step(After(events), Cleanup(max));
             gone in l.items && gone !in r.items && kept in r.items
    ensures InsertedAt(events, gone) <= InsertedAt(events, kept)
  {
    var l, n := After(events), Quota(|After(events).items|);
    RunsAscend(events);
    RunsStayCovered(events);
    EvictExactly(l, n);
    EvictTakesPassed(l, n, gone);
    hide After, InsertedAt, Evict, Quota;
    var cut := |l.order| - |Evict(l, n).order|;
    assert kept in Evict(l, n).order && Evict(l, n).order == l.order[cut..];
    var i :| 0 <= i < cut && l.order[i] == gone;
    var j :| cut <= j < |l.order| && l.order[j] == kept;
  }

  /** Without deletions the order is exactly the live keys. */
  lemma {:induction false} DeleteFreeRunsList(events: seq<Event>)
    requires forall e :: e in events ==> Possible(e) && !e.Delete?
    ensures Lists(After(events).order, After(events).items)
  {
    hide NoDup;
    if events == [] {
      EmptyLists();
    } else {
      var l, e := After(events[..|events| - 1]), events[|events| - 1];
      assert e in events;
      DeleteFreeRunsList(events[..|events| - 1]);
      if e.Cleanup? && |l.items| > e.max {
        EvictKeepsLists(l, Quota(|l.items|));
      } else if e.Set? && e.k !in l.items {
        AppendLists(l, e.k, e.v);
      }
    }
  }

  /** So such runs never set a key over its old entry. */
  lemma DeleteFreeRunsAscend(events: seq<Event>)
    requires forall e :: e in events ==> Possible(e) && !e.Delete?
    ensures NeverResets(events) && Ascending(After(events).order, events)
  {
    hide After;
    forall i | 0 <= i < |events| ensures !Resets(After(events[..i]), events[i]) {
      DeleteFreeRunsList(events[..i]);
    }
    RunsAscend(events);
  }

  lemma EmptyLists()
    ensures Lists(EMPTY.order, EMPTY.items)
  {
  }

  lemma AppendLists(l: Local, k: K, v: V)
    requires Lists(l.order, l.items) && k !in l.items
    ensures Lists(l.order + [k], l.items[k := v])
  {
  }

  lemma ListsTail(l: Local)
    requires Lists(l.order, l.items) && l.order != []
    ensures Lists(l.order[1..], l.items - {l.order[0]})
  {
  }

  lemma {:induction false} EvictKeepsLists(l: Local, n: nat)
    requires Lists(l.order, l.items)
    ensures Lists(Evict(l, n).order, Evict(l, n).items)
    decreases l.order
  {
    hide NoDup;
    if n == 0 || l.order == [] {
    } else {
      ListsTail(l);
      EvictKeepsLists(Local(l.items - {l.order[0]}, l.order[1..]), if l.order[0] in l.items then n - 1 else n);
    }
  }

  /** A key set over its old entry is evicted as if it were old, here before the only other key although it is
      the newest. */
  lemma ResetKeyIsEvictedFirst(a: K, b: K, v: V)
    requires a != b
    ensures var events := [Set(a, v), Set(b, v), Delete(a), Set(a, v)];
            && After(events) == Local(map[a := v, b := v], [a, b, a])
            && Step(After(events), Cleanup(1)) == Local(map[b := v], [b, a])
            && InsertedAt(events, a) > InsertedAt(events, b)
  {
    var events := [Set(a, v), Set(b, v), Delete(a), Set(a, v)];
    hide After, InsertedAt, Evict, Quota;
    OneMore([], Set(a, v));
    OneMore([Set(a, v)], Set(b, v));
    OneMore([Set(a, v), Set(b, v)], Delete(a));
    OneMore([Set(a, v), Set(b, v), Delete(a)], Set(a, v));
    assert [] + [Set(a, v)] == [Set(a, v)] && [Set(a, v)] + [Set(b, v)] == [Set(a, v), Set(b, v)];
    assert [Set(a, v), Set(b, v)] + [Delete(a)] == [Set(a, v), Set(b, v), Delete(a)];
    assert [Set(a, v), Set(b, v), Delete(a)] + [Set(a, v)] == events;
    NothingYet();
    var l := After(events);
    assert l == Local(map[a := v, b := v], [a, b, a]);
    SizeTwo(l.items, a, b, v);
    EvictHead(l);
  }

  lemma SizeTwo(items: map<K, V>, a: K, b: K, v: V)
    requires a != b && items == map[a := v, b := v]
    ensures |items| == 2 && Quota(|items|) == 1 && items - {a} == map[b := v]
  {
    assert items.Keys == {a, b};
  }

  lemma NothingYet()
    ensures After([]) == EMPTY && forall k :: InsertedAt([], k) == 0
  {
  }

  lemma EvictHead(l: Local)
    requires l.order != [] && l.order[0] in l.items
    ensures Evict(l, 1) == Local(l.items - {l.order[0]}, l.order[1..])
  {
  }
}
