/** Whole runs of the strict LRU: what its reads answer, in terms of the writes that were made. */
module LruRuns {
  import opened Common
  import opened LruSpec

  /** The last Set of k that no later Del undid. */
  function LastSet(ops: seq<Op>, k: Bytes): (w: Option<Op>)
    ensures w.Some? ==> w.value.Set? && w.value.k == k
  {
    if ops == [] then None
    else
      var op := ops[|ops| - 1];
      if op.Set? && op.k == k then Some(op) else if op.Del? && op.k == k then None else LastSet(ops[..|ops| - 1], k)
  }

  /** Whether a value written with this ttl is still to be served. A negative one, -1, is for ever. */
  predicate Live(w: Op, now: int)
    requires w.Set?
  {
    w.ttl < 0 || (w.ttl > 0 && now <= w.now + w.ttl)
  }

  /** What a value is served as: nil for a slice of more than 100 MiB. */
  function Served(v: Bytes): Option<Bytes> {
    if |v| <= 104_857_600 then Some(v) else None
  }

  /** The operations read the clock in order, none later than t. */
  ghost predicate Timed(ops: seq<Op>, t: int) {
    ops != [] ==>
      var op := ops[|ops| - 1];
      if op.Del? then Timed(ops[..|ops| - 1], t) else op.now <= t && Timed(ops[..|ops| - 1], op.now)
  }

  /** The item is what this write is to store. */
  ghost predicate Holds(item: Item, w: Op)
    requires w.Set?
  {
    && item.value == Served(w.v)
    && if w.ttl < 0 then item.expiry.None?
       else if w.ttl > 0 then item.expiry == Some(w.now + w.ttl)
       else item.expiry.Some? && item.expiry.value < w.now
  }

  /** What an operation does to one key's item: a Set stores its own, a Del removes it, and whatever else happens an
      item that stays is the same. */
  lemma StepItem(l: Lru, capacity: int, op: Op, k: Bytes)
    requires capacity >= 1 && l.Ok(capacity) && k in Step(l, capacity, op).items
    ensures var item := Step(l, capacity, op).items[k];
            if op.Set? && op.k == k then Holds(item, op)
            else k in l.items && item == l.items[k] && !(op.Del? && op.k == k)
  {
  }

  /** Everything stored is what the key's last Set is to store. */
  lemma {:induction false} ItemsAreLastSets(capacity: int, ops: seq<Op>, k: Bytes, t: int)
    requires capacity >= 1 && Timed(ops, t) && k in Run(EMPTY, capacity, ops).items
    ensures var w := LastSet(ops, k);
            w.Some? && w.value.now <= t && Holds(Run(EMPTY, capacity, ops).items[k], w.value)
    decreases |ops|
  {
    hide Step, Holds;
    if ops == [] {
    } else {
      var before, op := ops[..|ops| - 1], ops[|ops| - 1];
      SortedByLastUse(capacity, before);
      StepItem(Run(EMPTY, capacity, before), capacity, op, k);
      if !(op.Set? && op.k == k) {
        ItemsAreLastSets(capacity, before, k, if op.Del? then t else op.now);
      }
    }
  }

  /** An answer that a read of k at this time may give: a hit is the value of the key's last Set, which is live. */
  ghost predicate IsLastSet(ops: seq<Op>, answer: Answer<Option<Bytes>>, k: Bytes, now: int) {
    var w := LastSet(ops, k);
    answer.Hit? ==> w.Some? && Live(w.value, now) && answer.value == Served(w.value.v)
  }

  /** No read lies. A batch read turns nil into an empty slice. */
  lemma NeverLies(capacity: int, ops: seq<Op>, k: Bytes, now: int)
    requires capacity >= 1 && Timed(ops, now)
    ensures var l, w := Run(EMPTY, capacity, ops), LastSet(ops, k);
            && IsLastSet(ops, Reply(l, Get(k, now)), k, now)
            && (Reply(l, BatchItem(k, now)).Hit? ==>
                  && w.Some? && Live(w.value, now)
                  && Reply(l, BatchItem(k, now)) == Hit(Some(if |w.value.v| <= 104_857_600 then w.value.v else [])))
            && (TimeLeft(l, k, now).Hit? ==>
                  && w.Some? && Live(w.value, now)
                  && TimeLeft(l, k, now).value == if w.value.ttl < 0 then 0 else w.value.now + w.value.ttl - now)
  {
    if k in Run(EMPTY, capacity, ops).items {
      ItemsAreLastSets(capacity, ops, k, now);
    }
    hide Run, LastSet;
  }

  // ---- It forgets by eviction only ----

  /** The operation is a Set of a new key in a full cache whose least recent key is k. */
  ghost predicate Evicts(l: Lru, capacity: int, op: Op, k: Bytes) {
    op.Set? && op.k !in l.items && |l.order| == capacity > 0 && l.order[capacity - 1] == k
  }

  /** A key goes exactly by a Del, by an operation that reads it when its time is over, or by eviction. */
  lemma StepKeepsKey(l: Lru, capacity: int, op: Op, k: Bytes)
    requires capacity >= 1 && l.Ok(capacity) && k in l.items
    ensures k in Step(l, capacity, op).items
            <==> && !(op.Del? && op.k == k) && !Evicts(l, capacity, op, k)
                 && ((op.Get? || op.GetTTL? || (op.BatchItem? && k != [])) && op.k == k ==> Found(l, k, op.now))
  {
    if op.Set? {
      SetKeepsKey(l, capacity, op, k);
    }
  }

  lemma SetKeepsKey(l: Lru, capacity: int, op: Op, k: Bytes)
    requires capacity >= 1 && l.Ok(capacity) && k in l.items && op.Set?
    ensures k in Step(l, capacity, op).items <==> !Evicts(l, capacity, op, k)
  {
    var item := Item(CopyBytes(op.v), ExpiryFor(op.ttl, op.now));
    PushedCases(l, capacity, op.k, item);
    hide Pushed, Without;
    if op.k !in l.items {
      assert ([op.k] + l.order)[|l.order|] == l.order[|l.order| - 1];
    }
  }

  /** And a Set's own key is there afterwards, first in the list. */
  lemma SetLeads(l: Lru, capacity: int, op: Op)
    requires capacity >= 1 && l.Ok(capacity) && op.Set?
    ensures var after := Step(l, capacity, op); op.k in after.items && after.order != [] && after.order[0] == op.k
  {
    WithoutSize(l.order, op.k);
  }

  /** What is evicted was used less recently than everything else. */
  lemma EvictsLeastRecent(capacity: int, ops: seq<Op>, op: Op, k: Bytes, other: Bytes)
    requires capacity >= 1
    requires var l := Run(EMPTY, capacity, ops); Evicts(l, capacity, op, k) && other in l.items && other != k
    ensures LastUse(capacity, ops, k) < LastUse(capacity, ops, other)
  {
    SortedByLastUse(capacity, ops);
    var order := Run(EMPTY, capacity, ops).order;
    var i :| 0 <= i < |order| && order[i] == other;
    assert i < capacity - 1;
  }

  ghost predicate NeverEvicted(capacity: int, ops: seq<Op>, k: Bytes) {
    ops == [] ||
    (&& NeverEvicted(capacity, ops[..|ops| - 1], k)
     && !Evicts(Run(EMPTY, capacity, ops[..|ops| - 1]), capacity, ops[|ops| - 1], k))
  }

  lemma {:induction false} LiveSetsStay(capacity: int, ops: seq<Op>, k: Bytes, t: int)
    requires capacity >= 1 && Timed(ops, t) && NeverEvicted(capacity, ops, k)
    requires LastSet(ops, k).Some? && Live(LastSet(ops, k).value, t)
    ensures k in Run(EMPTY, capacity, ops).items
    decreases |ops|
  {
    hide Step, Holds, Evicts;
    var before, op := ops[..|ops| - 1], ops[|ops| - 1];
    var l := Run(EMPTY, capacity, before);
    SortedByLastUse(capacity, before);
    if op.Set? && op.k == k {
      SetLeads(l, capacity, op);
    } else {
      var u := if op.Del? then t else op.now;
      LiveSetsStay(capacity, before, k, u);
      ItemsAreLastSets(capacity, before, k, u);
      LiveIsFound(l, k, LastSet(before, k).value, u);
      StepKeepsKey(l, capacity, op, k);
    }
  }

  lemma LiveIsFound(l: Lru, k: Bytes, w: Op, now: int)
    requires w.Set? && k in l.items && Holds(l.items[k], w) && Live(w, now)
    ensures Found(l, k, now)
  {
  }

  /** In a run that never evicts k, a read hits exactly when the key's last Set is live. */
  lemma ExactWithoutEviction(capacity: int, ops: seq<Op>, k: Bytes, now: int)
    requires capacity >= 1 && Timed(ops, now) && NeverEvicted(capacity, ops, k)
    ensures var w := LastSet(ops, k);
            Reply(Run(EMPTY, capacity, ops), Get(k, now))
            == if w.Some? && Live(w.value, now) then Hit(Served(w.value.v)) else Fail(ErrNotFound)
  {
    NeverLies(capacity, ops, k, now);
    var w := LastSet(ops, k);
    if w.Some? && Live(w.value, now) {
      LiveSetsStay(capacity, ops, k, now);
      ItemsAreLastSets(capacity, ops, k, now);
      LiveIsFound(Run(EMPTY, capacity, ops), k, w.value, now);
    }
  }
}
