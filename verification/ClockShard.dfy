/** One shard of the CLOCK cache: an intrusive doubly linked list between two sentinels, a map from key
    to entry, a size counter and a pool of recycled entries. */
module ClockShard {
  import opened Common
  import opened ClockRows

  class Entry {
    var key: Bytes
    var value: Bytes
    var expiry: int
    var prev: Entry?
    var next: Entry?
    var accessed: bool

    constructor ()
      ensures Clean()
    {
      key, value, expiry, prev, next, accessed := [], [], 0, null, null, false;
    }

    /** The state putEntry leaves an entry in, and the one a new entry starts in. */
    ghost predicate Clean()
      reads this
    {
      key == [] && value == [] && expiry == 0 && prev == null && next == null && !accessed
    }

    ghost function ToRow(): Row
      reads this
    {
      Row(key, value, expiry, accessed)
    }
  }

  ghost function RowsOf(es: seq<Entry>): (rows: seq<Row>)
    reads es
    ensures |rows| == |es|
    ensures forall i :: 0 <= i < |es| ==> rows[i] == es[i].ToRow()
  {
    if es == [] then [] else [es[0].ToRow()] + RowsOf(es[1..])
  }

  /** Forward and backward links describe this same duplicate-free sequence. */
  ghost predicate Chained(ring: seq<Entry>)
    reads ring
  {
    NoDup(ring) &&
    forall i :: 0 <= i < |ring| - 1 ==> ring[i].next == ring[i + 1] && ring[i + 1].prev == ring[i]
  }

  /** The map is a bijection, by key, onto the listed entries, whose rows are given. */
  ghost predicate Indexed(cache: map<Bytes, Entry>, list: seq<Entry>, rows: seq<Row>)
    requires |list| == |rows|
  {
    (forall i :: 0 <= i < |list| ==> rows[i].key in cache && cache[rows[i].key] == list[i]) &&
    (forall k :: k in cache ==> HasKey(rows, k) && cache[k] == list[Find(rows, k)])
  }

  ghost predicate AllClean(pool: set<Entry>)
    reads pool
  {
    forall e :: e in pool ==> e.Clean()
  }

  lemma WithoutMembers(list: seq<Entry>, at: nat)
    requires NoDup(list) && at < |list|
    ensures forall e :: e in RemoveAt(list, at) <==> e in list && e != list[at]
  {
  }

  lemma IndexedDistinct(cache: map<Bytes, Entry>, list: seq<Entry>, rows: seq<Row>)
    requires |list| == |rows| && Indexed(cache, list, rows) && NoDup(list)
    ensures DistinctKeys(rows)
  {
  }

  lemma FirstIndexed(cache: map<Bytes, Entry>, list: seq<Entry>, rows: seq<Row>)
    requires |list| == |rows| && Indexed(cache, list, rows)
    ensures |list| > 0 ==> rows[0].key in cache
  {
  }

  /** Indexed looks at the keys of the rows only. */
  lemma IndexedSameKeys(cache: map<Bytes, Entry>, list: seq<Entry>, rows: seq<Row>, others: seq<Row>)
    requires |list| == |rows| == |others| && Indexed(cache, list, rows) && NoDup(list)
    requires forall i :: 0 <= i < |rows| ==> rows[i].key == others[i].key
    ensures Indexed(cache, list, others)
  {
  }

  /** Mapping a new key to a new first entry. */
  lemma IndexedInsert(cache: map<Bytes, Entry>, list: seq<Entry>, rows: seq<Row>, entry: Entry, row: Row)
    requires |list| == |rows| && Indexed(cache, list, rows) && NoDup(list)
    requires row.key !in cache
    ensures Indexed(cache[row.key := entry], [entry] + list, [row] + rows)
  {
    var c, l, r := cache[row.key := entry], [entry] + list, [row] + rows;
    hide Find;
    forall i | 0 <= i < |l| ensures r[i].key in c && c[r[i].key] == l[i] {
      assert i > 0 ==> r[i] == rows[i - 1] && l[i] == list[i - 1];
    }
    forall k | k in c ensures HasKey(r, k) && c[k] == l[Find(r, k)] {
      FindCons(row, rows, k);
      assert k != row.key ==> l[Find(r, k)] == list[Find(rows, k)];
    }
  }

  /** Moving an entry to the front without changing its key. */
  lemma IndexedMove(cache: map<Bytes, Entry>, list: seq<Entry>, rows: seq<Row>, at: nat, row: Row)
    requires |list| == |rows| && Indexed(cache, list, rows) && NoDup(list) && at < |list| && row.key == rows[at].key
    ensures Indexed(cache, [list[at]] + RemoveAt(list, at), [row] + RemoveAt(rows, at))
  {
    IndexedWithout(cache, list, rows, at);
    WithoutMembers(list, at);
    IndexedInsert(cache - {row.key}, RemoveAt(list, at), RemoveAt(rows, at), list[at], row) by {
      assert forall i, j :: 0 <= i < j < |list| ==> list[i] != list[j];
    }
    assert (cache - {row.key})[row.key := list[at]] == cache;
  }

  /** Unmapping the victim's key indexes what an eviction leaves. */
  lemma IndexedEviction(cache: map<Bytes, Entry>, list: seq<Entry>, rows: seq<Row>)
    requires |list| == |rows| > 0 && Indexed(cache, list, rows) && NoDup(list)
    ensures Indexed(cache - {rows[VictimAt(rows)].key}, Survivors(list, rows), AfterEviction(rows))
  {
    IndexedDistinct(cache, list, rows);
    var c, l, r := cache - {rows[VictimAt(rows)].key}, Survivors(list, rows), AfterEviction(rows);
    hide Survivors, AfterEviction, EvictionSource, VictimAt;
    forall i | 0 <= i < |l| ensures r[i].key in c && c[r[i].key] == l[i] {
      EvictionOnlyOld(rows, i);
      SurvivorAt(list, rows, i);
    }
    EvictionDistinct(rows);
    forall k | k in c ensures HasKey(r, k) && c[k] == l[Find(r, k)] {
      var a := EvictionTarget(rows, Find(rows, k));
      EvictionOnlyOld(rows, a);
      SurvivorAt(list, rows, a);
      FindAt(r, a);
    }
  }

  /** Unmapping one listed entry's key indexes the list without that entry. */
  lemma IndexedWithout(cache: map<Bytes, Entry>, list: seq<Entry>, rows: seq<Row>, at: nat)
    requires |list| == |rows| && Indexed(cache, list, rows) && NoDup(list) && at < |list|
    ensures Indexed(cache - {rows[at].key}, RemoveAt(list, at), RemoveAt(rows, at))
  {
    IndexedDistinct(cache, list, rows);
    RemoveKeepsDistinct(rows, at);
    var l, r, c := RemoveAt(list, at), RemoveAt(rows, at), cache - {rows[at].key};
    forall i | 0 <= i < |l| ensures r[i].key in c && c[r[i].key] == l[i] {
      var j := if i < at then i else i + 1;
      assert r[i] == rows[j] && l[i] == list[j];
    }
    hide RemoveAt;
    forall k | k in c ensures HasKey(r, k) && c[k] == l[Find(r, k)] {
      FindWithout(rows, at, k);
    }
  }

  /** The neighbours of an inner member of a chain, and what is left without it. */
  lemma Unlinked(ring: seq<Entry>, at: nat)
    requires Chained(ring) && 0 < at < |ring| - 1
    ensures ring[at].prev == ring[at - 1] && ring[at].next == ring[at + 1]
    ensures NoDup(RemoveAt(ring, at)) && ring[at] !in RemoveAt(ring, at)
    ensures ToSet(ring) == ToSet(RemoveAt(ring, at)) + {ring[at]} && ring[at] !in ToSet(RemoveAt(ring, at))
    ensures {ring[at - 1], ring[at + 1]} <= ToSet(ring)
  {
  }

  class Shard {
    var cache: map<Bytes, Entry>
    const head: Entry
    const tail: Entry
    const capacity: int
    var size: int
    var pool: set<Entry>
    ghost var list: seq<Entry>  // head to tail, without the sentinels
    ghost var repr: set<Entry>  // every entry this shard owns

    ghost function Ring(): seq<Entry>
      reads this
    {
      [head] + list + [tail]
    }

    ghost function RingSet(): set<Entry>
      reads this
    {
      ToSet(Ring())
    }

    ghost function Nodes(): set<Entry>
      reads this
    {
      RingSet() + pool
    }

    ghost predicate Linked()
      reads this, RingSet()
    {
      Chained(Ring())
    }

    ghost predicate Mapped()
      reads this, Nodes()
    {
      Indexed(cache, list, Rows())
    }

    /** Pooled entries are clean and not listed. */
    ghost predicate Pooled()
      reads this, Nodes()
    {
      pool !! RingSet() && AllClean(pool)
    }

    ghost predicate Valid()
      reads this, repr
      ensures Valid() ==> Nodes() <= repr
    {
      Nodes() <= repr && Linked() && Mapped() && Pooled() && size == |list| && (capacity > 0 ==> size <= capacity)
    }

    ghost function Rows(): (rows: seq<Row>)
      reads this, Nodes()
      ensures |rows| == |list|
      ensures forall i :: 0 <= i < |list| ==> rows[i] == list[i].ToRow()
    {
      RowsOf(list)
    }

    constructor (capacity: int)
      ensures Valid() && Rows() == [] && this.capacity == capacity
      ensures fresh(repr)
    {
      this.capacity := capacity;
      cache, size, pool, list := map[], 0, {}, [];
      var h := new Entry();
      var t := new Entry();
      h.next := t;
      t.prev := h;
      head, tail := h, t;
      repr := {h, t};
    }

    // ---- The list ----

    method AddToHead(entry: Entry)
      requires Linked() && entry !in RingSet()
      modifies this`list, RingSet()`prev, RingSet()`next, entry`prev, entry`next
      ensures Linked() && list == [entry] + old(list) && RingSet() == old(RingSet()) + {entry}
      ensures Rows() == [old(entry.ToRow())] + old(Rows())
    {
      hide RowsOf;
      ghost var ring, rows := Ring(), Rows();
      assert ring[0] == head && ring[0].next == ring[0 + 1];
      entry.prev := head;
      entry.next := head.next;
      head.next.prev := entry;
      head.next := entry;
      list := [entry] + list;
      ghost var now := Ring();
      assert now == [head, entry] + ring[1..];
      forall i | 0 <= i < |now| - 1 ensures now[i].next == now[i + 1] && now[i + 1].prev == now[i] {
        assert i >= 2 ==> now[i] == ring[i - 1] && now[i + 1] == ring[i];
      }
      assert Rows() == [entry.ToRow()] + rows;
    }

    method RemoveEntry(entry: Entry, ghost at: nat)
      requires Linked() && at < |list| && list[at] == entry
      modifies this`list, RingSet()`prev, RingSet()`next
      ensures Linked() && list == RemoveAt(old(list), at)
      ensures entry !in RingSet() && entry !in Ring() && old(RingSet()) == RingSet() + {entry}
    {
      hide ToSet, RemoveAt;
      ghost var ring := Ring();
      Unlinked(ring, at + 1);
      entry.prev.next := entry.next;
      entry.next.prev := entry.prev;
      list := RemoveAt(list, at);
      ghost var rest := Ring();
      assert rest == RemoveAt(ring, at + 1);
      forall i | 0 <= i < |rest| - 1 ensures rest[i].next == rest[i + 1] && rest[i + 1].prev == rest[i] {
        assert i != at ==>
            && rest[i] == ring[if i < at then i else i + 1]
            && rest[i + 1] == ring[if i < at then i + 1 else i + 2];
      }
    }

    method MoveToHead(entry: Entry, ghost at: nat)
      requires Linked() && at < |list| && list[at] == entry
      modifies this`list, RingSet()`prev, RingSet()`next
      ensures Linked() && list == [entry] + RemoveAt(old(list), at) && RingSet() == old(RingSet())
      ensures Rows() == [old(Rows())[at]] + RemoveAt(old(Rows()), at)
    {
      hide RowsOf, Chained, ToSet;
      ghost var rows := Rows();
      RemoveEntry(entry, at);
      ghost var rest := Rows();
      assert rest == RemoveAt(rows, at);
      AddToHead(entry);
    }

    method RemoveTail() returns (last: Entry?)
      requires Linked()
      modifies this`list, RingSet()`prev, RingSet()`next
      ensures Linked()
      ensures old(list) == [] ==> last == null && list == []
      ensures old(list) != [] ==>
                && last == old(list[|list| - 1]) && list == old(list[..|list| - 1])
                && last !in RingSet() && last !in Ring() && old(RingSet()) == RingSet() + {last}
      ensures Rows() == if old(list) == [] then [] else old(Rows())[..|old(Rows())| - 1]
    {
      ghost var ring := Ring();
      assert ring[|list|].next == ring[|list| + 1] == tail && tail.prev == ring[|list|];
      assert list != [] ==> ring[|list|] == list[|list| - 1] && ring[0] != ring[|list|];
      if tail.prev == head {
        return null;
      }
      last := tail.prev;
      ghost var rows := Rows();
      RemoveEntry(tail.prev, |list| - 1);
      assert Rows() == rows[..|rows| - 1];
    }

    /** The entry next to the tail sentinel, which the scan looks at. */
    lemma LastEntry()
      requires Linked()
      ensures list == [] ==> tail.prev == head
      ensures list != [] ==> tail.prev == list[|list| - 1] && tail.prev != head && tail.prev in RingSet()
      ensures NoDup(list)
    {
      var ring := Ring();
      assert ring[|list|].next == ring[|list| + 1] == tail && tail.prev == ring[|list|];
      assert list != [] ==> ring[0] != ring[|list|];
      forall i, j | 0 <= i < j < |list| ensures list[i] != list[j] {
        assert list[i] == ring[i + 1] && list[j] == ring[j + 1];
      }
    }

    method SetBit(entry: Entry, bit: bool, ghost at: nat)
      requires Linked() && at < |list| && list[at] == entry
      modifies entry`accessed
      ensures Linked()
      ensures Rows() == old(Rows()[at := Rows()[at].(bit := bit)])
    {
      hide RowsOf;
      LastEntry();
      entry.accessed := bit;
      assert Rows() == old(Rows()[at := Rows()[at].(bit := bit)]);
    }

    /** One round of the scan: the last entry is taken when its bit is 0, else cleared and moved to the head. */
    method ScanRound() returns (last: Entry?, taken: bool)
      requires Linked()
      modifies this`list, RingSet()`prev, RingSet()`next, RingSet()`accessed
      ensures Linked()
      ensures old(list) == [] ==> last == null && taken && list == []
      ensures old(list) != [] ==>
        var was, rows, n := old(list), old(Rows()), |old(list)| - 1;
        && last == was[n] && taken == !rows[n].bit
        && list == (if taken then was[..n] else [was[n]] + was[..n])
        && Rows() == (if taken then rows[..n] else [rows[n].(bit := false)] + rows[..n])
        && old(RingSet()) == (if taken then RingSet() + {last} else RingSet())
        && (taken ==> last !in RingSet() && last !in Ring())
    {
      hide RowsOf, RemoveAt, RingSet, Chained;
      LastEntry();
      last := tail.prev;
      if last == head {
        return null, true;
      }
      ghost var rows := Rows();
      if last.accessed {
        SetBit(last, false, |list| - 1);
        MoveToHead(last, |list| - 1);
        taken := false;
        RemoveUpdated(rows, |rows| - 1, rows[|rows| - 1].(bit := false));
        assert RemoveAt(rows, |rows| - 1) == rows[..|rows| - 1];
      } else {
        RemoveEntry(last, |list| - 1);
        taken := true;
        assert Rows() == rows[..|rows| - 1];
      }
    }

    /** With so many rounds to go the scan will end with this victim, list and rows, in the fallback or before. */
    ghost predicate Scanning(steps: int, victim: Entry?, left: seq<Entry>, rows: seq<Row>, fallback: bool)
      reads this, RingSet(), Nodes()
    {
      && Linked() && 0 <= steps <= |list| && |list| > 0
      && ScanFrom(list, Rows(), steps) == (victim, left, rows, fallback)
    }

    lemma StartScan(victim: Entry?, left: seq<Entry>, rows: seq<Row>, fallback: bool)
      requires Linked()
      requires list != [] ==> ScanFrom(list, Rows(), |list|) == (victim, left, rows, fallback)
      ensures list != [] ==> Scanning(|list|, victim, left, rows, fallback)
    {
    }

    lemma ScanningFacts(steps: int, victim: Entry?, left: seq<Entry>, rows: seq<Row>, fallback: bool)
      requires Scanning(steps, victim, left, rows, fallback)
      ensures Linked() && list != [] && steps <= |list|
    {
    }

    /** A round of the scan on its way. */
    method ScanOn(steps: int, ghost victim: Entry?, ghost left: seq<Entry>, ghost rows: seq<Row>, ghost fallback: bool)
      returns (last: Entry?, taken: bool)
      requires Scanning(steps, victim, left, rows, fallback) && steps > 0
      modifies this`list, RingSet()`prev, RingSet()`next, RingSet()`accessed
      ensures !taken ==> Scanning(steps - 1, victim, left, rows, fallback) && RingSet() == old(RingSet())
      ensures taken ==>
                && Linked() && last == victim && list == left && Rows() == rows && !fallback
                && last !in RingSet() && last !in Ring() && old(RingSet()) == RingSet() + {last}
    {
      hide Linked, RingSet, RowsOf, ScanFrom;
      ghost var list0, rows0 := list, Rows();
      ScanStep(list, Rows(), steps);
      last, taken := ScanRound();
      if !taken {
        ScanNext(list0, rows0, steps, list, Rows());
      }
    }

    /** The end of the loop: the last entry goes whatever its bit. */
    method ScanOff(ghost victim: Entry?, ghost left: seq<Entry>, ghost rows: seq<Row>, ghost fallback: bool)
      returns (last: Entry?)
      requires if list == [] then Linked() else Scanning(0, victim, left, rows, fallback)
      modifies this`list, RingSet()`prev, RingSet()`next
      ensures Linked()
      ensures old(list) == [] ==> last == null && list == []
      ensures old(list) != [] ==>
                && last == victim && list == left && Rows() == rows && fallback
                && last !in RingSet() && last !in Ring() && old(RingSet()) == RingSet() + {last}
    {
      hide Linked, RingSet, RowsOf, ScanFrom;
      if list != [] {
        ScanStep(list, Rows(), 0);
      }
      last := RemoveTail();
    }

    /** The second-chance scan: it unlinks the last entry whose bit is 0, or the last entry when all are 1, and
        gets past its loop to the fallback exactly when no bit is 0. */
    method EvictVictim() returns (victim: Entry?, ghost fallback: bool)
      requires Linked() && size == |list|
      modifies this`list, RingSet()`prev, RingSet()`next, RingSet()`accessed
      ensures Linked()
      ensures fallback <==> LastClear(old(Rows())) < 0
      ensures old(list) == [] ==> victim == null && list == []
      ensures old(list) != [] ==>
        && victim == old(list[VictimAt(Rows())]) && victim !in RingSet() && victim !in Ring()
        && list == Survivors(old(list), old(Rows())) && Rows() == AfterEviction(old(Rows()))
        && old(RingSet()) == RingSet() + {victim}
    {
      hide Linked, RingSet, RowsOf, AfterEviction, Survivors, VictimAt, ScanFrom, LastClear, Scanning;
      ghost var target, left, rows, some := null, [], [], list != [];
      fallback := LastClear(Rows()) < 0;
      if some {
        ScanClosedForm(list, Rows());
        target, left, rows := list[VictimAt(Rows())], Survivors(list, Rows()), AfterEviction(Rows());
      }
      StartScan(target, left, rows, fallback);
      var steps := size;
      while steps > 0
        invariant 0 <= steps && RingSet() == old(RingSet())
        invariant if some then Scanning(steps, target, left, rows, fallback) else steps == 0 && list == [] && Linked()
      {
        var taken;
        victim, taken := ScanOn(steps, target, left, rows, fallback);
        if taken {
          return;
        }
        steps := steps - 1;
      }
      if some {
        ScanningFacts(steps, target, left, rows, fallback);
      }
      victim := ScanOff(target, left, rows, fallback);
    }

    // ---- The map and the pool ----

    /** Where the map and the list agree about a key. */
    lemma Located(k: Bytes) returns (at: nat)
      requires Linked() && Mapped()
      ensures at == Find(Rows(), k)
      ensures k in cache ==> at < |list| && list[at] == cache[k]
      ensures k !in cache ==> at == |list|
      ensures DistinctKeys(Rows())
    {
      at := Find(Rows(), k);
      LastEntry();
      IndexedDistinct(cache, list, Rows());
    }

    lemma Listed(at: nat)
      requires at < |list|
      ensures list[at] in RingSet()
      ensures forall i :: 0 <= i < |list| ==> list[i] in RingSet()
    {
    }

    method GetEntry() returns (entry: Entry)
      requires Pooled()
      modifies this`pool
      ensures entry.Clean() && entry !in Ring() && entry !in RingSet() && pool == old(pool) - {entry}
      ensures entry in old(pool) || fresh(entry)
    {
      if pool != {} {
        if * {
          entry :| entry in pool;
          pool := pool - {entry};
          return;
        }
      }
      entry := new Entry();
    }

    method PutEntry(entry: Entry)
      modifies this`pool, entry
      ensures entry.Clean() && pool == old(pool) + {entry}
    {
      entry.key, entry.value, entry.expiry, entry.prev, entry.next, entry.accessed := [], [], 0, null, null, false;
      pool := pool + {entry};
    }

    // ---- The operations under the shard lock ----

    /** The read-locked half of a read: it answers from the map and at most raises the entry's bit. */
    method Read(k: Bytes, now: int) returns (answer: Answer<Bytes>, stale: bool)
      requires Valid()
      modifies repr`accessed
      ensures Valid()
      ensures answer == Lookup(old(Rows()), k, now)
      ensures stale == (HasKey(old(Rows()), k) && Expired(old(Rows())[Find(old(Rows()), k)].expiry, now))
      ensures Rows() == Touch(old(Rows()), k, now) && Nodes() == old(Nodes())
    {
      hide Chained, Indexed, AllClean, RowsOf, RemoveAt, Find;
      ghost var at := Located(k);
      answer, stale := Fail(ErrNotFound), false;
      if k in cache {
        var entry := cache[k];
        if Expired(entry.expiry, now) {
          stale := true;
        } else {
          answer := Hit(entry.value);
          ghost var rows := Rows();
          SetBit(entry, true, at);
          IndexedSameKeys(cache, list, rows, Rows());
        }
      }
    }

    /** A batch read neither raises the access bit nor purges. */
    method Peek(k: Bytes, now: int) returns (answer: Answer<Bytes>)
      requires Valid()
      ensures answer == Lookup(Rows(), k, now)
    {
      ghost var at := Located(k);
      if k !in cache {
        return Fail(ErrNotFound);
      }
      if Expired(cache[k].expiry, now) {
        return Fail(ErrNotFound);
      }
      return Hit(cache[k].value);
    }

    method ReadTTL(k: Bytes, now: int) returns (answer: Answer<int>)
      requires Valid()
      ensures answer == TimeLeft(Rows(), k, now)
    {
      ghost var at := Located(k);
      if k !in cache {
        return Fail(ErrNotFound);
      }
      var entry := cache[k];
      if Expired(entry.expiry, now) {
        return Fail(ErrNotFound);
      }
      if entry.expiry == 0 {
        return Hit(0);
      }
      var remaining := entry.expiry - now;
      if remaining <= 0 {
        return Fail(ErrNotFound);
      }
      return Hit(remaining);
    }

    /** Unlink, unmap and recycle one entry. */
    method Drop(entry: Entry, ghost at: nat)
      requires Linked() && Mapped() && Pooled()
      requires at < |list| && list[at] == entry
      modifies this`cache, this`list, this`pool, RingSet()
      ensures Linked() && Mapped() && Pooled()
      ensures Rows() == RemoveAt(old(Rows()), at) && list == RemoveAt(old(list), at)
      ensures Nodes() == old(Nodes()) && RingSet() + {entry} == old(RingSet())
    {
      hide Chained, ToSet, Indexed, RowsOf;
      LastEntry();
      Listed(at);
      ghost var rows := Rows();
      IndexedWithout(cache, list, rows, at);
      cache := cache - {entry.key};
      RemoveEntry(entry, at);
      ghost var rest := Rows();
      assert rest == RemoveAt(rows, at);
      PutEntry(entry);
    }

    /** The write-locked half of a read that found an expired entry; the entry may have changed in between. */
    method PurgeIfExpired(k: Bytes, now: int)
      requires Valid()
      modifies this`cache, this`list, this`pool, this`size, repr
      ensures Valid() && Rows() == Purge(old(Rows()), k, now) && Nodes() == old(Nodes())
    {
      hide Chained, Indexed, AllClean, RowsOf, RemoveAt, Find;
      ghost var at := Located(k);
      if k in cache {
        if Expired(cache[k].expiry, now) {
          Drop(cache[k], at);
          size := size - 1;
        }
      }
    }

    method Remove(k: Bytes)
      requires Valid()
      modifies this`cache, this`list, this`pool, this`size, repr
      ensures Valid() && Rows() == Delete(old(Rows()), k) && Nodes() == old(Nodes())
    {
      hide Chained, Indexed, AllClean, RowsOf, RemoveAt, Find;
      ghost var at := Located(k);
      if k in cache {
        Drop(cache[k], at);
        size := size - 1;
      }
    }

    /** The branch of a write that finds its key: overwritten in place, counted as an access, moved to the front. */
    method Overwrite(k: Bytes, v: Bytes, expiry: int)
      requires Valid() && k in cache
      modifies this`list, RingSet()
      ensures Valid() && Rows() == Store(old(Rows()), capacity, k, v, expiry) && Nodes() == old(Nodes())
    {
      hide Chained, ToSet, Indexed, AllClean, RowsOf, RemoveAt;
      ghost var at := Located(k);
      LastEntry();
      Listed(at);
      IndexedMove(cache, list, Rows(), at, Row(k, v, expiry, true));
      Refresh(cache[k], v, expiry, at);
    }

    /** Set a listed entry's fields and move it first. */
    method Refresh(entry: Entry, v: Bytes, expiry: int, ghost at: nat)
      requires Linked() && at < |list| && list[at] == entry
      modifies this`list, RingSet()
      ensures Linked() && list == [entry] + RemoveAt(old(list), at) && RingSet() == old(RingSet())
      ensures Rows() == [Row(old(entry.key), v, expiry, true)] + RemoveAt(old(Rows()), at)
    {
      hide Chained, ToSet, RowsOf, RemoveAt;
      ghost var rows, row := Rows(), Row(entry.key, v, expiry, true);
      LastEntry();
      Listed(at);
      SetFields(entry, v, expiry, at);
      RemoveUpdated(rows, at, row);
      MoveToHead(entry, at);
    }

    method SetFields(entry: Entry, v: Bytes, expiry: int, ghost at: nat)
      requires Linked() && at < |list| && list[at] == entry
      modifies entry
      ensures Linked()
      ensures Rows() == old(Rows()[at := Row(entry.key, v, expiry, true)])
    {
      hide RowsOf;
      LastEntry();
      entry.value, entry.expiry, entry.accessed := v, expiry, true;
      assert Rows() == old(Rows()[at := Row(entry.key, v, expiry, true)]);
    }

    /** A recycled entry is clean, so the row it becomes starts with its bit at 0. */
    method NewEntry(k: Bytes, v: Bytes, expiry: int) returns (entry: Entry)
      requires Linked() && Pooled()
      modifies this`pool, pool
      ensures entry.ToRow() == Row(k, v, expiry, false)
      ensures Linked() && Pooled() && Rows() == old(Rows())
      ensures entry !in Ring() && entry !in Nodes() && pool == old(pool) - {entry}
      ensures entry in old(pool) || fresh(entry)
    {
      hide RowsOf;
      assert forall e :: e in Ring() ==> e in RingSet();
      entry := GetEntry();
      entry.key, entry.value, entry.expiry := k, v, expiry;
      assert Rows() == old(Rows());
    }

    /** The branch of a write whose key is new: a clean entry is filled in, mapped and listed first. */
    method Insert(k: Bytes, v: Bytes, expiry: int)
      requires Valid() && k !in cache
      modifies this`cache, this`list, this`size, this`pool, this`repr, RingSet()`prev, RingSet()`next, pool
      ensures Linked() && Mapped() && Pooled() && size == |list|
      ensures Rows() == [Row(k, v, expiry, false)] + old(Rows())
      ensures Nodes() <= repr && fresh(repr - old(repr))
    {
      hide Chained, NoDup, ToSet, Indexed, AllClean, RowsOf;
      LastEntry();
      ghost var rows := Rows();
      var entry := NewEntry(k, v, expiry);
      IndexedInsert(cache, list, rows, entry, Row(k, v, expiry, false));
      ListFirst(entry);
      repr := repr + {entry};
    }

    /** Map a clean entry under its key and list it first. */
    method ListFirst(entry: Entry)
      requires Linked() && Pooled() && size == |list| && entry !in Nodes()
      requires Indexed(cache[entry.key := entry], [entry] + list, [entry.ToRow()] + Rows())
      modifies this`cache, this`list, this`size, RingSet()`prev, RingSet()`next, entry`prev, entry`next
      ensures Linked() && Mapped() && Pooled() && size == |list|
      ensures Rows() == [old(entry.ToRow())] + old(Rows()) && Nodes() == old(Nodes()) + {entry}
    {
      hide Chained, NoDup, ToSet, Indexed, AllClean, RowsOf;
      cache := cache[entry.key := entry];
      AddToHead(entry);
      size := size + 1;
    }

    /** A write under the shard lock. Its eviction, if it makes one, never needs the fallback. */
    method Put(k: Bytes, v: Bytes, expiry: int) returns (ghost fallback: bool)
      requires Valid()
      modifies this, repr
      ensures Valid() && Rows() == Store(old(Rows()), capacity, k, v, expiry) && !fallback
      ensures fresh(repr - old(repr))
    {
      hide Chained, ToSet, Indexed, AllClean, RowsOf, RemoveAt, AfterEviction, VictimAt, LastClear;
      ghost var at := Located(k);
      fallback := false;
      if k in cache {
        Overwrite(k, v, expiry);
      } else {
        NewRowIsVictim(Rows(), k, v, expiry);
        Insert(k, v, expiry);
        if capacity > 0 && size > capacity {
          fallback := Evict();
        }
      }
    }

    /** Make room: scan for a victim, unmap it and recycle it. */
    method Evict() returns (ghost fallback: bool)
      requires Linked() && Mapped() && Pooled() && size == |list| > 0
      modifies this`cache, this`list, this`size, this`pool, RingSet()
      ensures Linked() && Mapped() && Pooled() && size == |list| == old(|list|) - 1
      ensures Rows() == AfterEviction(old(Rows())) && Nodes() == old(Nodes())
      ensures fallback <==> LastClear(old(Rows())) < 0
    {
      hide Chained, ToSet, Indexed, RowsOf, AfterEviction, Survivors, VictimAt, LastClear;
      LastEntry();
      ghost var rows := Rows();
      IndexedEviction(cache, list, rows);
      var victim;
      victim, fallback := EvictVictim();
      if victim != null {
        cache := cache - {victim.key};
        size := size - 1;
        PutEntry(victim);
      }
    }

    /** Drop every entry, in whatever order the map yields them; used by Clear and by Close. */
    method Clear()
      requires Valid()
      modifies this`cache, this`list, this`size, this`pool, repr
      ensures Valid() && Rows() == [] && Nodes() == old(Nodes())
    {
      hide Chained, ToSet, Indexed, AllClean, RowsOf, RemoveAt;
      while cache != map[]
        invariant Linked() && Mapped() && Pooled() && Nodes() == old(Nodes()) && RingSet() <= old(RingSet())
        decreases |list|
      {
        var k :| k in cache;
        ghost var at := Located(k);
        Drop(cache[k], at);
      }
      FirstIndexed(cache, list, Rows());
      size := 0;
    }
  }
}
