/** The value-level specification of one CLOCK shard: the rows of its list, newest first. */
module ClockRows {
  import opened Common

  /** One cached entry: expiry 0 means it never expires, bit is the CLOCK access bit. */
  datatype Row = Row(key: Bytes, value: Bytes, expiry: int, bit: bool)

  ghost predicate DistinctKeys(rows: seq<Row>) {
    forall i, j :: 0 <= i < j < |rows| ==> rows[i].key != rows[j].key
  }

  /** Position of the row with this key, or |rows| when there is none. */
  function Find(rows: seq<Row>, k: Bytes): (i: nat)
    ensures i <= |rows|
    ensures i < |rows| ==> rows[i].key == k
    ensures forall j :: 0 <= j < i ==> rows[j].key != k
  {
    if rows == [] then 0 else if rows[0].key == k then 0 else 1 + Find(rows[1..], k)
  }

  predicate HasKey(rows: seq<Row>, k: Bytes) {
    Find(rows, k) < |rows|
  }

  function Expired(expiry: int, now: int): bool {
    expiry > 0 && now > expiry
  }

  /** What a read of k answers; it depends on the rows only. */
  function Lookup(rows: seq<Row>, k: Bytes, now: int): Answer<Bytes> {
    var i := Find(rows, k);
    if i == |rows| || Expired(rows[i].expiry, now) then Fail(ErrNotFound) else Hit(rows[i].value)
  }

  /** A read hit only raises the row's access bit. */
  function Touch(rows: seq<Row>, k: Bytes, now: int): seq<Row> {
    var i := Find(rows, k);
    if i == |rows| || Expired(rows[i].expiry, now) then rows else rows[i := rows[i].(bit := true)]
  }

  /** The write-locked second half of a read that met an expired row. */
  function Purge(rows: seq<Row>, k: Bytes, now: int): seq<Row> {
    var i := Find(rows, k);
    if i < |rows| && Expired(rows[i].expiry, now) then RemoveAt(rows, i) else rows
  }

  function Delete(rows: seq<Row>, k: Bytes): seq<Row> {
    var i := Find(rows, k);
    if i < |rows| then RemoveAt(rows, i) else rows
  }

  function Cleared(rows: seq<Row>): (r: seq<Row>)
    ensures |r| == |rows|
    ensures forall i :: 0 <= i < |r| ==> r[i] == rows[i].(bit := false)
  {
    seq(|rows|, i requires 0 <= i < |rows| => rows[i].(bit := false))
  }

  /** Position of the last row whose access bit is 0, or -1. */
  function LastClear(rows: seq<Row>): (i: int)
    ensures -1 <= i < |rows|
    ensures i >= 0 ==> !rows[i].bit
    ensures forall j :: i < j < |rows| ==> rows[j].bit
  {
    if rows == [] then -1
    else if !rows[|rows| - 1].bit then |rows| - 1
    else LastClear(rows[..|rows| - 1])
  }

  /** Position of the row the second-chance scan evicts. */
  function VictimAt(rows: seq<Row>): (i: nat)
    requires rows != []
    ensures i < |rows|
  {
    if LastClear(rows) >= 0 then LastClear(rows) else |rows| - 1
  }

  /** The rows after the scan: those it passed are cleared and now lead, in their old order. When every
      bit was set the scan has rotated the whole list once, and then drops the last row. */
  function AfterEviction(rows: seq<Row>): (r: seq<Row>)
    requires rows != []
    ensures |r| == |rows| - 1
  {
    var i := LastClear(rows);
    if i >= 0 then Cleared(rows[i + 1..]) + rows[..i] else Cleared(rows[..|rows| - 1])
  }

  /** AfterEviction on any list that goes with the rows. */
  function Survivors<T>(list: seq<T>, rows: seq<Row>): (r: seq<T>)
    requires |list| == |rows| > 0
    ensures |r| == |rows| - 1
  {
    var i := LastClear(rows);
    if i >= 0 then list[i + 1..] + list[..i] else list[..|list| - 1]
  }

  /** The scan round by round, on any list that goes with the rows: what it takes, and what it leaves.
      A round takes the last row when its bit is 0, else clears it and moves it to the front; after the
      last round the last row goes whatever its bit, which the last component tells. */
  function ScanFrom<T>(list: seq<T>, rows: seq<Row>, steps: nat): (r: (T, seq<T>, seq<Row>, bool))
    requires |list| == |rows| > 0
    decreases steps
  {
    var n := |rows| - 1;
    if steps == 0 || !rows[n].bit then (list[n], list[..n], rows[..n], steps == 0)
    else ScanFrom([list[n]] + list[..n], [rows[n].(bit := false)] + rows[..n], steps - 1)
  }

  lemma ScanStep<T>(list: seq<T>, rows: seq<Row>, steps: nat)
    requires |list| == |rows| > 0
    ensures var n := |rows| - 1;
            ScanFrom(list, rows, steps) ==
              if steps == 0 || !rows[n].bit then (list[n], list[..n], rows[..n], steps == 0)
              else ScanFrom([list[n]] + list[..n], [rows[n].(bit := false)] + rows[..n], steps - 1)
  {
  }

  /** One round that takes nothing. */
  lemma ScanNext<T>(list: seq<T>, rows: seq<Row>, steps: nat, list': seq<T>, rows': seq<Row>)
    requires |list| == |rows| > 0 && steps > 0
    requires var n := |rows| - 1;
             rows[n].bit && list' == [list[n]] + list[..n] && rows' == [rows[n].(bit := false)] + rows[..n]
    ensures ScanFrom(list', rows', steps - 1) == ScanFrom(list, rows, steps)
  {
  }

  /** As many rounds as rows take the last row whose bit is 0, or the last row when every bit is 1. */
  lemma ScanClosedForm<T>(list: seq<T>, rows: seq<Row>)
    requires |list| == |rows| > 0
    ensures ScanFrom(list, rows, |rows|)
            == (list[VictimAt(rows)], Survivors(list, rows), AfterEviction(rows), LastClear(rows) < 0)
  {
    assert Turned(list, |list|) == list && TurnedRows(rows, |rows|) == rows;
    ScanSuffix(list, rows, |rows|);
  }

  /** The list, and its rows, once the scan has passed everything from position k on. */
  function Turned<T>(list: seq<T>, k: nat): (r: seq<T>)
    requires k <= |list|
    ensures |r| == |list|
  {
    list[k..] + list[..k]
  }

  function TurnedRows(rows: seq<Row>, k: nat): (r: seq<Row>)
    requires k <= |rows|
    ensures |r| == |rows|
  {
    Cleared(rows[k..]) + rows[..k]
  }

  lemma {:induction false} ScanSuffix<T>(list: seq<T>, rows: seq<Row>, k: nat)
    requires |list| == |rows| > 0 && k <= |rows|
    requires forall j :: k <= j < |rows| ==> rows[j].bit
    ensures ScanFrom(Turned(list, k), TurnedRows(rows, k), k)
            == (list[VictimAt(rows)], Survivors(list, rows), AfterEviction(rows), LastClear(rows) < 0)
  {
    hide Turned, TurnedRows, AfterEviction, Survivors, VictimAt;
    if k == 0 || !rows[k - 1].bit {
      ScanEnds(list, rows, k);
    } else {
      TurnOne(list, rows, k);
      ScanSuffix(list, rows, k - 1);
    }
  }

  lemma TurnOne<T>(list: seq<T>, rows: seq<Row>, k: nat)
    requires |list| == |rows| && 0 < k <= |rows|
    ensures var l, r, n := Turned(list, k), TurnedRows(rows, k), |rows| - 1;
            && r[n] == rows[k - 1]
            && [l[n]] + l[..n] == Turned(list, k - 1)
            && [r[n].(bit := false)] + r[..n] == TurnedRows(rows, k - 1)
  {
  }

  lemma ScanEnds<T>(list: seq<T>, rows: seq<Row>, k: nat)
    requires |list| == |rows| > 0 && k <= |rows|
    requires forall j :: k <= j < |rows| ==> rows[j].bit
    requires k == 0 || !rows[k - 1].bit
    ensures var l, r, n := Turned(list, k), TurnedRows(rows, k), |rows| - 1;
            && l[n] == list[VictimAt(rows)] && l[..n] == Survivors(list, rows) && r[..n] == AfterEviction(rows)
            && (k > 0 ==> !r[n].bit) && (k == 0 <==> LastClear(rows) < 0)
  {
    hide LastClear, Turned, TurnedRows, Cleared, VictimAt, Survivors, AfterEviction;
    LastClearAt(rows, k - 1);
    TurnedEnd(list, rows, k);
    AtLastClear(list, rows, k);
  }

  lemma AtLastClear<T>(list: seq<T>, rows: seq<Row>, k: nat)
    requires |list| == |rows| > 0 && LastClear(rows) == k - 1
    ensures var n := |rows| - 1;
            && VictimAt(rows) == (if k == 0 then n else k - 1)
            && Survivors(list, rows) == (if k == 0 then list[..n] else list[k..] + list[..k - 1])
            && AfterEviction(rows) == if k == 0 then Cleared(rows[..n]) else Cleared(rows[k..]) + rows[..k - 1]
  {
  }

  lemma TurnedEnd<T>(list: seq<T>, rows: seq<Row>, k: nat)
    requires |list| == |rows| > 0 && k <= |rows|
    ensures var l, r, n := Turned(list, k), TurnedRows(rows, k), |rows| - 1;
            if k == 0 then l[n] == list[n] && l[..n] == list[..n] && r[..n] == Cleared(rows[..n])
            else && l[n] == list[k - 1] && l[..n] == list[k..] + list[..k - 1]
                 && r[n] == rows[k - 1] && r[..n] == Cleared(rows[k..]) + rows[..k - 1]
  {
  }

  lemma LastClearAt(rows: seq<Row>, i: int)
    requires -1 <= i < |rows| && forall j :: i < j < |rows| ==> rows[j].bit
    requires i == -1 || !rows[i].bit
    ensures LastClear(rows) == i
  {
  }

  /** The expiry stamp SetWithTTL computes: ttl -1 is "never", ttl 0 "already expired". */
  function ExpiryFor(ttl: int, now: int): int {
    if ttl > 0 then now + ttl else if ttl == 0 then now - 1 else 0
  }

  /** A write under the shard lock: overwrite in place and move to the front, or insert and evict. */
  function Store(rows: seq<Row>, capacity: int, k: Bytes, v: Bytes, expiry: int): seq<Row> {
    var i := Find(rows, k);
    if i < |rows| then [Row(k, v, expiry, true)] + RemoveAt(rows, i)
    else
      var grown := [Row(k, v, expiry, false)] + rows;
      if 0 < capacity < |grown| then AfterEviction(grown) else grown
  }

  // ---- What the specification functions mean ----

  /** Reading back the rows by key determines a position: Find is the inverse of rows[i].key. */
  lemma FindAt(rows: seq<Row>, i: nat)
    requires DistinctKeys(rows) && i < |rows|
    ensures Find(rows, rows[i].key) == i
  {
  }

  lemma FindCons(row: Row, rows: seq<Row>, k: Bytes)
    ensures Find([row] + rows, k) == if row.key == k then 0 else 1 + Find(rows, k)
  {
  }

  lemma RemoveKeepsDistinct(rows: seq<Row>, i: nat)
    requires DistinctKeys(rows) && i < |rows|
    ensures DistinctKeys(RemoveAt(rows, i))
    ensures !HasKey(RemoveAt(rows, i), rows[i].key)
  {
  }

  /** Where a key other than the removed one is found afterwards. */
  lemma FindWithout(rows: seq<Row>, at: nat, k: Bytes)
    requires DistinctKeys(rows) && at < |rows| && HasKey(rows, k) && k != rows[at].key
    ensures var i := Find(rows, k);
            Find(RemoveAt(rows, at), k) == if i < at then i else i - 1
  {
    var i := Find(rows, k);
    RemoveKeepsDistinct(rows, at);
    FindAt(RemoveAt(rows, at), if i < at then i else i - 1);
  }

  /** Which old position the a-th row after the eviction came from. */
  function EvictionSource(rows: seq<Row>, a: nat): (j: nat)
    requires rows != [] && a < |rows| - 1
    ensures j < |rows| && j != VictimAt(rows)
  {
    var v := VictimAt(rows);
    if LastClear(rows) < 0 then a
    else if a < |rows| - 1 - v then v + 1 + a else a - (|rows| - 1 - v)
  }

  lemma SurvivorAt<T>(list: seq<T>, rows: seq<Row>, a: nat)
    requires |list| == |rows| > 0 && a < |rows| - 1
    ensures Survivors(list, rows)[a] == list[EvictionSource(rows, a)]
  {
  }

  /** Where an old row other than the victim is afterwards. */
  function EvictionTarget(rows: seq<Row>, j: nat): (a: nat)
    requires rows != [] && j < |rows| && j != VictimAt(rows)
    ensures a < |rows| - 1 && EvictionSource(rows, a) == j
  {
    var v := VictimAt(rows);
    if LastClear(rows) < 0 then j else if j > v then j - v - 1 else |rows| - 1 - v + j
  }

  /** Every row left by an eviction is an old row, other than the victim, at most with its bit cleared. */
  lemma EvictionOnlyOld(rows: seq<Row>, a: nat)
    requires rows != [] && a < |rows| - 1
    ensures var j := EvictionSource(rows, a);
            var r := AfterEviction(rows)[a];
            r.key == rows[j].key && r.value == rows[j].value && r.expiry == rows[j].expiry
  {
    var i, n := LastClear(rows), |rows| - 1;
    hide LastClear;
    if i < 0 {
      assert AfterEviction(rows)[a] == Cleared(rows[..n])[a];
    } else if a < n - i {
      assert AfterEviction(rows)[a] == Cleared(rows[i + 1..])[a];
    } else {
      assert AfterEviction(rows)[a] == rows[..i][a - (n - i)];
    }
  }

  /** And its bit is cleared exactly if the scan passed it: if it was behind the victim, or all bits were 1. */
  lemma EvictionClearsPassed(rows: seq<Row>, a: nat)
    requires rows != [] && a < |rows| - 1
    ensures var j, i := EvictionSource(rows, a), LastClear(rows);
            AfterEviction(rows)[a].bit == (rows[j].bit && j < i)
  {
    hide LastClear, AfterEviction, EvictionSource;
    var i, j, n := LastClear(rows), EvictionSource(rows, a), |rows| - 1;
    EvictedParts(rows);
    SourceParts(rows, a);
    if i < 0 {
      assert !Cleared(rows[..n])[a].bit;
    } else if a < n - i {
      assert !Cleared(rows[i + 1..])[a].bit;
    } else {
      assert rows[..i][a - (n - i)] == rows[j];
    }
  }

  lemma EvictedParts(rows: seq<Row>)
    requires rows != []
    ensures var i := LastClear(rows);
            AfterEviction(rows) == if i >= 0 then Cleared(rows[i + 1..]) + rows[..i] else Cleared(rows[..|rows| - 1])
  {
    hide LastClear, Cleared;
  }

  lemma SourceParts(rows: seq<Row>, a: nat)
    requires rows != [] && a < |rows| - 1
    ensures var i, n := LastClear(rows), |rows| - 1;
            EvictionSource(rows, a) == if i < 0 then a else if a < n - i then i + 1 + a else a - (n - i)
  {
    hide LastClear;
  }

  lemma EvictionDistinct(rows: seq<Row>)
    requires rows != [] && DistinctKeys(rows)
    ensures DistinctKeys(AfterEviction(rows))
  {
  }

  /** An eviction takes the victim's key and no other. */
  lemma EvictionTakesVictim(rows: seq<Row>, k: Bytes)
    requires rows != [] && DistinctKeys(rows)
    ensures HasKey(AfterEviction(rows), k) <==> HasKey(rows, k) && k != rows[VictimAt(rows)].key
  {
    var after := AfterEviction(rows);
    var v := VictimAt(rows);
    if HasKey(after, k) {
      EvictionOnlyOld(rows, Find(after, k));
    }
    if HasKey(rows, k) && k != rows[v].key {
      var a := EvictionTarget(rows, Find(rows, k));
      EvictionOnlyOld(rows, a);
      assert after[a].key == k;
    }
  }

  // ---- Writes ----

  /** Same contents, whatever the access bit. */
  predicate SameContents(a: Row, b: Row) {
    a.key == b.key && a.value == b.value && a.expiry == b.expiry
  }

  ghost predicate AllBitsSet(rows: seq<Row>) {
    forall r :: r in rows ==> r.bit
  }

  /** A shard within its capacity stays within it, and its keys stay distinct. */
  lemma StoreWithinCapacity(rows: seq<Row>, capacity: int, k: Bytes, v: Bytes, expiry: int)
    requires DistinctKeys(rows) && (capacity > 0 ==> |rows| <= capacity)
    ensures var after := Store(rows, capacity, k, v, expiry);
            DistinctKeys(after) && (capacity > 0 ==> |after| <= capacity)
  {
    var i := Find(rows, k);
    if i < |rows| {
      RemoveKeepsDistinct(rows, i);
    } else if 0 < capacity < |rows| + 1 {
      EvictionDistinct([Row(k, v, expiry, false)] + rows);
    }
  }

  /** When a write has to evict: its own new row is the victim exactly when every other bit is 1, and the
      fallback for "every bit is 1" is never reached, since the new row's bit is 0. */
  lemma NewRowIsVictim(rows: seq<Row>, k: Bytes, v: Bytes, expiry: int)
    ensures var grown := [Row(k, v, expiry, false)] + rows;
            LastClear(grown) >= 0 && (VictimAt(grown) == 0 <==> AllBitsSet(rows))
  {
    var grown := [Row(k, v, expiry, false)] + rows;
    var i := LastClear(grown);
    assert !grown[0].bit;
    if i == 0 {
      forall r | r in rows ensures r.bit {
        var j :| 0 <= j < |rows| && rows[j] == r;
        assert grown[j + 1] == r;
      }
    } else {
      assert grown[i] == rows[i - 1];
    }
  }

  /** Whether a key is there after a write of k: k itself unless the shard was full, k new and every bit 1;
      another key unless it was the victim of the write. */
  lemma StoreKeeps(rows: seq<Row>, capacity: int, k: Bytes, v: Bytes, expiry: int, other: Bytes)
    requires DistinctKeys(rows) && (capacity > 0 ==> |rows| <= capacity)
    ensures var evicts := !HasKey(rows, k) && |rows| == capacity > 0;
            var grown := [Row(k, v, expiry, false)] + rows;
            HasKey(Store(rows, capacity, k, v, expiry), other) <==>
              if other == k then !(evicts && AllBitsSet(rows))
              else HasKey(rows, other) && !(evicts && other == grown[VictimAt(grown)].key)
  {
    hide AfterEviction, Find, LastClear;
    var row, i := Row(k, v, expiry, false), Find(rows, k);
    FindCons(row, rows, other);
    NewRowIsVictim(rows, k, v, expiry);
    if i < |rows| {
      OverwriteKeeps(rows, i, row.(bit := true), other);
    } else {
      var grown := [row] + rows;
      GrownDistinct(rows, row);
      EvictionTakesVictim(grown, other);
      assert VictimAt(grown) > 0 ==> grown[VictimAt(grown)] == rows[VictimAt(grown) - 1];
    }
  }

  lemma GrownDistinct(rows: seq<Row>, row: Row)
    requires DistinctKeys(rows) && !HasKey(rows, row.key)
    ensures DistinctKeys([row] + rows)
  {
  }

  lemma OverwriteKeeps(rows: seq<Row>, i: nat, row: Row, other: Bytes)
    requires DistinctKeys(rows) && i < |rows| && rows[i].key == row.key
    ensures HasKey([row] + RemoveAt(rows, i), other) <==> HasKey(rows, other)
  {
    FindCons(row, RemoveAt(rows, i), other);
    RemoveKeepsDistinct(rows, i);
    FindAt(rows, i);
    if other != row.key && HasKey(rows, other) {
      FindWithout(rows, i, other);
    }
  }

  /** A write never changes what is stored under another key. */
  lemma StoreOnlyWrites(rows: seq<Row>, capacity: int, k: Bytes, v: Bytes, expiry: int, r: Row)
    requires DistinctKeys(rows) && r in Store(rows, capacity, k, v, expiry)
    ensures if r.key == k then r.value == v && r.expiry == expiry
            else exists o :: o in rows && SameContents(o, r)
  {
    hide LastClear, AfterEviction, EvictionSource;
    var i, after := Find(rows, k), Store(rows, capacity, k, v, expiry);
    var a :| 0 <= a < |after| && after[a] == r;
    var grown := [Row(k, v, expiry, false)] + rows;
    if i < |rows| {
      RemoveKeepsDistinct(rows, i);
      if a > 0 {
        var o := rows[if a - 1 < i then a - 1 else a];
        assert o in rows && SameContents(o, r);
      }
    } else if 0 < capacity < |grown| {
      EvictionOnlyOld(grown, a);
      var j := EvictionSource(grown, a);
      assert j > 0 ==> rows[j - 1] in rows && SameContents(rows[j - 1], r);
    } else {
      assert a > 0 ==> rows[a - 1] in rows && SameContents(rows[a - 1], r);
    }
  }

  /** Writing and reading back: the exact rule. */
  lemma StoreThenLookup(rows: seq<Row>, capacity: int, k: Bytes, v: Bytes, expiry: int, now: int)
    requires DistinctKeys(rows) && (capacity > 0 ==> |rows| <= capacity)
    ensures Lookup(Store(rows, capacity, k, v, expiry), k, now) ==
              if Expired(expiry, now) || (!HasKey(rows, k) && |rows| == capacity > 0 && AllBitsSet(rows))
              then Fail(ErrNotFound) else Hit(v)
  {
    var after := Store(rows, capacity, k, v, expiry);
    StoreKeeps(rows, capacity, k, v, expiry, k);
    if HasKey(after, k) {
      StoreOnlyWrites(rows, capacity, k, v, expiry, after[Find(after, k)]);
    }
  }

  // ---- The second chance ----

  /** The key's row is there with its bit at 1. */
  ghost predicate Marked(rows: seq<Row>, k: Bytes) {
    HasKey(rows, k) && rows[Find(rows, k)].bit
  }

  /** A read that hits marks its row and a read that misses none; nothing else changes. */
  lemma TouchMarks(rows: seq<Row>, k: Bytes, now: int)
    ensures Lookup(rows, k, now).Hit? ==> Marked(Touch(rows, k, now), k)
    ensures Lookup(rows, k, now).Fail? ==> Touch(rows, k, now) == rows
    ensures |Touch(rows, k, now)| == |rows|
    ensures forall i :: 0 <= i < |rows| ==>
              && SameContents(Touch(rows, k, now)[i], rows[i])
              && (rows[i].bit ==> Touch(rows, k, now)[i].bit)
              && (rows[i].key != k ==> Touch(rows, k, now)[i] == rows[i])
  {
    var i, after := Find(rows, k), Touch(rows, k, now);
    if i < |rows| {
      FindSame(rows, after, k);
    }
  }

  lemma {:induction false} FindSame(rows: seq<Row>, after: seq<Row>, k: Bytes)
    requires |after| == |rows| && forall i :: 0 <= i < |rows| ==> after[i].key == rows[i].key
    ensures Find(after, k) == Find(rows, k)
  {
    if rows == [] || rows[0].key == k {
    } else {
      FindSame(rows[1..], after[1..], k);
    }
  }

  /** A write of a key that is there, too: it is first and marked. Of a new key that stays, it is first. */
  lemma WriteLeads(rows: seq<Row>, capacity: int, k: Bytes, v: Bytes, expiry: int)
    requires DistinctKeys(rows)
    ensures HasKey(rows, k) ==>
              var after := Store(rows, capacity, k, v, expiry);
              Find(after, k) == 0 && Marked(after, k) && after[1..] == RemoveAt(rows, Find(rows, k))
    ensures !HasKey(rows, k) && (capacity <= 0 || |rows| < capacity) ==>
              var after := Store(rows, capacity, k, v, expiry);
              Find(after, k) == 0 && !Marked(after, k) && after[1..] == rows
  {
  }

  /** A key other than the written one that is there afterwards holds what it held. */
  lemma OthersHold(rows: seq<Row>, capacity: int, k: Bytes, c: Bytes, v: Bytes, expiry: int)
    requires DistinctKeys(rows) && c != k && HasKey(Store(rows, capacity, c, v, expiry), k)
    ensures var after := Store(rows, capacity, c, v, expiry);
            HasKey(rows, k) && SameContents(after[Find(after, k)], rows[Find(rows, k)])
  {
    hide Store;
    var after := Store(rows, capacity, c, v, expiry);
    StoreOnlyWrites(rows, capacity, c, v, expiry, after[Find(after, k)]);
    var o :| o in rows && SameContents(o, after[Find(after, k)]);
    var j :| 0 <= j < |rows| && rows[j] == o;
    FindAt(rows, j);
  }

  /** Second chance: the write of another key never evicts a marked one. */
  lemma MarkedSurvives(rows: seq<Row>, capacity: int, k: Bytes, c: Bytes, v: Bytes, expiry: int)
    requires DistinctKeys(rows) && (capacity > 0 ==> |rows| <= capacity) && Marked(rows, k) && c != k
    ensures HasKey(Store(rows, capacity, c, v, expiry), k)
  {
    hide Store, Find, LastClear, AfterEviction;
    var row := Row(c, v, expiry, false);
    var grown := [row] + rows;
    StoreKeeps(rows, capacity, c, v, expiry, k);
    NewRowIsVictim(rows, c, v, expiry);
    if !HasKey(rows, c) && grown[VictimAt(grown)].key == k {
      assert rows[VictimAt(grown) - 1].key == k;
      FindAt(rows, VictimAt(grown) - 1);
      assert false;
    }
  }

  /** So a key that a read has just hit is still there after the next write of another key, with what it held. */
  lemma HitSurvivesWrite(rows: seq<Row>, capacity: int, k: Bytes, now: int, c: Bytes, v: Bytes, expiry: int)
    requires DistinctKeys(rows) && (capacity > 0 ==> |rows| <= capacity)
    requires Lookup(rows, k, now).Hit? && c != k
    ensures Lookup(Store(Touch(rows, k, now), capacity, c, v, expiry), k, now) == Lookup(rows, k, now)
  {
    hide Store, Touch;
    var touched := Touch(rows, k, now);
    TouchMarks(rows, k, now);
    FindSame(rows, touched, k);
    MarkedSurvives(touched, capacity, k, c, v, expiry);
    OthersHold(touched, capacity, k, c, v, expiry);
  }

  // ---- Reads ----

  /** A purge removes the key exactly when its time is over, a deletion always; every other row stays. */
  lemma PurgeAndDelete(rows: seq<Row>, k: Bytes, now: int, r: Row)
    requires DistinctKeys(rows)
    ensures HasKey(Purge(rows, k, now), k) <==> Lookup(rows, k, now).Hit?
    ensures !HasKey(Delete(rows, k), k)
    ensures r.key != k ==> (r in Purge(rows, k, now) <==> r in rows) && (r in Delete(rows, k) <==> r in rows)
  {
    var i := Find(rows, k);
    if i < |rows| {
      RemoveKeepsDistinct(rows, i);
      if r.key != k && r in rows {
        var j :| 0 <= j < |rows| && rows[j] == r;
        assert RemoveAt(rows, i)[if j < i then j else j - 1] == r;
      }
    }
  }

  /** The time left on a row, and whether GetTTL reports one. */
  function TimeLeft(rows: seq<Row>, k: Bytes, now: int): Answer<int> {
    var i := Find(rows, k);
    if i == |rows| || Expired(rows[i].expiry, now) then Fail(ErrNotFound)
    else if rows[i].expiry == 0 then Hit(0)
    else if rows[i].expiry - now <= 0 then Fail(ErrNotFound)
    else Hit(rows[i].expiry - now)
  }

  lemma StaleTouch(rows: seq<Row>, k: Bytes, now: int)
    requires HasKey(rows, k) && Expired(rows[Find(rows, k)].expiry, now)
    ensures Touch(rows, k, now) == rows
  {
  }

  /** GetTTL reports a time left exactly when a read would hit, but for the one instant at which they are
      equal: a row expires strictly after its stamp, while its time left is already 0 at the stamp. */
  lemma TimeLeftWhenReadable(rows: seq<Row>, k: Bytes, now: int)
    ensures TimeLeft(rows, k, now).Hit? <==>
              Lookup(rows, k, now).Hit? && (rows[Find(rows, k)].expiry == 0 || rows[Find(rows, k)].expiry > now)
    ensures TimeLeft(rows, k, now).Hit? ==> Lookup(rows, k, now + TimeLeft(rows, k, now).value).Hit?
  {
  }

  /** The time reported is exact: 0 is a key that is readable at any time, otherwise the key is readable from now
      on until that much later and no longer. */
  lemma TimeLeftIsExact(rows: seq<Row>, k: Bytes, now: int, later: int)
    requires TimeLeft(rows, k, now).Hit? && 0 <= now <= later
    ensures var left := TimeLeft(rows, k, now).value;
            left >= 0 && (Lookup(rows, k, later).Hit? <==> left == 0 || later <= now + left)
  {
  }
}
