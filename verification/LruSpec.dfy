/** Strict LRU with per-entry expiry, as a value: the keys in recency order and what they hold. */
module LruSpec {
  import opened Common

  /** value None is the nil that copying a slice of more than 100 MiB yields; expiry None never expires. */
  datatype Item = Item(value: Option<Bytes>, expiry: Option<int>)

  datatype Lru = Lru(order: seq<Bytes>, items: map<Bytes, Item>) {
    ghost predicate Ok(capacity: int) {
      NoDup(order) && |order| <= capacity && forall k :: k in order <==> k in items
    }
  }

  const MAX_VALUE_SIZE: int := 100 * 1024 * 1024
  const SECOND: int := 1_000_000_000

  function CopyBytes(v: Bytes): Option<Bytes> {
    if |v| > MAX_VALUE_SIZE then None else Some(v)
  }

  function ExpiryFor(ttl: int, now: int): Option<int> {
    if ttl > 0 then Some(now + ttl) else if ttl == 0 then Some(now - SECOND) else None
  }

  function Expired(item: Item, now: int): bool {
    item.expiry.Some? && now > item.expiry.value
  }

  function Without(s: seq<Bytes>, k: Bytes): (r: seq<Bytes>)
    ensures forall x :: x in r <==> x in s && x != k
    ensures |r| <= |s| && (k !in s ==> r == s)
  {
    if s == [] then [] else if s[0] == k then Without(s[1..], k) else [s[0]] + Without(s[1..], k)
  }

  function Removed(l: Lru, k: Bytes): Lru {
    Lru(Without(l.order, k), l.items - {k})
  }

  function Promoted(l: Lru, k: Bytes): Lru {
    l.(order := [k] + Without(l.order, k))
  }

  /** The key becomes the most recent one and holds item. */
  function Pushed(l: Lru, k: Bytes, item: Item): Lru {
    Lru([k] + Without(l.order, k), l.items[k := item])
  }

  /** Over capacity the least recent key goes. */
  function Trim(l: Lru, capacity: int): Lru {
    if capacity > 0 && |l.order| > capacity then
      var init, last := l.order[..|l.order| - 1], l.order[|l.order| - 1];
      Lru(init, l.items - {last})
    else l
  }

  datatype Op =
    | Get(k: Bytes, now: int)
    | GetTTL(k: Bytes, now: int)
    | Set(k: Bytes, v: Bytes, ttl: int, now: int)
    | Del(k: Bytes)
    | BatchItem(k: Bytes, now: int)  // one round of a batch read
  {
    function Now(): int {
      if Del? then 0 else now
    }
  }

  /** Lookup of a key that is purged when its time is over. */
  function Found(l: Lru, k: Bytes, now: int): bool {
    k in l.items && !Expired(l.items[k], now)
  }

  function Step(l: Lru, capacity: int, op: Op): Lru {
    match op
    case Get(k, now) =>
      if k !in l.items then l else if Expired(l.items[k], now) then Removed(l, k) else Promoted(l, k)
    case GetTTL(k, now) =>
      if k in l.items && Expired(l.items[k], now) then Removed(l, k) else l
    case Set(k, v, ttl, now) =>
      Trim(Pushed(l, k, Item(CopyBytes(v), ExpiryFor(ttl, now))), capacity)
    case Del(k) => Removed(l, k)
    case BatchItem(k, now) =>
      if k == [] || k !in l.items then l
      else if Expired(l.items[k], now) then Removed(l, k) else Promoted(l, k)
  }

  /** What a read answers; writes and GetTTL answer nothing here. A batch read turns nil into an empty slice
      and refuses the empty key. */
  function Reply(l: Lru, op: Op): Answer<Option<Bytes>> {
    match op
    case Get(k, now) => if Found(l, k, now) then Hit(l.items[k].value) else Fail(ErrNotFound)
    case BatchItem(k, now) =>
      if k == [] then Fail(ErrInvalidKey)
      else if Found(l, k, now) then Hit(Some(if l.items[k].value.Some? then l.items[k].value.value else []))
      else Fail(ErrNotFound)
    case GetTTL(_, _) => Fail(ErrNotFound)
    case Set(_, _, _, _) => Fail(ErrNotFound)
    case Del(_) => Fail(ErrNotFound)
  }

  function TimeLeft(l: Lru, k: Bytes, now: int): Answer<int> {
    if !Found(l, k, now) then Fail(ErrNotFound)
    else if l.items[k].expiry.None? then Hit(0) else Hit(l.items[k].expiry.value - now)
  }

  function Run(l: Lru, capacity: int, ops: seq<Op>): Lru {
    if ops == [] then l else Step(Run(l, capacity, ops[..|ops| - 1]), capacity, ops[|ops| - 1])
  }

  lemma RunSnoc(l: Lru, capacity: int, ops: seq<Op>, op: Op)
    ensures Run(l, capacity, ops + [op]) == Step(Run(l, capacity, ops), capacity, op)
  {
  }

  lemma RunNothing(l: Lru, capacity: int, ops: seq<Op>)
    ensures Run(l, capacity, ops[..0]) == l && ops[..|ops|] == ops
  {
  }

  lemma RunOneMore(l: Lru, capacity: int, ops: seq<Op>, i: nat)
    requires i < |ops|
    ensures Run(l, capacity, ops[..i + 1]) == Step(Run(l, capacity, ops[..i]), capacity, ops[i])
  {
    assert ops[..i + 1] == ops[..i] + [ops[i]];
    RunSnoc(l, capacity, ops[..i], ops[i]);
  }

  /** A batch read as a sequence of rounds, each at its own clock reading. */
  function BatchOps(keys: seq<Bytes>, clock: nat -> int): (ops: seq<Op>)
    ensures |ops| == |keys| && forall i :: 0 <= i < |keys| ==> ops[i] == BatchItem(keys[i], clock(i))
  {
    seq(|keys|, i requires 0 <= i < |keys| => BatchItem(keys[i], clock(i)))
  }

  const EMPTY: Lru := Lru([], map[])

  // ---- The list ----

  /** a is b with some elements left out. */
  predicate Subsequence<T(==)>(a: seq<T>, b: seq<T>) {
    a == [] || (b != [] && (Subsequence(a, b[1..]) || (a[0] == b[0] && Subsequence(a[1..], b[1..]))))
  }

  lemma {:induction false} SubsequenceMembers<T>(a: seq<T>, b: seq<T>)
    requires Subsequence(a, b)
    ensures |a| <= |b| && forall x :: x in a ==> x in b
  {
    if a == [] {
    } else {
      if Subsequence(a, b[1..]) {
        SubsequenceMembers(a, b[1..]);
      } else {
        SubsequenceMembers(a[1..], b[1..]);
        assert a == [a[0]] + a[1..];
      }
    }
  }

  /** Leaving the last element out of the longer list costs the shorter one at most its last. */
  lemma {:induction false} SubsequenceInit<T>(a: seq<T>, b: seq<T>)
    requires Subsequence(a, b) && a != []
    ensures Subsequence(a[..|a| - 1], b[..|b| - 1])
  {
    SubsequenceMembers(a, b);
    var a', b' := a[..|a| - 1], b[..|b| - 1];
    if a' == [] {
    } else if Subsequence(a, b[1..]) {
      SubsequenceMembers(a, b[1..]);
      SubsequenceInit(a, b[1..]);
      assert b[1..][..|b| - 2] == b'[1..];
    } else {
      SubsequenceMembers(a[1..], b[1..]);
      SubsequenceInit(a[1..], b[1..]);
      assert b[1..][..|b| - 2] == b'[1..] && a[1..][..|a| - 2] == a'[1..];
    }
  }

  lemma {:induction false} SubsequencePrefix<T>(a: seq<T>, b: seq<T>, n: nat)
    requires Subsequence(a, b) && n <= |a|
    ensures Subsequence(a[..n], b)
  {
    if n == 0 {
    } else {
      if Subsequence(a, b[1..]) {
        SubsequencePrefix(a, b[1..], n);
      } else {
        SubsequencePrefix(a[1..], b[1..], n - 1);
        assert a[..n][1..] == a[1..][..n - 1];
      }
    }
  }

  lemma {:induction false} SubsequenceWithout(a: seq<Bytes>, b: seq<Bytes>, k: Bytes)
    requires Subsequence(a, b)
    ensures Subsequence(Without(a, k), Without(b, k))
  {
    if a == [] {
    } else {
      var b' := Without(b[1..], k);
      if Subsequence(a, b[1..]) {
        SubsequenceWithout(a, b[1..], k);
        assert b[0] != k ==> ([b[0]] + b')[1..] == b';
      } else {
        SubsequenceWithout(a[1..], b[1..], k);
        assert b[0] != k ==> ([b[0]] + b')[1..] == b' && ([a[0]] + Without(a[1..], k))[1..] == Without(a[1..], k);
      }
    }
  }

  lemma SubsequenceCons<T>(x: T, a: seq<T>, b: seq<T>)
    requires Subsequence(a, b)
    ensures Subsequence([x] + a, [x] + b)
  {
  }

  lemma {:induction false} WithoutSize(s: seq<Bytes>, k: Bytes)
    requires NoDup(s)
    ensures NoDup(Without(s, k)) && |Without(s, k)| == |s| - (if k in s then 1 else 0)
  {
    if s == [] {
    } else {
      WithoutSize(s[1..], k);
      assert s[0] !in s[1..];
      var rest := Without(s[1..], k);
      assert forall i :: 0 <= i < |rest| ==> rest[i] in s[1..];
    }
  }

  // ---- One cache ----

  lemma PushedOk(l: Lru, capacity: int, k: Bytes, item: Item)
    requires l.Ok(capacity)
    ensures Pushed(l, k, item).Ok(capacity + 1)
    ensures |Pushed(l, k, item).order| == |l.order| + (if k in l.items then 0 else 1)
  {
    WithoutSize(l.order, k);
  }

  lemma TrimOk(l: Lru, capacity: int)
    requires l.Ok(capacity + 1) && capacity >= 1
    ensures Trim(l, capacity).Ok(capacity)
  {
  }

  /** Every operation keeps the list and the map in step and within the capacity. */
  lemma StepOk(l: Lru, capacity: int, op: Op)
    requires l.Ok(capacity) && capacity >= 1
    ensures Step(l, capacity, op).Ok(capacity)
  {
    WithoutSize(l.order, op.k);
    if op.Set? {
      var item := Item(CopyBytes(op.v), ExpiryFor(op.ttl, op.now));
      PushedOk(l, capacity, op.k, item);
      TrimOk(Pushed(l, op.k, item), capacity);
    }
  }

  /** What the two branches of a write amount to. */
  lemma PushedCases(l: Lru, capacity: int, k: Bytes, item: Item)
    requires l.Ok(capacity) && capacity >= 1
    ensures k in l.items ==> Trim(Pushed(l, k, item), capacity) == Promoted(l, k).(items := l.items[k := item])
    ensures k !in l.items ==> Pushed(l, k, item) == Lru([k] + l.order, l.items[k := item])
  {
    WithoutSize(l.order, k);
  }

  // ---- Recency ----

  /** The key an operation uses, if any: a write uses its key, a read uses the key it hits. */
  function Uses(l: Lru, op: Op): Option<Bytes> {
    match op
    case Set(k, _, _, _) => Some(k)
    case Get(k, now) => if Found(l, k, now) then Some(k) else None
    case BatchItem(k, now) => if k != [] && Found(l, k, now) then Some(k) else None
    case GetTTL(_, _) => None
    case Del(_) => None
  }

  /** The number of the last operation that used k, 0 when there is none. */
  function LastUse(capacity: int, ops: seq<Op>, k: Bytes): (n: nat)
    ensures n <= |ops|
  {
    if ops == [] then 0
    else if Uses(Run(EMPTY, capacity, ops[..|ops| - 1]), ops[|ops| - 1]) == Some(k) then |ops|
    else LastUse(capacity, ops[..|ops| - 1], k)
  }

  ghost predicate Descending(order: seq<Bytes>, rank: Bytes -> int) {
    forall i, j :: 0 <= i < j < |order| ==> rank(order[i]) > rank(order[j])
  }

  lemma {:induction false} DescendingWithout(order: seq<Bytes>, rank: Bytes -> int, k: Bytes)
    requires Descending(order, rank)
    ensures Descending(Without(order, k), rank)
  {
    hide Descending;
    if order == [] {
    } else {
      DescendingTail(order, rank);
      DescendingWithout(order[1..], rank, k);
      DescendingCons(order[0], Without(order[1..], k), rank);
    }
  }

  lemma DescendingTail(order: seq<Bytes>, rank: Bytes -> int)
    requires Descending(order, rank) && order != []
    ensures Descending(order[1..], rank) && forall x :: x in order[1..] ==> rank(order[0]) > rank(x)
  {
  }

  lemma DescendingCons(x: Bytes, rest: seq<Bytes>, rank: Bytes -> int)
    requires Descending(rest, rank) && forall y :: y in rest ==> rank(x) > rank(y)
    ensures Descending([x] + rest, rank)
  {
  }

  lemma StepOrder(l: Lru, capacity: int, op: Op)
    requires l.Ok(capacity) && capacity >= 1
    ensures var order, rest := Step(l, capacity, op).order, Without(l.order, op.k);
            if Uses(l, op).Some? then Uses(l, op).value == op.k && order <= [op.k] + rest
            else order == l.order || order == rest
  {
  }

  lemma StepDescending(l: Lru, capacity: int, op: Op, was: Bytes -> int, now: Bytes -> int, top: int)
    requires l.Ok(capacity) && capacity >= 1 && Descending(l.order, was)
    requires forall k :: was(k) < top && now(k) == if Uses(l, op) == Some(k) then top else was(k)
    ensures Descending(Step(l, capacity, op).order, now)
  {
    StepOrder(l, capacity, op);
    DescendingWithout(l.order, was, op.k);
    if Uses(l, op).Some? {
      UsedFirst(Without(l.order, op.k), was, now, op.k, Step(l, capacity, op).order);
    } else {
      SameRanks(Step(l, capacity, op).order, was, now);
    }
  }

  lemma UsedFirst(rest: seq<Bytes>, was: Bytes -> int, now: Bytes -> int, k: Bytes, order: seq<Bytes>)
    requires Descending(rest, was) && k !in rest && order <= [k] + rest
    requires forall x :: x in rest ==> now(x) == was(x) < now(k)
    ensures Descending(order, now)
  {
  }

  lemma SameRanks(order: seq<Bytes>, was: Bytes -> int, now: Bytes -> int)
    requires Descending(order, was) && forall x :: x in order ==> now(x) == was(x)
    ensures Descending(order, now)
  {
  }

  /** The list is sorted by last use, latest first: what Trim drops is the least recently used key. */
  lemma {:induction false} SortedByLastUse(capacity: int, ops: seq<Op>)
    requires capacity >= 1
    ensures Run(EMPTY, capacity, ops).Ok(capacity)
    ensures Descending(Run(EMPTY, capacity, ops).order, k => LastUse(capacity, ops, k))
  {
    if ops == [] {
    } else {
      var before, op := ops[..|ops| - 1], ops[|ops| - 1];
      SortedByLastUse(capacity, before);
      var l := Run(EMPTY, capacity, before);
      StepOk(l, capacity, op);
      StepDescending(l, capacity, op, k => LastUse(capacity, before, k), k => LastUse(capacity, ops, k), |ops|);
    }
  }

  // ---- Two caches ----

  /** The smaller cache's list is the larger one's with some keys left out, and it agrees on what they hold. */
  ghost predicate Agrees(a: Lru, b: Lru) {
    && Subsequence(a.order, b.order)
    && forall k :: k in a.items ==> k in b.items && a.items[k] == b.items[k]
  }

  /** Moreover the larger list is longer by no more than the capacities differ. */
  ghost predicate Within(a: Lru, n: int, b: Lru, m: int) {
    a.Ok(n) && b.Ok(m) && Agrees(a, b) && |b.order| - |a.order| <= m - n
  }

  lemma RemovedWithin(a: Lru, n: int, b: Lru, m: int, k: Bytes)
    requires Within(a, n, b, m)
    ensures Within(Removed(a, k), n, Removed(b, k), m)
    ensures k !in a.items ==> Within(a, n, Removed(b, k), m)
  {
    SubsequenceWithout(a.order, b.order, k);
    WithoutSize(a.order, k);
    WithoutSize(b.order, k);
  }

  lemma PromotedWithin(a: Lru, n: int, b: Lru, m: int, k: Bytes)
    requires Within(a, n, b, m) && k in b.items
    ensures k in a.items ==> Within(Promoted(a, k), n, Promoted(b, k), m)
    ensures k !in a.items ==> Within(a, n, Promoted(b, k), m)
  {
    hide NoDup, Without;
    SubsequenceWithout(a.order, b.order, k);
    PromotedOk(b, m, k);
    if k in a.items {
      PromotedOk(a, n, k);
      SubsequenceCons(k, Without(a.order, k), Without(b.order, k));
    } else {
      assert Promoted(b, k).order[1..] == Without(b.order, k);
    }
  }

  lemma PromotedOk(l: Lru, capacity: int, k: Bytes)
    requires l.Ok(capacity) && k in l.items
    ensures Promoted(l, k).Ok(capacity) && |Promoted(l, k).order| == |l.order|
  {
    WithoutSize(l.order, k);
  }

  lemma PushedWithin(a: Lru, n: int, b: Lru, m: int, k: Bytes, item: Item)
    requires Within(a, n, b, m)
    ensures Within(Pushed(a, k, item), n + 1, Pushed(b, k, item), m + 1)
  {
    PushedOk(a, n, k, item);
    PushedOk(b, m, k, item);
    SubsequenceWithout(a.order, b.order, k);
    SubsequenceCons(k, Without(a.order, k), Without(b.order, k));
  }

  /** The larger cache never evicts a key the smaller one keeps. */
  lemma TrimWithin(a: Lru, n: int, b: Lru, m: int)
    requires 1 <= n <= m && Within(a, n + 1, b, m + 1)
    ensures Within(Trim(a, n), n, Trim(b, m), m)
  {
    TrimOk(a, n);
    TrimOk(b, m);
    if |a.order| > n {
      SubsequenceInit(a.order, b.order);
      SubsequencePrefix(a.order, b.order, |a.order| - 1);
    }
    SubsequenceMembers(Trim(a, n).order, Trim(b, m).order);
  }

  lemma StepWithin(a: Lru, n: int, b: Lru, m: int, op: Op)
    requires Within(a, n, b, m) && 1 <= n <= m
    ensures Within(Step(a, n, op), n, Step(b, m, op), m)
  {
    RemovedWithin(a, n, b, m, op.k);
    if op.k in b.items {
      PromotedWithin(a, n, b, m, op.k);
    }
    if op.Set? {
      var item := Item(CopyBytes(op.v), ExpiryFor(op.ttl, op.now));
      PushedWithin(a, n, b, m, op.k, item);
      TrimWithin(Pushed(a, op.k, item), n, Pushed(b, op.k, item), m);
    }
  }

  lemma {:induction false} RunWithin(n: int, m: int, ops: seq<Op>)
    requires 1 <= n <= m
    ensures Within(Run(EMPTY, n, ops), n, Run(EMPTY, m, ops), m)
  {
    if ops == [] {
    } else {
      RunWithin(n, m, ops[..|ops| - 1]);
      StepWithin(Run(EMPTY, n, ops[..|ops| - 1]), n, Run(EMPTY, m, ops[..|ops| - 1]), m, ops[|ops| - 1]);
    }
  }

  /** Growing a strict LRU cache never loses a hit: fed the same operations at the same times, whatever the
      smaller cache hits, the larger one hits with the same value, and reports the same time left. */
  lemma BiggerNeverLosesHits(n: int, m: int, ops: seq<Op>, read: Op)
    requires 1 <= n <= m
    ensures var small, large := Run(EMPTY, n, ops), Run(EMPTY, m, ops);
            && (Reply(small, read).Hit? ==> Reply(large, read) == Reply(small, read))
            && (TimeLeft(small, read.k, read.Now()).Hit? ==>
                TimeLeft(large, read.k, read.Now()) == TimeLeft(small, read.k, read.Now()))
  {
    hide Run, Reply, TimeLeft;
    RunWithin(n, m, ops);
    SameAnswers(Run(EMPTY, n, ops), Run(EMPTY, m, ops), read);
  }

  lemma SameAnswers(small: Lru, large: Lru, read: Op)
    requires Agrees(small, large)
    ensures Reply(small, read).Hit? ==> Reply(large, read) == Reply(small, read)
    ensures TimeLeft(small, read.k, read.Now()).Hit? ==>
              TimeLeft(large, read.k, read.Now()) == TimeLeft(small, read.k, read.Now())
  {
  }
}
