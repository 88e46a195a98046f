/** How the sharded cache picks its shard count and capacity, and why `hash & mask` selects a shard. */
module ShardCount {
  import opened Common

  ghost predicate IsPow2(n: int) {
    exists k: nat :: n == Pow2(k)
  }

  /** Bitwise AND of two natural numbers. */
  function BitAnd(a: nat, b: nat): (r: nat)
    ensures r <= b
  {
    if a == 0 || b == 0 then 0
    else 2 * BitAnd(a / 2, b / 2) + (if a % 2 == 1 && b % 2 == 1 then 1 else 0)
  }

  function Rest(h: nat, m: nat): nat
    requires m >= 1
  {
    h % m
  }

  /** Masking with a power of two minus one is taking the remainder. */
  lemma MaskIsMod(h: nat, k: nat)
    ensures BitAnd(h, Pow2(k) - 1) == h % Pow2(k)
  {
    MaskIsRest(h, k);
  }

  lemma {:induction false} MaskIsRest(h: nat, k: nat)
    ensures BitAnd(h, Pow2(k) - 1) == Rest(h, Pow2(k))
    decreases k
  {
    hide BitAnd, Pow2, Rest;
    PowerSteps(k);
    if k == 0 {
      NoMask(h);
    } else {
      MaskIsRest(h / 2, k - 1);
      MaskHalf(h, Pow2(k - 1));
      HalfMod(h, Pow2(k - 1));
    }
  }

  lemma PowerSteps(k: nat)
    ensures Pow2(k) == if k == 0 then 1 else 2 * Pow2(k - 1)
  {
  }

  lemma NoMask(h: nat)
    ensures BitAnd(h, 0) == 0 == Rest(h, 1)
  {
  }

  /** The lowest bit passes the mask. */
  lemma MaskHalf(h: nat, p: nat)
    requires p >= 1
    ensures BitAnd(h, 2 * p - 1) == 2 * BitAnd(h / 2, p - 1) + h % 2
  {
    assert (2 * p - 1) / 2 == p - 1 && (2 * p - 1) % 2 == 1;
  }

  lemma HalfMod(h: nat, p: nat)
    requires p >= 1
    ensures Rest(h, 2 * p) == 2 * Rest(h / 2, p) + h % 2
  {
    var q, r := (h / 2) / p, (h / 2) % p;
    assert h == 2 * (q * p + r) + h % 2;
    ModUnique(h, 2 * p, q, 2 * r + h % 2);
  }

  lemma ModUnique(h: nat, m: nat, q: nat, r: nat)
    requires m >= 1 && r < m && h == q * m + r
    ensures h % m == r
  {
    var d := q - h / m;
    assert d * m == q * m - (h / m) * m;
    MultipleGrows(d, m);
  }

  lemma MultipleGrows(d: int, m: int)
    requires m >= 1
    ensures (d >= 1 ==> d * m >= m) && (d <= -1 ==> d * m <= -m)
  {
  }

  lemma Doubled(n: int)
    requires IsPow2(n)
    ensures IsPow2(2 * n)
  {
    var k: nat :| n == Pow2(k);
    assert 2 * n == Pow2(k + 1);
  }

  /** The limit actually applied: a non-positive argument means 16 shards of 64. */
  function Limit(maxEntries: int): (limit: int)
    ensures limit >= 1
  {
    if maxEntries <= 0 then 1024 else maxEntries
  }

  /** The room in all shards together. */
  function Slots(shards: int, capacity: int): int {
    shards * capacity
  }

  /** n is the least power of two that is at least 16 and at least the bound, or most if that is less. */
  ghost predicate Doubling(n: int, bound: int, most: int) {
    && IsPow2(n) && 16 <= n
    && (n >= bound || n >= most)
    && (n > 16 ==> n % 2 == 0 && n / 2 < bound && n / 2 < most)
  }

  /** The two doubling loops stop at powers of two: as many shards as a limit of 64 entries each takes, but no more
      than four for each processor, rounded up, nor than 256. The shard capacity is the limit divided among the
      shards, rounded up. */
  method ChooseShards(maxEntries: int, processors: int)
    returns (shardCount: int, shardCapacity: int, ghost shardCap: int)
    ensures IsPow2(shardCount) && 1 <= shardCount <= 256
    ensures Doubling(shardCap, 4 * processors, 256)
    ensures if Limit(maxEntries) < 16 then shardCount == 1 else Doubling(shardCount, Limit(maxEntries) / 64, shardCap)
    ensures shardCapacity >= 1
    ensures Limit(maxEntries) <= Slots(shardCount, shardCapacity) <= Limit(maxEntries) + shardCount - 1
    ensures maxEntries >= 1 && maxEntries < 16 ==> shardCount == 1 && shardCapacity == maxEntries
  {
    var limit := Limit(maxEntries);
    assert Pow2(0) == 1 && Pow2(4) == 16;
    shardCount := 16;
    if limit < 16 {
      shardCount := 1;
    }
    var maxShards := 4 * processors;
    var most := 16;
    while most < maxShards && most < 256
      invariant IsPow2(most) && most in {16, 32, 64, 128, 256}
      invariant most > 16 ==> most / 2 < maxShards
      decreases 256 - most
    {
      Doubled(most);
      most := most * 2;
    }
    shardCap := most;
    while shardCount < limit / 64 && shardCount < most
      invariant IsPow2(shardCount) && shardCount in {1, 16, 32, 64, 128, 256} && (shardCount == 1 <==> limit < 16)
      invariant shardCount > 16 ==> shardCount / 2 < limit / 64 && shardCount / 2 < most
      decreases 256 - shardCount
    {
      Doubled(shardCount);
      shardCount := shardCount * 2;
    }
    shardCapacity := (limit + shardCount - 1) / shardCount;
    RoundedUp(limit, shardCount);
    if shardCapacity < 1 {
      shardCapacity := 1;
    }
  }

  lemma RoundedUp(limit: int, n: int)
    requires limit >= 1 && n >= 1
    ensures var c := (limit + n - 1) / n;
            c >= 1 && limit <= n * c <= limit + n - 1
  {
  }
}
