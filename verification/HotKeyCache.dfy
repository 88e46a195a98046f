/** HotKeyCache (hotkey.go): the local map and its insertion-order list, updated in place under one lock. */
module HotKeyCache {
  import opened Common
  import opened HotKeySpec

  class HotKeyCache {
    var localCache: map<K, V>
    var accessOrder: seq<K>
    var lastRefreshTime: int
    const maxLocalCacheSize: nat
    const refreshInterval: int
    ghost var history: seq<Event>

    /** The local state is what the history made of it. */
    ghost predicate Valid()
      reads this
    {
      State() == After(history) && forall e :: e in history ==> Possible(e)
    }

    /** An event that has just taken place enters the history. */
    ghost method Note(e: Event)
      requires Possible(e) && State() == Step(After(history), e) && forall e' :: e' in history ==> Possible(e')
      modifies this`history
      ensures Valid() && history == old(history) + [e]
    {
      OneMore(history, e);
      hide Step, Possible;
      history := history + [e];
    }

    ghost function State(): Local
      reads this
    {
      Local(localCache, accessOrder)
    }

    constructor (max: int, interval: int)
      ensures Valid() && history == [] && maxLocalCacheSize >= 1
      ensures max > 0 ==> maxLocalCacheSize == max
    {
      localCache, accessOrder, lastRefreshTime, history := map[], [], 0, [];
      maxLocalCacheSize := if max > 0 then max else 10000;
      refreshInterval := if interval != 0 then interval else 600_000_000_000;
    }

    /** The refill of SetAll and LoadAll. */
    method Refill(data: map<K, V>, now: int)
      requires Valid()
      modifies this
      ensures Valid() && Lists(accessOrder, data)
      ensures State() == Step(old(State()), Replace(data, accessOrder))
      ensures history == old(history) + [Replace(data, accessOrder)]
      ensures lastRefreshTime == now
    {
      hide After, Lists;
      Fill(data, now);
      Note(Replace(data, accessOrder));
    }

    /** Its loop: the map's keys arrive in an arbitrary order. */
    method Fill(data: map<K, V>, now: int)
      modifies this`localCache, this`accessOrder, this`lastRefreshTime
      ensures Lists(accessOrder, data)
      ensures State() == Step(old(State()), Replace(data, accessOrder))
      ensures lastRefreshTime == now
    {
      hide NoDup;
      localCache, accessOrder := map[], [];
      EmptyLists();
      var todo := data.Keys;
      while todo != {}
        invariant todo <= data.Keys
        invariant Lists(accessOrder, localCache)
        invariant localCache.Keys == data.Keys - todo
        invariant forall k :: k in localCache ==> localCache[k] == data[k]
        decreases |todo|
      {
        var k :| k in todo;
        AppendLists(State(), k, data[k]);
        localCache := localCache[k := data[k]];
        accessOrder := accessOrder + [k];
        todo := todo - {k};
      }
      assert localCache == data;
      lastRefreshTime := now;
    }

    /** What a load answers: the Redis value, and without one the loader's. */
    static function Source(cached: Option<map<K, V>>, loaded: Option<map<K, V>>): Option<map<K, V>> {
      if cached.Some? then cached else loaded
    }

    /** What a load leaves: the local state replaced by the answer and stamped, but for a failed or empty load. */
    ghost predicate Refilled(was: Local, stamp: int, log: seq<Event>, cached: Option<map<K, V>>,
                             loaded: Option<map<K, V>>, now: int)
      reads this
    {
      if cached.Some? || (loaded.Some? && loaded.value != map[]) then
        && Lists(accessOrder, Source(cached, loaded).value) && lastRefreshTime == now
        && State() == Step(was, Replace(Source(cached, loaded).value, accessOrder))
        && history == log + [Replace(Source(cached, loaded).value, accessOrder)]
      else State() == was && lastRefreshTime == stamp && history == log
    }

    /** cached is the decoded Redis value, None when it is missing, empty or unreadable; loaded is the
        loader's answer, None for an error. */
    method LoadAll(cached: Option<map<K, V>>, loaded: Option<map<K, V>>, now: int)
      returns (data: Option<map<K, V>>)
      requires Valid()
      modifies this
      ensures Valid()
      ensures data == Source(cached, loaded)
      ensures Refilled(old(State()), old(lastRefreshTime), old(history), cached, loaded, now)
    {
      if cached.Some? {
        Refill(cached.value, now);
        return cached;
      }
      if loaded.Some? && |loaded.value| > 0 {
        Refill(loaded.value, now);
      }
      return loaded;
    }

    /** A local hit is the key's last value, changes nothing and asks nobody; a miss loads everything. */
    method Get(key: K, cached: Option<map<K, V>>, loaded: Option<map<K, V>>, now: int)
      returns (value: Option<V>, failed: bool)
      requires Valid()
      modifies this
      ensures Valid()
      ensures key in old(localCache) ==>
                && value == Some(old(localCache[key])) == LastValue(old(history), key) && !failed
                && State() == old(State()) && lastRefreshTime == old(lastRefreshTime) && history == old(history)
      ensures key !in old(localCache) ==>
                var data := Source(cached, loaded);
                && Refilled(old(State()), old(lastRefreshTime), old(history), cached, loaded, now)
                && failed == data.None?
                && value == if data.Some? && key in data.value then Some(data.value[key]) else None
    {
      if key in localCache {
        ItemsAreLastValues(history, key);
        return Some(localCache[key]), false;
      }
      var data := LoadAll(cached, loaded, now);
      failed := data.None?;
      value := if data.Some? && key in data.value then Some(data.value[key]) else None;
    }

    /** Within the refresh interval the local map is the answer, even when it is empty. */
    method GetAll(cached: Option<map<K, V>>, loaded: Option<map<K, V>>, now: int) returns (data: Option<map<K, V>>)
      requires Valid()
      modifies this
      ensures Valid()
      ensures now - old(lastRefreshTime) < refreshInterval ==>
                data == Some(localCache) && State() == old(State()) && history == old(history)
                && lastRefreshTime == old(lastRefreshTime)
      ensures now - old(lastRefreshTime) >= refreshInterval ==>
                && data == Source(cached, loaded)
                && Refilled(old(State()), old(lastRefreshTime), old(history), cached, loaded, now)
    {
      if now - lastRefreshTime < refreshInterval {
        return Some(localCache);
      }
      data := LoadAll(cached, loaded, now);
    }

    method Set(key: K, value: V)
      requires Valid()
      modifies this`localCache, this`accessOrder, this`history
      ensures Valid() && history == old(history) + [Event.Set(key, value)]
    {
      hide After;
      if key !in localCache {
        accessOrder := accessOrder + [key];
      }
      localCache := localCache[key := value];
      Note(Event.Set(key, value));
    }

    method SetAll(data: map<K, V>, now: int)
      requires Valid()
      modifies this
      ensures Valid() && Lists(accessOrder, data)
      ensures history == old(history) + [Replace(data, accessOrder)] && lastRefreshTime == now
    {
      Refill(data, now);
    }

    method Delete(key: K)
      requires Valid()
      modifies this`localCache, this`history
      ensures Valid() && history == old(history) + [Event.Delete(key)]
    {
      hide After;
      localCache := localCache - {key};
      Note(Event.Delete(key));
    }

    method Clear(now: int)
      requires Valid()
      modifies this
      ensures Valid() && history == old(history) + [Replace(map[], [])]
      ensures localCache == map[] && accessOrder == [] && lastRefreshTime == now
    {
      hide After;
      localCache, accessOrder, lastRefreshTime := map[], [], now;
      EmptyLists();
      Note(Replace(map[], []));
    }

    /** One tick of the cleanup loop: over the limit it removes a fifth of the live keys, but at least one. */
    method CleanupTick()
      requires Valid()
      modifies this`localCache, this`accessOrder, this`history
      ensures Valid() && history == old(history) + [Cleanup(maxLocalCacheSize)]
      ensures var size, n := |old(localCache)|, |old(localCache)| - |localCache|;
              if size <= maxLocalCacheSize then n == 0
              else n >= 1 && (n == 1 || 5 * n <= size) && size < 5 * (n + 1)
    {
      hide After, Trimmed, Evict;
      CleanupMeetsQuota(history, maxLocalCacheSize);
      Sweep();
      Note(Cleanup(maxLocalCacheSize));
    }

    method Sweep()
      modifies this`localCache, this`accessOrder
      ensures State() == Step(old(State()), Cleanup(maxLocalCacheSize))
    {
      hide Evict;
      var cacheSize := |localCache|;
      if cacheSize > maxLocalCacheSize {
        EvictOldest(Clamp(cacheSize / 5, 1, cacheSize));
      }
    }

    method EvictOldest(toEvict: nat)
      modifies this`localCache, this`accessOrder
      ensures State() == Evict(old(State()), toEvict)
    {
      hide Evict, Unwalked;
      var evicted, newOrder, i := 0, [], 0;
      WalkStarts(State(), toEvict);
      while i < |accessOrder|
        invariant 0 <= i <= |accessOrder| && accessOrder == old(accessOrder)
        invariant evicted <= toEvict && (evicted < toEvict ==> newOrder == [])
        invariant Evict(old(State()), toEvict) == Unwalked(localCache, newOrder, accessOrder, i, toEvict - evicted)
      {
        var key := accessOrder[i];
        WalkOne(localCache, newOrder, accessOrder, i, toEvict - evicted);
        if evicted < toEvict {
          if key in localCache {
            localCache := localCache - {key};
            evicted := evicted + 1;
          }
        } else {
          newOrder := newOrder + [key];
        }
        i := i + 1;
      }
      WalkEnds(localCache, newOrder, accessOrder, toEvict - evicted);
      accessOrder := newOrder;
    }
  }

  // ---- The cleanup walk ----

  /** Where the walk will end from position i, with n keys still to remove. */
  ghost function Unwalked(items: map<K, V>, kept: seq<K>, order: seq<K>, i: nat, n: nat): Local
    requires i <= |order|
  {
    var r := Evict(Local(items, order[i..]), n);
    Local(r.items, kept + r.order)
  }

  lemma WalkStarts(l: Local, n: nat)
    ensures Evict(l, n) == Unwalked(l.items, [], l.order, 0, n)
  {
  }

  lemma WalkOne(items: map<K, V>, kept: seq<K>, order: seq<K>, i: nat, n: nat)
    requires i < |order| && (n > 0 ==> kept == [])
    ensures var key := order[i];
            Unwalked(items, kept, order, i, n)
            == if n == 0 then Unwalked(items, kept + [key], order, i + 1, 0)
               else if key in items then Unwalked(items - {key}, kept, order, i + 1, n - 1)
               else Unwalked(items, kept, order, i + 1, n)
  {
    assert order[i..] == [order[i]] + order[i + 1..] && order[i..][1..] == order[i + 1..];
    if n == 0 {
      assert kept + order[i..] == kept + [order[i]] + order[i + 1..];
    } else if order[i] !in items {
      assert items - {order[i]} == items;
    }
  }

  lemma WalkEnds(items: map<K, V>, kept: seq<K>, order: seq<K>, n: nat)
    ensures Unwalked(items, kept, order, |order|, n) == Local(items, kept)
  {
  }
}
