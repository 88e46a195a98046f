/** KVCache (kv_cache.go) on one node, with a BatchLoader: a local map, a Redis hash and the loader. */
module KvCache {
  import opened Common
  import opened KvSpec

  class KVCache<V(!new)> {
    var localCache: map<K, V>
    var hash: map<K, string>  // the Redis hash
    const codec: Codec<V>
    const batchLoader: Loader<V>

    ghost function State(): Tiers<V>
      reads this
    {
      Tiers(localCache, hash)
    }

    constructor (codec: Codec<V>, batchLoader: Loader<V>, hash: map<K, string>)
      ensures State() == Tiers(map[], hash)
      ensures this.codec == codec && this.batchLoader == batchLoader
    {
      this.codec, this.batchLoader := codec, batchLoader;
      localCache, this.hash := map[], hash;
    }

    /** The loop that builds the script's arguments; the first value that does not encode ends it. */
    method EncodeAll(items: map<K, V>) returns (fields: Option<map<K, string>>)
      ensures fields == if Encodable(codec, items) then Some(Encoded(codec, items)) else None
    {
      var done: map<K, string> := map[];
      var todo := items.Keys;
      while todo != {}
        invariant todo <= items.Keys && done.Keys == items.Keys - todo
        invariant forall k :: k in done ==> codec.enc(items[k]) == Some(done[k])
        decreases |todo|
      {
        var k :| k in todo;
        var field := codec.enc(items[k]);
        if field.None? {
          return None;
        }
        done := done[k := field.value];
        todo := todo - {k};
      }
      assert done == Encoded(codec, items);
      fields := Some(done);
    }

    /** The HSET script. */
    method WriteManyToRedis(items: map<K, V>, fate: Fate) returns (ok: bool)
      modifies this`hash
      ensures hash == Written(old(hash), codec, items, fate.Executed())
      ensures ok == (Encodable(codec, items) && (fate.Answered? || items == map[]))
    {
      WriteNothing(hash, codec, fate.Executed());
      if |items| == 0 {
        return true;
      }
      var fields := EncodeAll(items);
      if fields.None? {
        return false;
      }
      if fate.Executed() {
        hash := hash + fields.value;
      }
      ok := fate.Answered?;
    }

    /** value None and failed false is a key the source does not have. */
    method Get(key: K, down: bool, fate: Fate) returns (value: Option<V>, failed: bool)
      modifies this
      ensures var answer := GetAnswer(old(State()), codec, key, down, batchLoader);
              failed == answer.None? && value == if answer.Some? then answer.value else None
      ensures State() == AfterGet(old(State()), codec, key, down, batchLoader, fate.Executed())
    {
      if key in localCache {
        return Some(localCache[key]), false;
      }
      if !down && key in hash {
        var v := codec.dec(hash[key]);
        if v.Some? {
          localCache := localCache[key := v.value];
          return v, false;
        }
      }
      var loaded := batchLoader([key]);
      if loaded.None? {
        return None, true;
      }
      if key in loaded.value {
        localCache := localCache[key := loaded.value[key]];
        var _ := WriteManyToRedis(loaded.value, fate);
        return Some(loaded.value[key]), false;
      }
      return None, false;
    }

    method StoreAll(items: map<K, V>)
      modifies this`localCache
      ensures localCache == old(localCache) + items
    {
      var todo := items.Keys;
      while todo != {}
        invariant todo <= items.Keys
        invariant localCache == old(localCache) + (items - todo)
        decreases |todo|
      {
        var k :| k in todo;
        localCache := localCache[k := items[k]];
        todo := todo - {k};
      }
      assert items - {} == items;
    }

    /** The loop over HMGET's reply: fields that decode fill the local map, the rest stay missed. */
    method FillFromHash(missed: seq<K>) returns (seen: map<K, V>, still: seq<K>)
      modifies this`localCache
      ensures seen == Decoded(hash, codec, missed) && still == Absent(missed, seen)
      ensures localCache == old(localCache) + seen
    {
      hide Decoded, Absent;
      ghost var all := Decoded(hash, codec, missed);
      seen, still := map[], [];
      LoopStart(missed, all, hash, codec);
      PlusNothing(localCache);
      for i := 0 to |missed|
        invariant seen == Decoded(hash, codec, missed[..i])
        invariant still + Absent(missed[i..], all) == Absent(missed, all)
        invariant localCache == old(localCache) + seen
      {
        var k := missed[i];
        DecodedOneMore(hash, codec, missed, i);
        AbsentOneLess(missed, i, all, still);
        var v := if k in hash then codec.dec(hash[k]) else None;
        if v.Some? {
          localCache := localCache[k := v.value];
          seen := seen[k := v.value];
        } else {
          still := still + [k];
        }
      }
      LoopEnd(missed, all);
    }

    method BatchLoadAndFill(result: map<K, V>, keys: seq<K>, fate: Fate) returns (answer: Option<map<K, V>>)
      modifies this
      ensures var loaded := batchLoader(keys);
              && answer == (if loaded.None? then None else Some(result + loaded.value))
              && localCache == old(localCache) + (if loaded.None? then map[] else loaded.value)
              && hash == Written(old(hash), codec, if loaded.None? then map[] else loaded.value, fate.Executed())
    {
      WriteNothing(hash, codec, fate.Executed());
      PlusNothing(localCache);
      var loaded := batchLoader(keys);
      if loaded.None? {
        return None;
      }
      StoreAll(loaded.value);
      if |loaded.value| > 0 {
        var _ := WriteManyToRedis(loaded.value, fate);
      }
      answer := Some(result + loaded.value);
    }

    method GetMany(keys: seq<K>, down: bool, fate: Fate) returns (result: Option<map<K, V>>)
      modifies this
      ensures result == ManyAnswer(old(State()), codec, keys, down, batchLoader)
      ensures State() == AfterMany(old(State()), codec, keys, down, batchLoader, fate.Executed())
    {
      hide Absent, Restrict, Decoded, Written, Encodable;
      WriteNothing(hash, codec, fate.Executed());
      var hit, missed := SplitLocal(keys);
      PlusNothing(hit);
      PlusNothing(localCache);
      if missed == [] {
        NothingMissed(hash, codec);
        return Some(hit);
      }
      if down {
        NothingSeen<V>(missed);
        result := BatchLoadAndFill(hit, missed, fate);
        return;
      }
      var seen, still := FillFromHash(missed);
      if still != [] {
        result := BatchLoadAndFill(hit + seen, still, fate);
        return;
      }
      PlusNothing(localCache);
      result := Some(hit + seen);
    }

    /** The loop over the local map: what it has, and the keys it misses. */
    method SplitLocal(keys: seq<K>) returns (hit: map<K, V>, missed: seq<K>)
      ensures hit == Restrict(localCache, keys) && missed == Absent(keys, localCache)
    {
      hide Restrict, Absent;
      hit, missed := map[], [];
      LoopStart(keys, localCache, hash, codec);
      for i := 0 to |keys|
        invariant hit == Restrict(localCache, keys[..i])
        invariant missed + Absent(keys[i..], localCache) == Absent(keys, localCache)
      {
        RestrictOneMore(keys, i, localCache);
        AbsentOneLess(keys, i, localCache, missed);
        if keys[i] in localCache {
          hit := hit[keys[i] := localCache[keys[i]]];
        } else {
          missed := missed + [keys[i]];
        }
      }
      LoopEnd(keys, localCache);
    }

    /** The local map first, then the script; the caller hears of an encoding error or a failed request. */
    method SetMany(items: map<K, V>, fate: Fate) returns (ok: bool)
      modifies this
      ensures State() == AfterSet(old(State()), codec, items, fate.Executed())
      ensures ok == (Encodable(codec, items) && (fate.Answered? || items == map[]))
    {
      StoreAll(items);
      ok := WriteManyToRedis(items, fate);
    }

    method Set(key: K, value: V, fate: Fate) returns (ok: bool)
      modifies this
      ensures State() == AfterSet(old(State()), codec, map[key := value], fate.Executed())
      ensures ok == (codec.enc(value).Some? && fate.Answered?)
    {
      localCache := localCache[key := value];
      var field := codec.enc(value);
      if field.None? {
        assert !Encodable(codec, map[key := value]) by {
          assert codec.enc(map[key := value][key]).None?;
        }
        return false;
      }
      if fate.Executed() {
        hash := hash[key := field.value];
      }
      ok := fate.Answered?;
    }

    method Delete(key: K, fate: Fate) returns (ok: bool)
      modifies this
      ensures State() == AfterDelete(old(State()), {key}, fate.Executed())
      ensures ok == fate.Answered?
    {
      localCache := localCache - {key};
      if fate.Executed() {
        hash := hash - {key};
      }
      ok := fate.Answered?;
    }

    method DeleteMany(keys: seq<K>, fate: Fate) returns (ok: bool)
      modifies this
      ensures State() == AfterDelete(old(State()), ToSet(keys), fate.Executed())
      ensures ok == (fate.Answered? || keys == [])
    {
      for i := 0 to |keys|
        invariant localCache == old(localCache) - ToSet(keys[..i]) && hash == old(hash)
      {
        assert keys[..i + 1] == keys[..i] + [keys[i]];
        localCache := localCache - {keys[i]};
      }
      assert keys[..|keys|] == keys;
      if keys == [] {
        assert hash - ToSet(keys) == hash;
        return true;
      }
      if fate.Executed() {
        var gone := set k | k in keys;
        assert gone == ToSet(keys);
        hash := hash - gone;
      }
      ok := fate.Answered?;
    }
  }

  function NoItems<V>(): map<K, V> {
    map[]
  }

  lemma NothingMissed<V(!new)>(redis: map<K, string>, c: Codec<V>)
    ensures Decoded(redis, c, []) == map[]
    ensures forall m: map<K, V> :: Absent([], m) == []
  {
  }

  lemma NothingSeen<V(!new)>(keys: seq<K>)
    ensures Absent(keys, NoItems<V>()) == keys
  {
  }

  // ---- One round of a loop over keys ----

  lemma LoopStart<V(!new)>(keys: seq<K>, m: map<K, V>, redis: map<K, string>, c: Codec<V>)
    ensures Restrict(m, keys[..0]) == map[] && Decoded(redis, c, keys[..0]) == map[]
    ensures [] + Absent(keys[0..], m) == Absent(keys, m)
  {
  }

  lemma LoopEnd<V(!new)>(keys: seq<K>, m: map<K, V>)
    ensures keys[..|keys|] == keys
    ensures forall s: seq<K> :: s + Absent(keys[|keys|..], m) == s
  {
  }

  lemma RestrictOneMore<V(!new)>(keys: seq<K>, i: nat, m: map<K, V>)
    requires i < |keys|
    ensures Restrict(m, keys[..i + 1])
            == if keys[i] in m then Restrict(m, keys[..i])[keys[i] := m[keys[i]]] else Restrict(m, keys[..i])
  {
  }

  lemma DecodedOneMore<V(!new)>(redis: map<K, string>, c: Codec<V>, keys: seq<K>, i: nat)
    requires i < |keys|
    ensures var k, all, before := keys[i], Decoded(redis, c, keys), Decoded(redis, c, keys[..i]);
            && (k in all <==> k in redis && c.dec(redis[k]).Some?)
            && Decoded(redis, c, keys[..i + 1]) == if k in all then before[k := c.dec(redis[k]).value] else before
  {
  }

  lemma AbsentOneLess<V(!new)>(keys: seq<K>, i: nat, m: map<K, V>, done: seq<K>)
    requires i < |keys|
    ensures done + Absent(keys[i..], m)
            == (if keys[i] in m then done else done + [keys[i]]) + Absent(keys[i + 1..], m)
  {
  }
}
