/** Three-tier reads as values: a local map in front of a Redis hash of encoded values in front of a data source. */
module KvSpec {
  import opened Common

  /** A key, standing for its hash field too: distinct keys have distinct fields. */
  type K = nat

  /** How values become hash fields. dec None is an entry that cannot be read back. */
  datatype Codec<!V> = Codec(enc: V -> Option<string>, dec: string -> Option<V>)

  datatype Tiers<V> = Tiers(local: map<K, V>, redis: map<K, string>)

  function Restrict<V>(m: map<K, V>, keys: seq<K>): map<K, V> {
    map k | k in keys && k in m :: m[k]
  }

  /** The keys m does not have, repetitions kept. */
  function Absent<V>(keys: seq<K>, m: map<K, V>): (r: seq<K>)
    ensures forall k :: k in r <==> k in keys && k !in m
  {
    if keys == [] then []
    else (if keys[0] in m then [] else [keys[0]]) + Absent(keys[1..], m)
  }

  /** What the hash yields for these keys. */
  function Decoded<V>(redis: map<K, string>, c: Codec<V>, keys: seq<K>): map<K, V> {
    map k | k in keys && k in redis && c.dec(redis[k]).Some? :: c.dec(redis[k]).value
  }

  predicate Encodable<V>(c: Codec<V>, items: map<K, V>) {
    forall k :: k in items ==> c.enc(items[k]).Some?
  }

  function Encoded<V>(c: Codec<V>, items: map<K, V>): map<K, string>
    requires Encodable(c, items)
  {
    map k | k in items :: c.enc(items[k]).value
  }

  /** One script run writes all fields; one value that cannot be encoded stops it before it starts. */
  function Written<V>(redis: map<K, string>, c: Codec<V>, items: map<K, V>, applied: bool): map<K, string> {
    if applied && Encodable(c, items) then redis + Encoded(c, items) else redis
  }

  type Loader<V> = seq<K> -> Option<map<K, V>>

  /** down: the hash could not be read. None is the loader's failure. */
  function ManyAnswer<V>(t: Tiers<V>, c: Codec<V>, keys: seq<K>, down: bool, load: Loader<V>): Option<map<K, V>> {
    var hit, missed := Restrict(t.local, keys), Absent(keys, t.local);
    var seen := if down then map[] else Decoded(t.redis, c, missed);
    var still := Absent(missed, seen);
    if still == [] then Some(hit + seen)
    else
      match load(still)
      case None => None
      case Some(loaded) => Some(hit + seen + loaded)
  }

  /** Reads fill the tiers above the one that answered. */
  function AfterMany<V>(t: Tiers<V>, c: Codec<V>, keys: seq<K>, down: bool, load: Loader<V>, applied: bool): Tiers<V> {
    var missed := Absent(keys, t.local);
    var seen := if down then map[] else Decoded(t.redis, c, missed);
    var still := Absent(missed, seen);
    var loaded := if still == [] || load(still).None? then map[] else load(still).value;
    Tiers(t.local + seen + loaded, Written(t.redis, c, loaded, applied))
  }

  /** A read of one key. Some(None) is a key the source does not have. */
  function GetAnswer<V>(t: Tiers<V>, c: Codec<V>, k: K, down: bool, load: Loader<V>): Option<Option<V>> {
    if k in t.local then Some(Some(t.local[k]))
    else if !down && k in t.redis && c.dec(t.redis[k]).Some? then Some(c.dec(t.redis[k]))
    else
      match load([k])
      case None => None
      case Some(loaded) => Some(if k in loaded then Some(loaded[k]) else None)
  }

  function AfterGet<V>(t: Tiers<V>, c: Codec<V>, k: K, down: bool, load: Loader<V>, applied: bool): Tiers<V> {
    if k in t.local then t
    else if !down && k in t.redis && c.dec(t.redis[k]).Some? then t.(local := t.local[k := c.dec(t.redis[k]).value])
    else
      match load([k])
      case None => t
      case Some(loaded) =>
        if k in loaded then Tiers(t.local[k := loaded[k]], Written(t.redis, c, loaded, applied)) else t
  }

  function AfterSet<V>(t: Tiers<V>, c: Codec<V>, items: map<K, V>, applied: bool): Tiers<V> {
    Tiers(t.local + items, Written(t.redis, c, items, applied))
  }

  function AfterDelete<V>(t: Tiers<V>, keys: set<K>, applied: bool): Tiers<V> {
    Tiers(t.local - keys, if applied then t.redis - keys else t.redis)
  }

  // ---- Agreement with the source ----

  /** The tiers say nothing the source does not say. */
  ghost predicate Agrees<V(!new)>(t: Tiers<V>, c: Codec<V>, source: map<K, V>) {
    && (forall k :: k in t.local ==> k in source && t.local[k] == source[k])
    && (forall k :: k in t.redis ==> Honest(t.redis[k], c, source, k))
  }

  /** What a field yields is v or nothing. */
  ghost predicate Yields<V(!new)>(c: Codec<V>, s: string, v: V) {
    c.dec(s).None? || c.dec(s).value == v
  }

  ghost predicate Honest<V(!new)>(s: string, c: Codec<V>, source: map<K, V>, k: K) {
    c.dec(s).None? || (k in source && Yields(c, s, source[k]))
  }

  /** A value that, once encoded, reads back as itself or not at all. */
  ghost predicate Safe<V(!new)>(c: Codec<V>, v: V) {
    c.enc(v).Some? ==> Yields(c, c.enc(v).value, v)
  }

  ghost predicate SafeMap<V(!new)>(c: Codec<V>, m: map<K, V>) {
    forall k :: k in m ==> Safe(c, m[k])
  }

  /** The loader looks up exactly the keys it is given, or fails. */
  ghost predicate Loads<V(!new)>(load: Loader<V>, source: map<K, V>) {
    forall keys :: load(keys).None? || load(keys).value == Restrict(source, keys)
  }

  lemma DecodedAgrees<V(!new)>(t: Tiers<V>, c: Codec<V>, keys: seq<K>, source: map<K, V>)
    requires Agrees(t, c, source)
    ensures forall k :: k in Decoded(t.redis, c, keys) ==>
              k in keys && k in source && Decoded(t.redis, c, keys)[k] == source[k]
  {
  }

  /** Reads are transparent: whatever the tiers hold and even when Redis cannot be read, the answer is the
      source restricted to the keys, unless the loader was needed and failed. */
  lemma ReadsAreTransparent<V(!new)>(t: Tiers<V>, c: Codec<V>, source: map<K, V>, keys: seq<K>, down: bool,
                                     load: Loader<V>)
    requires Agrees(t, c, source) && Loads(load, source)
    ensures var missed := Absent(keys, t.local);
            var still := Absent(missed, if down then map[] else Decoded(t.redis, c, missed));
            ManyAnswer(t, c, keys, down, load)
            == if still != [] && load(still).None? then None else Some(Restrict(source, keys))
  {
    hide Decoded, Restrict;
    var missed := Absent(keys, t.local);
    DecodedAgrees(t, c, missed, source);
    var seen := if down then map[] else Decoded(t.redis, c, missed);
    var still := Absent(missed, seen);
    Pieces(keys, t.local, seen, source);
    if still != [] && load(still).Some? {
      assert load(still).value == Restrict(source, still);
    }
  }

  /** A lookup split over two partial copies and the source itself adds up to the lookup in the source. */
  lemma Pieces<V(!new)>(keys: seq<K>, first: map<K, V>, second: map<K, V>, source: map<K, V>)
    requires forall k :: k in first ==> k in source && first[k] == source[k]
    requires forall k :: k in second ==> k in keys && k in source && second[k] == source[k]
    ensures var still := Absent(Absent(keys, first), second);
            && Restrict(first, keys) + second + Restrict(source, still) == Restrict(source, keys)
            && (still == [] ==> Restrict(first, keys) + second == Restrict(source, keys))
  {
    hide Absent;
    var still := Absent(Absent(keys, first), second);
    var hit, rest, whole := Restrict(first, keys), Restrict(source, still), Restrict(source, keys);
    assert hit.Keys + second.Keys + rest.Keys == whole.Keys;
    var sum := hit + second;
    assert forall k :: k in sum ==> sum[k] == source[k];
    assert sum + rest == whole;
    if still == [] {
      assert rest == map[] && sum + rest == sum;
    }
  }

  /** And they keep the agreement, if what the loader returns can be encoded safely. */
  lemma ReadsKeepAgreement<V(!new)>(t: Tiers<V>, c: Codec<V>, source: map<K, V>, keys: seq<K>, down: bool,
                                    load: Loader<V>, applied: bool)
    requires Agrees(t, c, source) && Loads(load, source) && SafeMap(c, source)
    ensures Agrees(AfterMany(t, c, keys, down, load, applied), c, source)
  {
    var missed := Absent(keys, t.local);
    DecodedAgrees(t, c, missed, source);
    var seen := if down then map[] else Decoded(t.redis, c, missed);
    var still := Absent(missed, seen);
    var loaded := if still == [] || load(still).None? then map[] else load(still).value;
    assert loaded == map[] || loaded == Restrict(source, still);
    WriteHonest(t, c, loaded, applied, source);
  }

  lemma WriteHonest<V(!new)>(t: Tiers<V>, c: Codec<V>, items: map<K, V>, applied: bool, source: map<K, V>)
    requires Agrees(t, c, source)
    requires forall k :: k in items ==> k in source && items[k] == source[k] && Safe(c, items[k])
    ensures forall k :: k in Written(t.redis, c, items, applied) ==>
              Honest(Written(t.redis, c, items, applied)[k], c, source, k)
  {
  }

  /** A read warms the local map: what it answers is there afterwards, so that the same read asks nobody, and
      everything else stays. */
  lemma ReadsWarmTheLocalMap<V(!new)>(t: Tiers<V>, c: Codec<V>, keys: seq<K>, down: bool, load: Loader<V>,
                                      applied: bool)
    requires ManyAnswer(t, c, keys, down, load).Some?
    ensures var local := AfterMany(t, c, keys, down, load, applied).local;
            var answer := ManyAnswer(t, c, keys, down, load).value;
            && (forall k :: k in answer ==> k in local && local[k] == answer[k])
            && (forall k :: k in t.local && k !in answer ==> k in local && local[k] == t.local[k])
            && (forall k :: k in local ==> k in t.local || k in answer)
  {
    hide Absent, Decoded, Written;
  }

  /** And the hash: what it answers was in one of the tiers or is in the hash afterwards, if the request got there
      and the values can be encoded; everything else stays. */
  lemma ReadsWarmTheHash<V(!new)>(t: Tiers<V>, c: Codec<V>, keys: seq<K>, down: bool, load: Loader<V>, applied: bool,
                                  k: K)
    requires ManyAnswer(t, c, keys, down, load).Some?
    ensures var redis := AfterMany(t, c, keys, down, load, applied).redis;
            var answer := ManyAnswer(t, c, keys, down, load).value;
            && (k in t.redis ==> k in redis)
            && (k !in answer || !applied ==> (k in redis <==> k in t.redis) && (k in redis ==> redis[k] == t.redis[k]))
            && (applied && Encodable(c, answer) && k in answer && k !in t.local ==>
                  k in redis && (c.enc(answer[k]) == Some(redis[k]) || (k in t.redis && redis[k] == t.redis[k])))
  {
    var missed := Absent(keys, t.local);
    var seen := if down then map[] else Decoded(t.redis, c, missed);
    var still := Absent(missed, seen);
    hide Absent;
    if still != [] {
      var answer, loaded := ManyAnswer(t, c, keys, down, load).value, load(still).value;
      assert forall x :: x in loaded ==> x in answer && answer[x] == loaded[x];
    }
  }

  /** A write is read back, whatever became of its request, and a deletion leaves the local map without the key and
      the hash too if it got there; no other key is touched. */
  lemma WritesTouchTheirKeys<V(!new)>(t: Tiers<V>, c: Codec<V>, items: map<K, V>, applied: bool, k: K, down: bool,
                                      load: Loader<V>)
    ensures var r := AfterSet(t, c, items, applied);
            if k in items then GetAnswer(r, c, k, down, load) == Some(Some(items[k])) && k in r.local
            else SameKey(t, r, k)
    ensures var r := AfterDelete(t, items.Keys, applied);
            if k in items then k !in r.local && (k in r.redis ==> !applied && k in t.redis && r.redis[k] == t.redis[k])
            else SameKey(t, r, k)
  {
  }

  /** The tiers hold the same under this key. */
  ghost predicate SameKey<V(!new)>(t: Tiers<V>, r: Tiers<V>, k: K) {
    && (k in r.local <==> k in t.local) && (k in t.local ==> r.local[k] == t.local[k])
    && (k in r.redis <==> k in t.redis) && (k in t.redis ==> r.redis[k] == t.redis[k])
  }

  /** A write agrees with the source it updates exactly when every key it touches is left with a hash field
      that reads back as the new value or not at all: a lost write must not leave an older value behind, and
      a value must survive its encoding. */
  lemma SetAgrees<V(!new)>(t: Tiers<V>, c: Codec<V>, source: map<K, V>, items: map<K, V>, applied: bool)
    requires Agrees(t, c, source)
    ensures Agrees(AfterSet(t, c, items, applied), c, source + items)
            <==> if applied && Encodable(c, items) then SafeMap(c, items)
                 else forall k :: k in items && k in t.redis ==> Yields(c, t.redis[k], items[k])
  {
    var r, updated := AfterSet(t, c, items, applied), source + items;
    forall k | k in t.redis && k !in items ensures Honest(t.redis[k], c, updated, k) {
      assert Honest(t.redis[k], c, source, k);
    }
    forall k | k in items && k in r.redis
      ensures Honest(r.redis[k], c, updated, k) <==> Yields(c, r.redis[k], items[k])
    {
    }
    if applied && Encodable(c, items) {
      forall k | k in items ensures k in r.redis && r.redis[k] == c.enc(items[k]).value {
      }
    }
  }

  /** A deletion agrees exactly when it reached Redis or there was nothing readable to delete there. */
  lemma DeleteAgrees<V(!new)>(t: Tiers<V>, c: Codec<V>, source: map<K, V>, keys: set<K>, applied: bool)
    requires Agrees(t, c, source)
    ensures Agrees(AfterDelete(t, keys, applied), c, source - keys)
            <==> applied || forall k :: k in keys && k in t.redis ==> c.dec(t.redis[k]).None?
  {
  }

  /** A loader that looks up the source, or fails. */
  function LoaderOf<V>(source: map<K, V>, fails: bool): Loader<V> {
    keys => if fails then None else Some(Restrict(source, keys))
  }

  // ---- Single keys ----

  function AsMap<V>(k: K, answer: Option<Option<V>>): Option<map<K, V>> {
    match answer
    case None => None
    case Some(None) => Some(map[])
    case Some(Some(v)) => Some(map[k := v])
  }

  /** Get is GetMany of one key, answer and tiers alike, for a loader that returns no more than it is asked. */
  lemma GetIsGetManyOfOne<V(!new)>(t: Tiers<V>, c: Codec<V>, k: K, down: bool, load: Loader<V>, applied: bool)
    requires load([k]).Some? ==> load([k]).value.Keys <= {k}
    ensures AsMap(k, GetAnswer(t, c, k, down, load)) == ManyAnswer(t, c, [k], down, load)
    ensures AfterGet(t, c, k, down, load, applied) == AfterMany(t, c, [k], down, load, applied)
  {
    hide Absent, Restrict, Decoded, Written, Encodable;
    AbsentOne(k, t.local);
    var hit, missed := Restrict(t.local, [k]), Absent([k], t.local);
    var seen := if down then map[] else Decoded(t.redis, c, missed);
    AbsentOne(k, seen);
    OneField(t, c, k, missed);
    PlusNothing(t.local);
    PlusNothing(hit);
    PlusNothing(seen);
    WriteNothing(t.redis, c, applied);
    if k !in t.local && k in seen {
      PlusNothing(t.local + seen);
      assert t.local + seen == t.local[k := seen[k]];
    } else if k !in t.local && load([k]).Some? {
      var loaded := load([k]).value;
      PlusNothing(loaded);
      if k in loaded {
        assert loaded == map[k := loaded[k]];
        assert t.local + loaded == t.local[k := loaded[k]];
      } else {
        assert loaded == map[];
      }
    }
  }

  lemma AbsentOne<V(!new)>(k: K, m: map<K, V>)
    ensures Absent([k], m) == if k in m then [] else [k]
    ensures Absent([], m) == []
    ensures Restrict(m, [k]) == if k in m then map[k := m[k]] else map[]
  {
  }

  lemma PlusNothing<V(!new)>(m: map<K, V>)
    ensures m + map[] == m && map[] + m == m
  {
  }

  lemma WriteNothing<V(!new)>(redis: map<K, string>, c: Codec<V>, applied: bool)
    ensures Written(redis, c, map[], applied) == redis
  {
  }

  lemma OneField<V(!new)>(t: Tiers<V>, c: Codec<V>, k: K, keys: seq<K>)
    requires keys == [] || keys == [k]
    ensures Decoded(t.redis, c, keys)
            == if keys == [k] && k in t.redis && c.dec(t.redis[k]).Some?
                then map[k := c.dec(t.redis[k]).value] else map[]
  {
  }

  /** A value that does not survive its encoding is served changed: read it once, lose the local copy, read
      it again. */
  lemma UnsafeValueComesBackChanged<V(!new)>(c: Codec<V>, k: K, v: V)
    requires !Safe(c, v)
    ensures var source, load := map[k := v], LoaderOf(map[k := v], false);
            var t := AfterMany(Tiers(map[], map[]), c, [k], false, load, true);
            && ManyAnswer(t, c, [k], false, load) == Some(source)
            && ManyAnswer(t.(local := t.local - {k}), c, [k], false, load)
               == Some(map[k := c.dec(c.enc(v).value).value])
            && c.dec(c.enc(v).value).value != v
  {
    hide ManyAnswer, AfterMany, Restrict;
    var source, load := map[k := v], LoaderOf(map[k := v], false);
    AbsentOne(k, source);
    var filled := Tiers(source, map[k := c.enc(v).value]);
    GetIsGetManyOfOne(Tiers(map[], map[]), c, k, false, load, true);
    assert Written(map[], c, source, true) == filled.redis;
    assert load([k]) == Some(source);
    GetIsGetManyOfOne(filled, c, k, false, load, true);
    GetIsGetManyOfOne(filled.(local := filled.local - {k}), c, k, false, load, true);
  }

  // ---- The codec of string values ----

  /** Strings are stored as they are, but a leading quote makes the reader take the field for JSON. unquote is
      the JSON string parser, which is not part of this model: None is a parse error. */
  function StringCodec(unquote: string -> Option<string>): Codec<string> {
    Codec(s => Some(s), s => if s != "" && s[0] == '"' then unquote(s) else Some(s))
  }

  /** A string survives exactly when it does not start with a quote, or is not JSON, or is its own meaning. */
  lemma StringSafe(unquote: string -> Option<string>, s: string)
    ensures Safe(StringCodec(unquote), s) <==> s == "" || s[0] != '"' || unquote(s).None? || unquote(s).value == s
  {
  }

  /** Any parser that reads "x" in quotes as x breaks the round trip of that quoted string. */
  lemma QuotedStringIsUnsafe(unquote: string -> Option<string>)
    requires unquote("\"x\"") == Some("x")
    ensures StringCodec(unquote).dec(StringCodec(unquote).enc("\"x\"").value) == Some("x")
    ensures !Safe(StringCodec(unquote), "\"x\"")
  {
  }
}
