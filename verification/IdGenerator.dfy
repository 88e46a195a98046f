/** IDGenerator (id_generator.go): two Lua scripts over a Redis counter, and the printing of what they return. */
module IdGenerator {
  import opened Common
  import opened IdSpec

  const NANOS: int := 1_000_000_000

  class IDGenerator {
    var redis: map<string, Counter>
    const keyPrefix: string
    const layout: Layout
    const expire: int  // a Go duration, in nanoseconds

    constructor (redis: map<string, Counter>, keyPrefix: string, layout: Layout, expire: int)
      ensures this.redis == redis && this.keyPrefix == keyPrefix && this.layout == layout && this.expire == expire
    {
      this.redis, this.keyPrefix, this.layout, this.expire := redis, keyPrefix, layout, expire;
    }

    /** Whole seconds, cut off towards zero. */
    function ExpireSec(): (sec: int)
      ensures 0 <= expire - sec * NANOS < NANOS || -NANOS < expire - sec * NANOS <= 0
      ensures sec > 0 <==> expire >= NANOS
    {
      if expire >= 0 then expire / NANOS else -((-expire) / NANOS)
    }

    /** EXISTS, for a server that drops a key whose time is over. */
    method Exists(key: string, now: int) returns (found: bool)
      modifies this`redis
      ensures found == Alive(SlotOf(old(redis), key), now) == (key in redis)
      ensures redis == if found then old(redis) else old(redis) - {key}
    {
      if key in redis && redis[key].deadline.Some? && now >= redis[key].deadline.value {
        redis := redis - {key};
      } else {
        assert key !in redis ==> redis - {key} == redis;
      }
      found := key in redis;
    }

    /** None is the error SET answers to a time to live that is not positive. */
    method SingleScript(key: string, expireSec: int, start: int, now: int) returns (number: Option<nat>)
      modifies this`redis
      ensures var c, slot := One(start, expireSec, now), SlotOf(old(redis), key);
              && number == (if Fails(slot, c) then None else Some(First(slot, c)))
              && redis == Put(old(redis), key, After(slot, c))
    {
      var found := Exists(key, now);
      if !found && start > 1 {
        if expireSec <= 0 {
          return None;
        }
        redis := redis[key := Counter(start - 1, Some(now + expireSec))];
      }
      var counter := if key in redis then redis[key] else Counter(0, None);
      redis := redis[key := counter.(n := counter.n + 1)];
      number := Some(counter.n + 1);
      if !found && start <= 1 {
        if expireSec <= 0 {
          redis := redis - {key};
        } else {
          redis := redis[key := redis[key].(deadline := Some(now + expireSec))];
        }
      }
    }

    method BatchScript(key: string, expireSec: int, count: nat, start: int, now: int)
      returns (numbers: Option<seq<nat>>)
      modifies this`redis
      ensures var c, slot := Many(count, start, expireSec, now), SlotOf(old(redis), key);
              && numbers.None? == Fails(slot, c)
              && (numbers.Some? ==> numbers.value == Numbers(slot, c))
              && redis == Put(old(redis), key, After(slot, c))
    {
      var found := Exists(key, now);
      if !found && start > 1 {
        if expireSec <= 0 {
          return None;
        }
        redis := redis[key := Counter(start - 1, Some(now + expireSec))];
      }
      var counter := if key in redis then redis[key] else Counter(0, None);
      var last := counter.n + count;
      redis := redis[key := counter.(n := last)];
      var ids: seq<nat> := [];
      for i := last - count + 1 to last + 1
        invariant |ids| == i - (counter.n + 1)
        invariant forall j :: 0 <= j < |ids| ==> ids[j] == counter.n + 1 + j
      {
        ids := ids + [i];
      }
      numbers := Some(ids);
    }

    /** start is the configured first number or the callback's. A script run whose reply is lost uses its number
        up. */
    method GenerateID(time: string, start: int, now: int, fate: Fate) returns (id: Option<string>)
      modifies this`redis
      ensures var key, c := keyPrefix + time, One(start, ExpireSec(), now);
              var slot := SlotOf(old(redis), key);
              && id == (if !fate.Answered? || Fails(slot, c) then None
                        else Some(FormatID(layout, time, First(slot, c))))
              && redis == if fate.Executed() then Put(old(redis), key, After(slot, c)) else old(redis)
    {
      if fate.Dropped? {
        return None;
      }
      var number := SingleScript(keyPrefix + time, ExpireSec(), start, now);
      id := if number.None? || fate.Unheard? then None else Some(FormatID(layout, time, number.value));
    }

    method GenerateIDs(time: string, n: int, start: int, now: int, fate: Fate) returns (ids: Option<seq<string>>)
      modifies this`redis
      ensures n <= 0 ==> ids == None && redis == old(redis)
      ensures n > 0 ==>
                var key, c := keyPrefix + time, Many(n, start, ExpireSec(), now);
                var slot := SlotOf(old(redis), key);
                && (ids.Some? <==> fate.Answered? && !Fails(slot, c))
                && (ids.Some? ==> ids.value == IDs(layout, time, Numbers(slot, c)))
                && redis == if fate.Executed() then Put(old(redis), key, After(slot, c)) else old(redis)
    {
      if n <= 0 || fate.Dropped? {
        return None;
      }
      var numbers := BatchScript(keyPrefix + time, ExpireSec(), n, start, now);
      if numbers.None? || fate.Unheard? {
        return None;
      }
      var all := FormatAll(time, numbers.value);
      ids := Some(all);
    }

    method FormatAll(time: string, numbers: seq<nat>) returns (all: seq<string>)
      ensures |all| == |numbers| && forall i :: 0 <= i < |all| ==> all[i] == FormatID(layout, time, numbers[i])
    {
      all := [];
      for i := 0 to |numbers|
        invariant |all| == i
        invariant forall j :: 0 <= j < i ==> all[j] == FormatID(layout, time, numbers[j])
      {
        all := all + [FormatID(layout, time, numbers[i])];
      }
    }
  }
}
