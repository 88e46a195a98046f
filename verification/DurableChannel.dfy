/** One process's durable channel and the Redis list it works on. */
module DurableChannel {
  import opened Common
  import opened DurablePipe

  datatype Mode = PersistSync | PersistAsync | PersistHybrid
  datatype SendResult = Sent | PersistFailed | ChannelClosed | ContextDone

  class RedisList<T> {
    var items: seq<T>

    constructor (items: seq<T>)
      ensures this.items == items
    {
      this.items := items;
    }

    method RPush(x: T, fate: Fate) returns (ok: bool)
      modifies this
      ensures items == old(items) + (if fate.Executed() then [x] else []) && ok == fate.Answered?
    {
      if fate.Executed() {
        items := items + [x];
      }
      ok := fate.Answered?;
    }

    /** LPOP, and BLPOP once it has something. x None and ok is an empty list. */
    method LPop(fate: Fate) returns (x: Option<T>, ok: bool)
      modifies this
      ensures items == if fate.Executed() && old(items) != [] then old(items)[1..] else old(items)
      ensures ok == fate.Answered? && x == if ok && old(items) != [] then Some(old(items)[0]) else None
    {
      x, ok := None, fate.Answered?;
      if fate.Executed() && |items| > 0 {
        if ok {
          x := Some(items[0]);
        }
        items := items[1..];
      }
    }
  }

  /** The first round among the next n whose pop fails, n when none does. */
  function FirstFailure(fates: nat -> Fate, n: nat): (j: nat)
    ensures j <= n && (j < n ==> !fates(j).Answered?) && forall i :: 0 <= i < j ==> fates(i).Answered?
  {
    if n == 0 then 0
    else
      var j := FirstFailure(fates, n - 1);
      if j < n - 1 || fates(n - 1).Answered? then (if j < n - 1 then j else n) else n - 1
  }

  function Smaller(a: nat, b: nat): nat {
    if a < b then a else b
  }

  /** What a recovery makes of a backlog and a buffer: all it may move before the first failing pop, which loses
      its message if it was executed; or as much as there is room for, and the next message to the tail. */
  ghost predicate Recovered<T>(backlog: seq<T>, before: seq<T>, bufferSize: nat, fates: nat -> Fate, putBack: Fate,
                               list: seq<T>, buffer: seq<T>)
    requires |before| <= bufferSize
  {
    var n, room := Smaller(|backlog|, bufferSize), bufferSize - |before|;
    var j := FirstFailure(fates, n);
    if j <= room && (j < n || n <= room) then
      && buffer == before + backlog[..j]
      && list == backlog[if j < n && fates(j).Unheard? then j + 1 else j..]
    else
      && buffer == before + backlog[..room]
      && list == backlog[room + 1..] + (if putBack.Executed() then [backlog[room]] else [])
  }

  lemma RecoveryStops<T>(backlog: seq<T>, before: seq<T>, bufferSize: nat, fates: nat -> Fate, putBack: Fate, i: nat,
                         list: seq<T>, buffer: seq<T>)
    requires |before| + i <= bufferSize && i < |backlog| && i < bufferSize
    requires forall r :: 0 <= r < i ==> fates(r).Answered?
    requires !fates(i).Answered? || |before| + i == bufferSize
    requires buffer == before + backlog[..i]
    requires list == (if fates(i).Executed() then backlog[i..][1..] else backlog[i..])
                     + (if fates(i).Answered? && putBack.Executed() then [backlog[i..][0]] else [])
    ensures Recovered(backlog, before, bufferSize, fates, putBack, list, buffer)
  {
    var n := Smaller(|backlog|, bufferSize);
    assert FirstFailure(fates, n) >= i;
    assert backlog[i..][1..] == backlog[i + 1..];
  }

  lemma RecoveryEnds<T>(backlog: seq<T>, before: seq<T>, bufferSize: nat, fates: nat -> Fate, putBack: Fate, i: nat)
    requires |before| + i <= bufferSize && i == Smaller(|backlog|, bufferSize)
    requires forall r :: 0 <= r < i ==> fates(r).Answered?
    ensures Recovered(backlog, before, bufferSize, fates, putBack, backlog[i..], before + backlog[..i])
  {
    assert FirstFailure(fates, i) == i;
  }

  class Channel<T> {
    const mode: Mode
    const bufferSize: nat
    const redis: RedisList<T>
    var memChan: seq<T>
    var closed: bool

    ghost predicate Valid()
      reads this
    {
      bufferSize >= 1 && |memChan| <= bufferSize
    }

    /** A consumer recovers the backlog before its workers start; a PersistSync channel only produces. counted tells
        whether the backlog's length could be read, fates what becomes of each recovery pop. With the buffer empty
        nothing is ever put back: what is not recovered is still listed, but for a message whose pop nobody heard
        of. */
    constructor (mode: Mode, bufferSize: int, redis: RedisList<T>, recoveryOnStart: bool, counted: bool,
                 fates: nat -> Fate)
      modifies redis
      ensures Valid() && !closed && this.mode == mode && this.redis == redis
      ensures bufferSize >= 1 ==> this.bufferSize == bufferSize
      ensures var backlog := old(redis.items);
              if recoveryOnStart && mode != PersistSync && counted then
                var n := Smaller(|backlog|, this.bufferSize);
                var j := FirstFailure(fates, n);
                memChan == backlog[..j] && redis.items == backlog[if j < n && fates(j).Unheard? then j + 1 else j..]
              else memChan == [] && redis.items == backlog
    {
      this.mode, this.redis := mode, redis;
      this.bufferSize := if bufferSize <= 0 then 100 else bufferSize;
      memChan, closed := [], false;
      new;
      if recoveryOnStart && mode != PersistSync {
        RecoverMessages(counted, fates, Answered);
      }
    }

    /** It moves the head of the list to the buffer, in order, as much as a whole buffer takes, until a pop fails.
        With the empty buffer of a starting channel there is always room; only a buffer already in use could be
        full too early, and then the message in hand goes back to the list, at its tail. */
    method RecoverMessages(counted: bool, fates: nat -> Fate, putBack: Fate)
      requires Valid()
      modifies this`memChan, redis
      ensures Valid()
      ensures !counted ==> memChan == old(memChan) && redis.items == old(redis.items)
      ensures counted ==>
                Recovered(old(redis.items), old(memChan), bufferSize, fates, putBack, redis.items, memChan)
    {
      if counted {
        RecoverRounds(fates, putBack);
      }
    }

    method RecoverRounds(fates: nat -> Fate, putBack: Fate)
      requires Valid()
      modifies this`memChan, redis
      ensures Valid()
      ensures Recovered(old(redis.items), old(memChan), bufferSize, fates, putBack, redis.items, memChan)
    {
      hide Recovered;
      ghost var backlog, before := redis.items, memChan;
      var length, i, going := |redis.items|, 0, true;
      while i < length && i < bufferSize && going
        invariant Valid() && 0 <= i <= length == |backlog| && i <= bufferSize
        invariant going ==>
                    |before| + i <= bufferSize && memChan == before + backlog[..i] && redis.items == backlog[i..]
        invariant forall r :: 0 <= r < i ==> fates(r).Answered?
        invariant !going ==> Recovered(backlog, before, bufferSize, fates, putBack, redis.items, memChan)
        decreases length - i, going
      {
        going := RecoverRound(fates(i), putBack);
        if going {
          i := i + 1;
        } else {
          RecoveryStops(backlog, before, bufferSize, fates, putBack, i, redis.items, memChan);
        }
      }
      if going {
        RecoveryEnds(backlog, before, bufferSize, fates, putBack, i);
      }
    }

    /** One pop and, when it brings a message, one push; going on unless either finds no way. */
    method RecoverRound(fate: Fate, putBack: Fate) returns (going: bool)
      requires Valid() && redis.items != []
      modifies this`memChan, redis
      ensures Valid() && going == (fate.Answered? && |old(memChan)| < bufferSize)
      ensures memChan == if going then old(memChan) + [old(redis.items)[0]] else old(memChan)
      ensures redis.items == (if fate.Executed() then old(redis.items)[1..] else old(redis.items))
                             + (if fate.Answered? && !going && putBack.Executed() then [old(redis.items)[0]] else [])
    {
      var data, ok := redis.LPop(fate);
      going := ok && |memChan| < bufferSize;
      if going {
        memChan := memChan + [data.value];
      } else if ok {
        var _ := redis.RPush(data.value, putBack);
      }
    }

    /** fate is what becomes of the write to Redis; cancelled whether the caller's context ends while an
        asynchronous send waits for room (it does not wait when there is room). A write that was executed unheard
        is listed although the caller gets an error, or in PersistAsync only a log line. */
    method Send(x: T, fate: Fate, cancelled: bool) returns (r: SendResult)
      requires Valid() && (mode.PersistAsync? && !closed && |memChan| >= bufferSize ==> cancelled)
      modifies this`memChan, redis
      ensures Valid()
      ensures closed ==> r == ChannelClosed && memChan == old(memChan) && redis.items == old(redis.items)
      ensures !closed && mode.PersistSync? ==>
                && r == (if fate.Answered? then Sent else PersistFailed) && memChan == old(memChan)
                && redis.items == old(redis.items) + (if fate.Executed() then [x] else [])
      ensures !closed && mode.PersistHybrid? ==>
                && r == (if fate.Answered? then Sent else PersistFailed)
                && redis.items == old(redis.items) + (if fate.Executed() then [x] else [])
                && memChan == old(memChan) + (if fate.Answered? && |old(memChan)| < bufferSize then [x] else [])
      ensures !closed && mode.PersistAsync? ==>
                && r == (if |old(memChan)| < bufferSize then Sent else ContextDone)
                && memChan == old(memChan) + (if r.Sent? then [x] else [])
                && redis.items == old(redis.items) + (if r.Sent? && fate.Executed() then [x] else [])
    {
      if closed {
        return ChannelClosed;
      }
      match mode {
        case PersistSync =>
          var ok := redis.RPush(x, fate);
          return if ok then Sent else PersistFailed;
        case PersistHybrid =>
          var ok := redis.RPush(x, fate);
          if !ok {
            return PersistFailed;
          }
          if |memChan| < bufferSize {
            memChan := memChan + [x];
          }
          return Sent;
        case PersistAsync =>
          if |memChan| >= bufferSize {
            return ContextDone;
          }
          memChan := memChan + [x];
          var _ := redis.RPush(x, fate);
          return Sent;
      }
    }

    /** One round of a worker that finds room: what it heard of is now at the end of the buffer, what was popped
        unheard is lost. */
    method WorkerRound(fate: Fate) returns (moved: bool)
      requires Valid() && |memChan| < bufferSize
      modifies this`memChan, redis
      ensures Valid() && moved == (old(redis.items) != [] && fate.Answered?)
      ensures redis.items
              == if old(redis.items) != [] && fate.Executed() then old(redis.items)[1..] else old(redis.items)
      ensures memChan == old(memChan) + if moved then [old(redis.items)[0]] else []
    {
      var data, ok := redis.LPop(fate);
      moved := data.Some?;
      if data.Some? {
        memChan := memChan + [data.value];
      }
    }

    method Receive() returns (x: Option<T>)
      requires Valid()
      modifies this`memChan
      ensures Valid()
      ensures (if x.Some? then [x.value] else []) + memChan == old(memChan)
      ensures x.None? <==> old(memChan) == []
    {
      if |memChan| == 0 {
        return None;
      }
      x := Some(memChan[0]);
      memChan := memChan[1..];
    }
  }
}
