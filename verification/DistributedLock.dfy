/** One lock handle and the store it talks to. */
module DistributedLock {
  import opened Common
  import opened LockSpec

  datatype LockReply = Acquired | NotAcquired | RequestFailed
  datatype LockError = NoError | LockNotFound | LockNotOwned | Failure

  class RedisServer {
    var now: int
    var store: map<LockKey, Entry>
    var used: set<Token>

    constructor ()
      ensures State() == Server(0, map[], {})
    {
      now, store, used := 0, map[], {};
    }

    ghost function State(): Server
      reads this
    {
      Server(now, store, used)
    }

    /** What GET sees. */
    method Holder(key: LockKey) returns (t: Option<Token>)
      ensures t == if key in store then Some(store[key].token) else None
    {
      t := if key in store then Some(store[key].token) else None;
    }

    method SetIfAbsent(key: LockKey, token: Token, ttl: int) returns (set_: bool)
      modifies this`store
      ensures set_ == (key !in old(store))
      ensures store == if set_ then old(store)[key := Entry(token, now + ttl)] else old(store)
    {
      set_ := key !in store;
      if set_ {
        store := store[key := Entry(token, now + ttl)];
      }
    }

    /** The release script: delete the key if it holds this token. */
    method DeleteIfHeld(key: LockKey, token: Token) returns (deleted: bool)
      modifies this`store
      ensures deleted == (key in old(store) && old(store)[key].token == token)
      ensures store == if deleted then old(store) - {key} else old(store)
    {
      deleted := false;
      if key in store && store[key].token == token {
        store := store - {key};
        deleted := true;
      }
    }

    /** The extend script: move the deadline if the key holds this token. */
    method ExpireIfHeld(key: LockKey, token: Token, ttl: int) returns (moved: bool)
      modifies this`store
      ensures moved == (key in old(store) && old(store)[key].token == token)
      ensures store == if !moved then old(store) else if ttl <= 0 then old(store) - {key}
                       else old(store)[key := old(store)[key].(deadline := now + ttl)]
    {
      moved := false;
      if key in store && store[key].token == token {
        store := if ttl <= 0 then store - {key} else store[key := store[key].(deadline := now + ttl)];
        moved := true;
      }
    }
  }

  class DistributedLock {
    const server: RedisServer
    const key: LockKey
    const ttl: int
    var acquired: bool
    var token: Option<Token>
    ghost var lease: int

    constructor (server: RedisServer, key: LockKey, ttl: int)
      ensures this.server == server && State() == Handle(key, ttl, false, None, 0)
    {
      this.server, this.key, this.ttl := server, key, ttl;
      acquired, token, lease := false, None, 0;
    }

    ghost function State(): Handle
      reads this
    {
      Handle(key, ttl, acquired, token, lease)
    }

    ghost predicate Valid()
      reads this
    {
      acquired ==> token.Some?
    }

    method ResetState()
      modifies this
      ensures State() == Reset(old(State()))
    {
      acquired := false;
      token := None;
    }

    /** fresh is the newly generated token; the two fates are those of the GET and of the SET NX. */
    method TryLock(fresh_: Token, get: Fate, set_: Fate) returns (r: LockReply)
      requires Valid()
      modifies this, server
      ensures Valid()
      ensures var s, h := old(server.State()), old(State());
              var checked := if h.acquired then CheckHeld(s, h, get) else h;
              if checked.acquired then r == Acquired && State() == h && server.State() == s
              else
                && (server.State(), State()) == SetNx(s, checked, fresh_, set_)
                && r == if !set_.Answered? then RequestFailed else if h.key in s.store then NotAcquired else Acquired
      ensures r == Acquired <==> acquired
      ensures r == Acquired ==> Owns(server.State(), State())
      ensures var kept := old(acquired) && get.Answered? && key in old(server.store)
                          && old(token) == Some(old(server.store)[key].token);
              && (r == Acquired <==> kept || (set_.Answered? && key !in old(server.store)))
              && (kept ==> token == old(token) && server.State() == old(server.State()))
              && (!kept ==> token == Some(fresh_))
              && (key in server.store <==> key in old(server.store) || !set_.Dropped?)
      ensures key in old(server.store) ==> server.store == old(server.store)
    {
      if acquired {
        var holder := server.Holder(key);
        if get.Answered? && holder == token {
          return Acquired;
        }
        ResetState();
      }
      token := Some(fresh_);
      server.used := server.used + {fresh_};
      var won := false;
      if !set_.Dropped? {
        won := server.SetIfAbsent(key, fresh_, ttl);
      }
      if !set_.Answered? {
        return RequestFailed;
      }
      if won {
        acquired := true;
        lease := server.now + ttl;
        return Acquired;
      }
      r := NotAcquired;
    }

    method Unlock(fate: Fate) returns (err: LockError)
      requires Valid()
      modifies this, server
      ensures Valid()
      ensures var s, h := old(server.State()), old(State());
              && (server.State(), State()) == LockSpec.Unlock(s, h, fate)
              && err == if !h.acquired then LockNotFound else if !fate.Answered? then Failure
                        else if Owns(s, h) then NoError else LockNotFound
      ensures !acquired
      ensures err == NoError ==> key in old(server.store) && server.store == old(server.store) - {key}
    {
      if !acquired {
        return LockNotFound;
      }
      var deleted := false;
      if !fate.Dropped? {
        deleted := server.DeleteIfHeld(key, token.value);
      }
      ResetState();
      if !fate.Answered? {
        return Failure;
      }
      err := if deleted then NoError else LockNotFound;
    }

    method Extend(ttl: int, fate: Fate) returns (err: LockError)
      requires Valid()
      modifies this, server
      ensures Valid()
      ensures var s, h := old(server.State()), old(State());
              && (server.State(), State()) == LockSpec.Extend(s, h, ttl, fate)
              && err == if !h.acquired then LockNotFound else if !fate.Answered? then Failure
                        else if Owns(s, h) then NoError else LockNotOwned
      ensures acquired == (err == NoError)
      ensures err == NoError && ttl > 0 ==>
                key in server.store && server.store[key] == Entry(old(token).value, server.now + ttl)
    {
      if !acquired {
        return LockNotFound;
      }
      if token.None? {
        return LockNotOwned;
      }
      var moved := false;
      if !fate.Dropped? {
        moved := server.ExpireIfHeld(key, token.value, ttl);
      }
      if !fate.Answered? {
        ResetState();
        return Failure;
      }
      if moved {
        lease := server.now + ttl;
        return NoError;
      }
      ResetState();
      err := LockNotOwned;
    }

    /** None when the request failed. */
    method IsLocked(fate: Fate) returns (locked: Option<bool>)
      requires Valid()
      modifies this
      ensures Valid() && State() == LockSpec.IsLocked(server.State(), old(State()), fate)
      ensures var h := old(State());
              locked == if !h.acquired then Some(false)
                        else if !fate.Answered? then None else Some(Owns(server.State(), h))
      ensures locked.Some? ==> acquired == locked.value
      ensures locked.None? ==> State() == old(State())
    {
      if !acquired {
        return Some(false);
      }
      if !fate.Answered? {
        return None;
      }
      var holder := server.Holder(key);
      if holder != token {
        ResetState();
        return Some(false);
      }
      locked := Some(true);
    }
  }
}
