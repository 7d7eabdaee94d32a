/**
 * The Redis server as the cache clients see it, and `CacheClient`'s accessors.
 * Every accessor except `Flush` swallows exceptions: a failing read returns nulls
 * and a failing write or delete does nothing.
 */
module RedisCache {
  import opened Collections

  /**
   * `faults` scripts the coming calls: its head says whether the next call fails, and
   * once it is used up no call fails. `connected` is false when the connection could not
   * be made, in which case no call is issued at all.
   */
  datatype Server = Server(store: map<string, string>, connected: bool, faults: seq<bool>) {

    predicate Failing() {
      !connected || (faults != [] && faults[0])
    }

    function Next(): Server {
      if connected && faults != [] then this.(faults := faults[1..]) else this
    }

    /** No coming call fails. */
    ghost predicate Healthy() {
      connected && forall i :: 0 <= i < |faults| ==> !faults[i]
    }

    /** What is stored under the key. */
    function Entry(key: string): Option<string> {
      if key in store then Some(store[key]) else None
    }

    function Read(key: string): Option<string> {
      if Failing() || key !in store then None else Some(store[key])
    }

    function ReadMany(keys: seq<string>): (cells: seq<Option<string>>)
      ensures |cells| == |keys|
      ensures forall i :: 0 <= i < |keys| ==> cells[i] == Read(keys[i])
    {
      seq(|keys|, i requires 0 <= i < |keys| => Read(keys[i]))
    }

    function Write(key: string, value: string): Server {
      if Failing() then Next() else Next().(store := store[key := value])
    }

    function Delete(keys: set<string>): Server {
      if Failing() then Next() else Next().(store := store - keys)
    }

    /** The keys that the pattern `prefix*` lists. */
    function KeysWith(prefix: string): set<string> {
      set k | k in store && prefix <= k
    }
  }

  class Redis {
    var server: Server

    constructor (s: Server)
      ensures server == s
    {
      server := s;
    }
  }

  /** A client of one region; clients of different regions share the server. */
  class CacheClient {
    const redis: Redis
    const prefix: string

    constructor (redis: Redis, prefix: string)
      ensures this.redis == redis && this.prefix == prefix
    {
      this.redis := redis;
      this.prefix := prefix;
    }

    method Get(key: string) returns (cell: Option<string>)
      modifies redis
      ensures cell == old(redis.server).Read(prefix + key)
      ensures redis.server == old(redis.server).Next()
    {
      cell := None;
      if redis.server.connected {
        cell := redis.server.Read(prefix + key);
        redis.server := redis.server.Next();
      }
    }

    method GetMany(keys: seq<string>) returns (cells: seq<Option<string>>)
      modifies redis
      ensures |cells| == |keys|
      ensures forall i :: 0 <= i < |keys| ==> cells[i] == old(redis.server).Read(prefix + keys[i])
      ensures redis.server == old(redis.server).Next()
    {
      cells := seq(|keys|, i => None);
      if redis.server.connected {
        cells := redis.server.ReadMany(seq(|keys|, i requires 0 <= i < |keys| => prefix + keys[i]));
        redis.server := redis.server.Next();
      }
    }

    method Put(key: string, value: string)
      modifies redis
      ensures redis.server == old(redis.server).Write(prefix + key, value)
    {
      if redis.server.connected {
        redis.server := redis.server.Write(prefix + key, value);
      }
    }

    /** Returns how many of the keys were there, and 0 when the call fails. */
    method Remove(keys: set<string>) returns (deleted: nat)
      modifies redis
      ensures redis.server == old(redis.server).Delete(keys)
      ensures deleted == if old(redis.server).Failing() then 0 else |keys * old(redis.server).store.Keys|
    {
      deleted := 0;
      if redis.server.connected {
        if !redis.server.Failing() {
          deleted := |keys * redis.server.store.Keys|;
        }
        redis.server := redis.server.Delete(keys);
      }
    }

    /** Listing the keys is outside any exception handler, so it can throw. */
    method Flush() returns (ok: bool)
      modifies redis
      ensures (ok, redis.server) == FlushRegion(old(redis.server), prefix)
    {
      if redis.server.Failing() {
        redis.server := redis.server.Next();
        return false;
      }
      var keys := redis.server.KeysWith(prefix);
      redis.server := redis.server.Next();
      var _ := Remove(keys);
      ok := true;
    }
  }

  function FlushRegion(s: Server, prefix: string): (bool, Server) {
    if s.Failing() then (false, s.Next()) else (true, s.Next().Delete(s.KeysWith(prefix)))
  }
}
