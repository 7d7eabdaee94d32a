/** `EntityCacheBase` as it runs: offset-driven loops over one region of a shared Redis server. */
module EntityCacheClass {
  import opened Collections
  import opened RedisCache
  import opened EntityCache
  import opened EntityCacheTheorems

  class EntityCacheBase<K(==, !new), E(!new)> {
    const c: Config<K, E>
    const client: CacheClient
    var db: Database<K, E>

    ghost predicate Valid() {
      c.Sized() && client.prefix == c.prefix
    }

    function Current(): State<K, E>
      reads this, client.redis
    {
      State(client.redis.server, db)
    }

    constructor (c: Config<K, E>, redis: Redis, db: Database<K, E>)
      requires c.Sized()
      ensures Valid() && Current() == State(redis.server, db) && this.c == c && client.redis == redis
    {
      this.c := c;
      this.db := db;
      this.client := new CacheClient(redis, c.prefix);
    }

    /** The hook `GetFromDB(keys)`. */
    method GetFromDB(keys: seq<K>) returns (loaded: Option<seq<E>>)
      modifies this
      ensures loaded == Load(c, old(db), keys) && db == old(db).Next()
    {
      loaded := if db.Failing() then None else Some(c.load(db.rows, keys));
      db := db.Next();
    }

    /** The private overload that loads large requests in blocks. */
    method GetFromDBInBlocks(keys: seq<K>, max: nat) returns (loaded: Option<seq<E>>)
      requires max > 0
      modifies this
      ensures (loaded, db) == LoadBlocks(c, old(db), keys, max)
    {
      if |keys| <= max {
        loaded := GetFromDB(keys);
        return;
      }
      var entities: seq<E> := [];
      var offset := 0;
      assert keys[0..] == keys;
      PrependNothing(LoadBlocks(c, db, keys, max).0);
      while offset < |keys|
        invariant 0 <= offset <= |keys|
        invariant offset < |keys| ==>
          var (rest, end) := LoadBlocks(c, db, keys[offset..], max);
          LoadBlocks(c, old(db), keys, max) == (Prepend(entities, rest), end)
        invariant offset == |keys| ==> LoadBlocks(c, old(db), keys, max) == (Some(entities), db)
      {
        var count := if |keys| - offset < max then |keys| - offset else max;
        ghost var rest := keys[offset..];
        ghost var before := db;
        var block := GetFromDB(keys[offset..offset + count]);
        assert rest[..count] == keys[offset..offset + count];
        if |rest| <= max {
          assert rest[..count] == rest;
        } else {
          assert rest[max..] == keys[offset + count..];
          if block.Some? {
            PrependTwice(entities, block.value, LoadBlocks(c, before.Next(), rest[max..], max).0);
          }
        }
        if block.None? {
          return None;
        }
        entities := entities + block.value;
        offset := offset + count;
      }
      loaded := Some(entities);
    }

    method GetOne(key: K, force: bool) returns (r: Result<Option<E>, LoadError>)
      requires Valid()
      modifies this, client.redis
      ensures (r, Current()) == EntityCache.GetOne(c, old(Current()), key, force)
    {
      var value: Option<string> := None;
      if force {
        Remove(key);
      } else {
        value := client.Get(c.keyText(key));
      }
      if value.None? {
        var entities := GetFromDB([key]);
        if entities.None? {
          return Failure(LoadThrew);
        }
        if entities.value == [] {
          client.Put(c.keyText(key), NOT_IN_DB);
          r := Success(None);
        } else {
          client.Put(c.keyText(key), c.serialize(entities.value[0]));
          r := Success(Some(entities.value[0]));
        }
      } else {
        r := Success(if value.value == NOT_IN_DB then None else Some(c.deserialize(value.value)));
      }
    }

    /** One block of cells sorted into hits and keys still needed. */
    method Sort(keys: seq<K>, cells: seq<Option<string>>, dict0: map<K, E>, needed0: seq<K>)
      returns (dict: map<K, E>, needed: seq<K>)
      requires |keys| == |cells|
      ensures dict == Hits(c, dict0, keys, cells)
      ensures needed == needed0 + Needed(keys, cells)
    {
      dict, needed := dict0, needed0;
      for idx := 0 to |cells|
        invariant Hits(c, dict, keys[idx..], cells[idx..]) == Hits(c, dict0, keys, cells)
        invariant needed + Needed(keys[idx..], cells[idx..]) == needed0 + Needed(keys, cells)
      {
        assert keys[idx..][1..] == keys[idx + 1..] && cells[idx..][1..] == cells[idx + 1..];
        if cells[idx].None? {
          needed := needed + [keys[idx]];
        } else if cells[idx].value != NOT_IN_DB {
          dict := dict[keys[idx] := c.deserialize(cells[idx].value)];
        }
      }
    }

    /** Read the first block of `rest` and sort it. */
    method ReadBlock(rest: seq<K>, dict0: map<K, E>, needed0: seq<K>) returns (n: nat, dict: map<K, E>, needed: seq<K>)
      requires Valid() && rest != []
      modifies client.redis
      ensures 0 < n <= |rest|
      ensures Progress(c, old(client.redis.server), rest, dict0, needed0) ==
              Progress(c, client.redis.server, rest[n..], dict, needed)
    {
      n := if |rest| < c.readBlock then |rest| else c.readBlock;
      ghost var before := client.redis.server;
      var values := client.GetMany(seq(n, i requires 0 <= i < n => c.keyText(rest[i])));
      dict, needed := Sort(rest[..n], values, dict0, needed0);
      ProgressStep(c, before, rest, dict0, needed0, n, values);
    }

    /** The first half of the batch `Get`: read the cells block by block. */
    method ReadCells(keys: seq<K>) returns (dict: map<K, E>, needed: seq<K>)
      requires Valid()
      modifies client.redis
      ensures var (cells, s) := ReadBlocks(old(client.redis.server), RedisKeys(c, keys), c.readBlock);
        dict == Hits(c, map[], keys, cells) && needed == Needed(keys, cells) && client.redis.server == s
    {
      dict, needed := map[], [];
      var offset := 0;
      assert keys[0..] == keys;
      while offset < |keys|
        invariant 0 <= offset <= |keys|
        invariant Progress(c, client.redis.server, keys[offset..], dict, needed) ==
                  Progress(c, old(client.redis.server), keys, map[], [])
      {
        var n;
        ghost var rest := keys[offset..];
        n, dict, needed := ReadBlock(keys[offset..], dict, needed);
        assert rest[n..] == keys[offset + n..];
        offset := offset + n;
      }
      assert keys[offset..] == [];
      assert needed + [] == needed;
      ghost var (cells, _) := ReadBlocks(old(client.redis.server), RedisKeys(c, keys), c.readBlock);
      assert [] + Needed(keys, cells) == Needed(keys, cells);
    }

    /** Cache the loaded entities, then a marker for every needed key that was not found. */
    method WriteBack(es: seq<E>, hits: map<K, E>, needed: seq<K>) returns (dict: map<K, E>)
      requires Valid()
      modifies client.redis
      ensures dict == Index(c, hits, es)
      ensures var s := PutRows(c, old(client.redis.server), es);
        client.redis.server == if |es| != |needed| then PutMarkers(c, s, dict, needed) else s
    {
      dict := hits;
      assert es[0..] == es && needed[0..] == needed;
      for i := 0 to |es|
        invariant PutRows(c, client.redis.server, es[i..]) == PutRows(c, old(client.redis.server), es)
      {
        client.Put(c.keyText(c.getKey(es[i])), c.serialize(es[i]));
        assert es[i..][1..] == es[i + 1..];
      }
      for i := 0 to |es|
        invariant Index(c, dict, es[i..]) == Index(c, hits, es)
      {
        assert es[i..][1..] == es[i + 1..];
        dict := dict[c.getKey(es[i]) := es[i]];
      }
      if |es| != |needed| {
        ghost var mid := client.redis.server;
        for i := 0 to |needed|
          invariant PutMarkers(c, client.redis.server, dict, needed[i..]) == PutMarkers(c, mid, dict, needed)
        {
          assert needed[i..][1..] == needed[i + 1..];
          if needed[i] !in dict {
            client.Put(c.keyText(needed[i]), NOT_IN_DB);
          }
        }
      }
    }

    method InRequestOrder(dict: map<K, E>, keys: seq<K>) returns (entities: seq<E>)
      ensures entities == Select(dict, keys) && OrderKept(entities, dict, keys)
    {
      SelectKeepsOrder(dict, keys);
      entities := [];
      for i := 0 to |keys|
        invariant entities + Select(dict, keys[i..]) == Select(dict, keys)
      {
        assert keys[i..][1..] == keys[i + 1..];
        if keys[i] in dict {
          entities := entities + [dict[keys[i]]];
        }
      }
    }

    /** The second half: load what is missing, cache it, and restore the request order. */
    method CompleteFrom(keys: seq<K>, hits: map<K, E>, needed: seq<K>) returns (entities: seq<E>)
      requires Valid()
      modifies this, client.redis
      ensures (entities, Current()) == Complete(c, old(Current()), keys, hits, needed)
    {
      var dict := hits;
      if needed != [] {
        var loaded := GetFromDBInBlocks(needed, c.loadBlock);
        if loaded.Some? {
          dict := WriteBack(loaded.value, hits, needed);
        }
      }
      entities := InRequestOrder(dict, keys);
    }

    method GetMany(keys: seq<K>, force: bool) returns (r: Result<seq<E>, LoadError>)
      requires Valid()
      modifies this, client.redis
      ensures (r, Current()) == EntityCache.GetMany(c, old(Current()), keys, force)
    {
      if keys == [] {
        return Success([]);
      }
      if |keys| == 1 {
        var one := GetOne(keys[0], force);
        match one
        case Failure(e) => return Failure(e);
        case Success(None) => return Success([]);
        case Success(Some(e)) => return Success([e]);
      }
      if force {
        RemoveMany(keys);
      }
      var ks := Distinct(keys);
      var dict: map<K, E>, needed := map[], ks;
      if !force {
        dict, needed := ReadCells(ks);
      }
      var entities := CompleteFrom(ks, dict, needed);
      r := Success(entities);
    }

    method Set(entity: E)
      requires Valid()
      modifies client.redis
      ensures client.redis.server == EntityCache.Set(c, old(client.redis.server), entity)
      ensures !old(client.redis.server).Failing() ==>
        client.redis.server.Entry(c.prefix + c.keyText(c.getKey(entity))) == Some(c.serialize(entity))
    {
      client.Put(c.keyText(c.getKey(entity)), c.serialize(entity));
    }

    method Remove(key: K)
      requires Valid()
      modifies client.redis
      ensures client.redis.server == EntityCache.Remove(c, old(client.redis.server), key)
    {
      var _ := client.Remove({client.prefix + c.keyText(key)});
    }

    method RemoveMany(keys: seq<K>)
      requires Valid()
      modifies client.redis
      ensures client.redis.server == EntityCache.RemoveMany(c, old(client.redis.server), keys)
    {
      if keys != [] {
        var _ := client.Remove(set k | k in keys :: client.prefix + c.keyText(k));
      }
    }

    method Flush() returns (ok: bool)
      requires Valid()
      modifies client.redis
      ensures (ok, client.redis.server) == FlushRegion(old(client.redis.server), c.prefix)
    {
      ok := client.Flush();
    }
  }

  ghost function Prepend<E>(es: seq<E>, loaded: Option<seq<E>>): Option<seq<E>> {
    if loaded.None? then None else Some(es + loaded.value)
  }

  lemma PrependNothing<E>(loaded: Option<seq<E>>)
    ensures Prepend([], loaded) == loaded
  {
    assert loaded.Some? ==> [] + loaded.value == loaded.value;
  }

  lemma PrependTwice<E>(a: seq<E>, b: seq<E>, loaded: Option<seq<E>>)
    ensures Prepend(a, Prepend(b, loaded)) == Prepend(a + b, loaded)
  {
    assert loaded.Some? ==> a + (b + loaded.value) == a + b + loaded.value;
  }

  lemma ReadStep<K(!new), E(!new)>(c: Config<K, E>, s: Server, keys: seq<K>, n: nat)
    requires c.Sized() && keys != [] && n == if |keys| < c.readBlock then |keys| else c.readBlock
    ensures var (cells, end) := ReadBlocks(s, RedisKeys(c, keys), c.readBlock);
      && (forall i :: 0 <= i < n ==> cells[i] == s.Read(c.Key(keys[i])))
      && ReadBlocks(s.Next(), RedisKeys(c, keys[n..]), c.readBlock) == (cells[n..], end)
  {
    var rk := RedisKeys(c, keys);
    assert rk[n..] == RedisKeys(c, keys[n..]);
    var head := s.ReadMany(rk[..n]);
    assert forall i :: 0 <= i < n ==> head[i] == s.Read(c.Key(keys[i]));
  }

  /** What reading `rest` from `s` on will have found in the end. */
  ghost function Progress<K(!new), E(!new)>(c: Config<K, E>, s: Server, rest: seq<K>, dict: map<K, E>, needed: seq<K>)
    : (map<K, E>, seq<K>, Server)
    requires c.Sized()
  {
    var (cells, end) := ReadBlocks(s, RedisKeys(c, rest), c.readBlock);
    (Hits(c, dict, rest, cells), needed + Needed(rest, cells), end)
  }

  lemma ProgressStep<K(!new), E(!new)>(
      c: Config<K, E>, s: Server, rest: seq<K>, dict: map<K, E>, needed: seq<K>, n: nat, values: seq<Option<string>>)
    requires c.Sized() && rest != [] && n == if |rest| < c.readBlock then |rest| else c.readBlock
    requires |values| == n && forall i :: 0 <= i < n ==> values[i] == s.Read(c.Key(rest[i]))
    ensures Progress(c, s, rest, dict, needed) ==
      Progress(c, s.Next(), rest[n..], Hits(c, dict, rest[..n], values), needed + Needed(rest[..n], values))
  {
    var (cells, end) := ReadBlocks(s, RedisKeys(c, rest), c.readBlock);
    ReadStep(c, s, rest, n);
    SplitHits(c, dict, rest, cells, n);
    SplitNeeded(rest, cells, n);
    assert values == cells[..n];
    assert needed + (Needed(rest[..n], values) + Needed(rest[n..], cells[n..])) ==
           needed + Needed(rest[..n], values) + Needed(rest[n..], cells[n..]);
  }

  lemma {:induction false} SplitHits<K, E>(c: Config<K, E>, dict: map<K, E>, keys: seq<K>, cells: seq<Option<string>>, n: nat)
    requires |keys| == |cells| && n <= |keys|
    ensures Hits(c, Hits(c, dict, keys[..n], cells[..n]), keys[n..], cells[n..]) == Hits(c, dict, keys, cells)
    decreases n
  {
    if n == 0 {
      assert keys[0..] == keys && cells[0..] == cells;
    } else {
      var dict' := match cells[0]
        case None => dict
        case Some(v) => if v == NOT_IN_DB then dict else dict[keys[0] := c.deserialize(v)];
      assert keys[..n][1..] == keys[1..][..n - 1] && cells[..n][1..] == cells[1..][..n - 1];
      assert keys[1..][n - 1..] == keys[n..] && cells[1..][n - 1..] == cells[n..];
      SplitHits(c, dict', keys[1..], cells[1..], n - 1);
    }
  }

  lemma {:induction false} SplitNeeded<K>(keys: seq<K>, cells: seq<Option<string>>, n: nat)
    requires |keys| == |cells| && n <= |keys|
    ensures Needed(keys[..n], cells[..n]) + Needed(keys[n..], cells[n..]) == Needed(keys, cells)
    decreases n
  {
    if n == 0 {
      assert keys[0..] == keys && cells[0..] == cells;
    } else {
      assert keys[..n][1..] == keys[1..][..n - 1] && cells[..n][1..] == cells[1..][..n - 1];
      assert keys[1..][n - 1..] == keys[n..] && cells[1..][n - 1..] == cells[n..];
      SplitNeeded(keys[1..], cells[1..], n - 1);
    }
  }
}
