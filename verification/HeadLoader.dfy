/**
 * Loaders that look only at the first key they are given, as `QueryCache` and `VisitCache`
 * do: what survives of the cache's guarantees, and exactly when a batch get goes wrong.
 */
module HeadLoader {
  import opened Collections
  import opened RedisCache
  import opened EntityCache
  import opened EntityCacheTheorems
  import opened CacheRuns

  function HeadLoad<K, E>(rows: map<K, E>, keys: seq<K>): seq<E> {
    if keys != [] && keys[0] in rows then [rows[keys[0]]] else []
  }

  ghost predicate LoadsHead<K(!new), E(!new)>(c: Config<K, E>) {
    forall rows, keys :: c.load(rows, keys) == HeadLoad(rows, keys)
  }

  lemma HeadIsPointwiseOnOne<K(!new), E(!new)>(c: Config<K, E>)
    requires LoadsHead(c)
    ensures PointwiseOnOne(c)
  {
  }

  /** Runs that ask for one key at a time keep coherence and match the plain database. */
  lemma OneKeyRunsAreSafe<K(!new), E(!new)>(c: Config<K, E>, st: State<K, E>, ops: seq<Op<K, E>>)
    requires Lawful(c) && LoadsHead(c) && RowsKeyed(c, st.db.rows) && st.db.Healthy()
    requires Coherent(c, st.db.rows, st.server.store) && Reliable(c, st, {}, ops)
    requires forall i :: 0 <= i < |ops| && ops[i].Many? ==> |ops[i].keys| <= 1
    ensures Run(c, st, ops).0 == PlainRun(c, st.db.rows, ops).0
    ensures Coherent(c, Run(c, st, ops).1.db.rows, Run(c, st, ops).1.server.store)
  {
    HeadIsPointwiseOnOne(c);
    CoherentRunMatchesDatabase(c, st, ops);
  }

  /** The first key of each block of `max`. */
  function BlockHeads<K>(keys: seq<K>, max: nat): (r: seq<K>)
    requires max > 0
    ensures |r| <= |keys| && forall k :: k in r ==> k in keys
    decreases |keys|
  {
    if keys == [] then []
    else [keys[0]] + (if |keys| <= max then [] else BlockHeads(keys[max..], max))
  }

  lemma ModStep(i: nat, max: nat)
    requires max > 0
    ensures i < max ==> i % max == i
    ensures i >= max ==> i % max == (i - max) % max
  {
    if i >= max {
      var q, r := (i - max) / max, (i - max) % max;
      assert i - max == q * max + r;
      assert q * max + max == (q + 1) * max;
      RemainderUnique(i, max, q + 1, r);
    } else {
      RemainderUnique(i, max, 0, i);
    }
  }

  lemma RemainderUnique(x: nat, d: nat, q: nat, r: nat)
    requires d > 0 && r < d && x == q * d + r
    ensures x % d == r
  {
    var q' := x / d;
    if q' > q {
      MultipleApart(q, q', d);
    } else if q' < q {
      MultipleApart(q', q, d);
    }
  }

  lemma MultipleApart(a: nat, b: nat, d: nat)
    requires a < b
    ensures b * d >= a * d + d
  {
    var k := b - a - 1;
    assert k * d >= 0;
    assert b * d == k * d + (a * d + d);
  }

  lemma {:induction false} BlockHeadsDistinct<K>(keys: seq<K>, max: nat)
    requires max > 0 && NoDuplicates(keys)
    ensures NoDuplicates(BlockHeads(keys, max))
    decreases |keys|
  {
    if |keys| > max {
      BlockHeadsDistinct(keys[max..], max);
      assert keys[0] !in keys[max..];
    }
  }

  lemma {:induction false} BlockHeadsAt<K>(keys: seq<K>, max: nat, i: nat)
    requires max > 0 && i < |keys| && NoDuplicates(keys)
    ensures keys[i] in BlockHeads(keys, max) <==> i % max == 0
    decreases |keys|
  {
    ModStep(i, max);
    if i >= max {
      BlockHeadsAt(keys[max..], max, i - max);
      assert keys[max..][i - max] == keys[i] && keys[0] != keys[i];
    } else {
      assert |keys| > max ==> keys[i] !in keys[max..];
    }
  }

  lemma HeadAnswers<K(!new), E(!new)>(c: Config<K, E>, db: Database<K, E>, keys: seq<K>, n: nat)
    requires LoadsHead(c) && RowsKeyed(c, db.rows) && db.Healthy() && 0 < n <= |keys|
    ensures Load(c, db, keys[..n]) == Some(HeadLoad(db.rows, keys))
    ensures Answers(c, db.rows, [keys[0]], HeadLoad(db.rows, keys))
  {
    assert keys[..n][0] == keys[0];
  }

  /** What a head loader returns for a whole blocked load: the rows of the first keys of the blocks. */
  lemma {:induction false} HeadLoadBlocks<K(!new), E(!new)>(c: Config<K, E>, db: Database<K, E>, keys: seq<K>, max: nat)
    requires max > 0 && LoadsHead(c) && RowsKeyed(c, db.rows) && db.Healthy() && NoDuplicates(keys) && keys != []
    ensures var (loaded, db') := LoadBlocks(c, db, keys, max);
      && db'.rows == db.rows && db'.Healthy()
      && loaded.Some? && Answers(c, db.rows, BlockHeads(keys, max), loaded.value)
    decreases |keys|
  {
    if |keys| > max {
      HeadAnswers(c, db, keys, max);
      HeadLoadBlocks(c, db.Next(), keys[max..], max);
      var (rest, _) := LoadBlocks(c, db.Next(), keys[max..], max);
      BlockHeadsDistinct(keys, max);
      AnswersConcat(c, db.rows, [keys[0]], BlockHeads(keys[max..], max), HeadLoad(db.rows, keys), rest.value);
    } else {
      HeadAnswers(c, db, keys, |keys|);
      assert keys[..|keys|] == keys;
      assert BlockHeads(keys, max) == [keys[0]];
    }
  }

  /** The keys of `keys` with no entry in the store. */
  function Uncached<K, E>(c: Config<K, E>, store: map<string, string>, keys: seq<K>): seq<K> {
    if keys == [] then []
    else (if c.Key(keys[0]) !in store then [keys[0]] else []) + Uncached(c, store, keys[1..])
  }

  lemma {:induction false} NeededIsUncached<K, E>(c: Config<K, E>, store: map<string, string>, keys: seq<K>, cells: seq<Option<string>>)
    requires |keys| == |cells|
    requires forall i :: 0 <= i < |keys| ==> (cells[i].None? <==> c.Key(keys[i]) !in store)
    ensures Needed(keys, cells) == Uncached(c, store, keys)
  {
    if keys != [] {
      NeededIsUncached(c, store, keys[1..], cells[1..]);
    }
  }

  /** The keys that a get will ask the database for. */
  function Missing<K(!new), E>(c: Config<K, E>, st: State<K, E>, keys: seq<K>, force: bool): seq<K> {
    if force then Distinct(keys) else Uncached(c, st.server.store, Distinct(keys))
  }

  /** No key that the head loader passes over has a row. */
  ghost predicate OnlyHeadsPresent<K, E>(rows: map<K, E>, missing: seq<K>, max: nat)
    requires max > 0
  {
    forall i :: 0 <= i < |missing| && i % max != 0 ==> missing[i] !in rows
  }

  lemma {:induction false} MarkerWritten<K(!new), E(!new)>(c: Config<K, E>, s: Server, dict: map<K, E>, needed: seq<K>, k: K)
    requires Lawful(c) && s.Healthy() && k !in dict
    requires k in needed || (c.Key(k) in s.store && s.store[c.Key(k)] == NOT_IN_DB)
    ensures var s' := PutMarkers(c, s, dict, needed); c.Key(k) in s'.store && s'.store[c.Key(k)] == NOT_IN_DB
    decreases needed
  {
    if needed != [] {
      MarkerWritten(c, if needed[0] in dict then s else s.Write(c.Key(needed[0]), NOT_IN_DB), dict, needed[1..], k);
    }
  }

  lemma {:induction false} SelectLength<K, E>(a: map<K, E>, b: map<K, E>, keys: seq<K>)
    requires forall k :: k in keys && k in a ==> k in b
    ensures |Select(a, keys)| <= |Select(b, keys)|
    ensures (exists k :: k in keys && k in b && k !in a) ==> |Select(a, keys)| < |Select(b, keys)|
  {
    if keys != [] {
      SelectLength(a, b, keys[1..]);
    }
  }

  /** A key passed over although it has a row ends up marked absent and missing from the answer. */
  lemma PassedOver<K(!new), E(!new)>(c: Config<K, E>, st: State<K, E>, keys: seq<K>, hits: map<K, E>, needed: seq<K>, i: nat)
    requires Lawful(c) && LoadsHead(c) && RowsKeyed(c, st.db.rows) && st.db.Healthy() && st.server.Healthy()
    requires Coherent(c, st.db.rows, st.server.store)
    requires NoDuplicates(needed) && (forall k :: k in needed ==> k in keys && k !in hits)
    requires forall k :: k in hits ==> k in st.db.rows && hits[k] == st.db.rows[k]
    requires i < |needed| && i % c.loadBlock != 0 && needed[i] in st.db.rows
    ensures var (es, st') := Complete(c, st, keys, hits, needed);
      && c.Key(needed[i]) in st'.server.store && st'.server.store[c.Key(needed[i])] == NOT_IN_DB
      && es != Select(st.db.rows, keys)
  {
    var rows, k := st.db.rows, needed[i];
    var heads := BlockHeads(needed, c.loadBlock);
    HeadLoadBlocks(c, st.db, needed, c.loadBlock);
    var es := LoadBlocks(c, st.db, needed, c.loadBlock).0.value;
    BlockHeadsAt(needed, c.loadBlock, i);
    forall x
      ensures x in Index(c, hits, es) <==> x in rows && (x in hits || x in heads)
    {
      IndexedRows(c, rows, hits, heads, es, x);
    }
    FewerThanNeeded(c, rows, needed, heads, es, k);
    PutRowsFill(c, rows, st.server, es);
    MarkerWritten(c, PutRows(c, st.server, es), Index(c, hits, es), needed, k);
    SelectLength(Index(c, hits, es), rows, keys);
  }

  lemma FewerThanNeeded<K(!new), E(!new)>(c: Config<K, E>, rows: map<K, E>, needed: seq<K>, heads: seq<K>, es: seq<E>, k: K)
    requires Answers(c, rows, heads, es) && NoDuplicates(needed)
    requires (forall x :: x in heads ==> x in needed) && k in needed && k !in heads
    ensures |es| != |needed|
  {
    var found := seq(|es|, i requires 0 <= i < |es| => c.getKey(es[i]));
    NoDuplicatesCardinality(found);
    NoDuplicatesCardinality(needed);
    SubsetCardinality(ToSet(found), ToSet(needed) - {k});
  }

  /**
   * The exact condition: with everything reachable, a batch get through a head loader leaves
   * the region coherent, and answers rightly, if and only if among the keys it has to load only
   * the first of each block has a row.
   */
  lemma HeadLoaderBatch<K(!new), E(!new)>(c: Config<K, E>, st: State<K, E>, keys: seq<K>, force: bool)
    requires Lawful(c) && LoadsHead(c) && RowsKeyed(c, st.db.rows) && st.db.Healthy() && st.server.Healthy()
    requires Coherent(c, st.db.rows, st.server.store)
    ensures var (es, st') := GetGeneral(c, st, keys, force);
      var fine := OnlyHeadsPresent(st.db.rows, Missing(c, st, keys, force), c.loadBlock);
      && (Coherent(c, st.db.rows, st'.server.store) <==> fine)
      && (es == Lookup(st.db.rows, keys) <==> fine)
  {
    var ks, rows := Distinct(keys), st.db.rows;
    if force {
      if keys != [] {
        DeleteCoherent(c, rows, st.server, set k | k in keys :: c.Key(k));
      }
      HeadComplete(c, st.(server := RemoveMany(c, st.server, keys)), ks, map[], ks);
    } else {
      ReadBlocksCells(st.server, RedisKeys(c, ks), c.readBlock);
      var (cells, s) := ReadBlocks(st.server, RedisKeys(c, ks), c.readBlock);
      NeededExactly(ks, cells);
      HitsAreRows(c, rows, map[], ks, cells);
      NeededIsUncached(c, st.server.store, ks, cells);
      HitsNotNeeded(c, map[], ks, cells);
      HeadComplete(c, st.(server := s), ks, Hits(c, map[], ks, cells), Needed(ks, cells));
    }
  }

  lemma {:induction false} HitsNotNeeded<K(!new), E(!new)>(c: Config<K, E>, dict: map<K, E>, keys: seq<K>, cells: seq<Option<string>>)
    requires |keys| == |cells| && NoDuplicates(keys)
    ensures forall k :: k in Hits(c, dict, keys, cells) ==> k in dict || (k in keys && k !in Needed(keys, cells))
    decreases keys
  {
    if keys != [] {
      var dict' := match cells[0]
        case None => dict
        case Some(v) => if v == NOT_IN_DB then dict else dict[keys[0] := c.deserialize(v)];
      HitsNotNeeded(c, dict', keys[1..], cells[1..]);
      assert keys[0] !in keys[1..];
    }
  }

  lemma HeadComplete<K(!new), E(!new)>(c: Config<K, E>, st: State<K, E>, keys: seq<K>, hits: map<K, E>, needed: seq<K>)
    requires Lawful(c) && LoadsHead(c) && RowsKeyed(c, st.db.rows) && st.db.Healthy() && st.server.Healthy()
    requires Coherent(c, st.db.rows, st.server.store)
    requires NoDuplicates(needed) && (forall k :: k in needed ==> k in keys && k !in hits)
    requires forall k :: k in hits ==> k in st.db.rows && hits[k] == st.db.rows[k]
    requires forall k :: k in keys && k !in needed && k in st.db.rows ==> k in hits
    ensures var (es, st') := Complete(c, st, keys, hits, needed);
      var fine := OnlyHeadsPresent(st.db.rows, needed, c.loadBlock);
      && (Coherent(c, st.db.rows, st'.server.store) <==> fine)
      && (es == Select(st.db.rows, keys) <==> fine)
  {
    var rows := st.db.rows;
    if !OnlyHeadsPresent(rows, needed, c.loadBlock) {
      var i :| 0 <= i < |needed| && i % c.loadBlock != 0 && needed[i] in rows;
      PassedOver(c, st, keys, hits, needed, i);
    } else if needed == [] {
      SelectAgree(hits, rows, keys);
    } else {
      HeadLoadBlocks(c, st.db, needed, c.loadBlock);
      var es := LoadBlocks(c, st.db, needed, c.loadBlock).0.value;
      forall k | k in needed && k in rows
        ensures k in BlockHeads(needed, c.loadBlock)
      {
        var i :| 0 <= i < |needed| && needed[i] == k;
        BlockHeadsAt(needed, c.loadBlock, i);
      }
      assert Answers(c, rows, needed, es);
      LoadedCorrect(c, rows, st.server, keys, hits, needed, es);
    }
  }

  lemma DistinctPair<K(!new)>(a: K, b: K)
    requires a != b
    ensures Distinct([a, b]) == [a, b]
  {
    var keys, one := [a, b], [a];
    assert one[..0] == [] && Distinct<K>([]) == [];
    assert Distinct(one) == [] + [a] == [a];
    assert keys[..1] == one;
    assert Distinct(keys) == [a] + [b];
  }

  /** Two uncached keys with rows: the second is marked absent although it is in the database. */
  lemma TwoKeyBatchMarksSecond<K(!new), E(!new)>(c: Config<K, E>, st: State<K, E>, a: K, b: K)
    requires Lawful(c) && LoadsHead(c) && RowsKeyed(c, st.db.rows) && st.db.Healthy() && st.server.Healthy()
    requires Coherent(c, st.db.rows, st.server.store) && c.loadBlock >= 2
    requires a != b && a in st.db.rows && b in st.db.rows
    requires c.Key(a) !in st.server.store && c.Key(b) !in st.server.store
    ensures !Coherent(c, st.db.rows, GetGeneral(c, st, [a, b], false).1.server.store)
  {
    var keys := [a, b];
    DistinctPair(a, b);
    assert keys[1..] == [b] && [b][1..] == [];
    var store := st.server.store;
    assert Uncached(c, store, [b]) == [b] + Uncached(c, store, [b][1..]);
    assert Uncached(c, store, keys) == [a] + Uncached(c, store, keys[1..]);
    assert Missing(c, st, keys, false)[1] == b;
    assert 1 % c.loadBlock == 1;
    HeadLoaderBatch(c, st, keys, false);
  }
}
