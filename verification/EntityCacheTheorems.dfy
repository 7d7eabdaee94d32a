/** What one call of the entity cache achieves, for every mix of hits, misses, markers and faults. */
module EntityCacheTheorems {
  import opened Collections
  import opened RedisCache
  import opened EntityCache

  /** Every entry of the region is the database's current row, or a marker for an absent row. */
  ghost predicate Coherent<K(!new), E(!new)>(c: Config<K, E>, rows: map<K, E>, store: map<string, string>) {
    forall k :: c.Key(k) in store ==> store[c.Key(k)] == c.Cell(rows, k)
  }

  /** Keys that do not start with `prefix` are stored alike in `a` and `b`. */
  ghost predicate SameOutside(prefix: string, a: map<string, string>, b: map<string, string>) {
    forall x :: !(prefix <= x) ==> (x in a <==> x in b) && (x in a ==> b[x] == a[x])
  }

  /** `after` comes from `before` by correct writes: coherent, own region only, nothing forgotten. */
  ghost predicate FilledFrom<K(!new), E(!new)>(c: Config<K, E>, rows: map<K, E>, before: Server, after: Server) {
    && Coherent(c, rows, after.store)
    && SameOutside(c.prefix, before.store, after.store)
    && before.store.Keys <= after.store.Keys
    && (before.Healthy() ==> after.Healthy())
  }

  /** `view` and `rows` hold the same row, or none, for every key outside `stale`. */
  ghost predicate AgreeOutside<K(!new), E(!new)>(view: map<K, E>, rows: map<K, E>, stale: set<K>) {
    forall k :: k !in stale ==> (k in view <==> k in rows) && (k in view ==> view[k] == rows[k])
  }

  /**
   * The cache shows `view` rather than the current rows: they differ only in `stale` keys,
   * all of which are cached. Unless `stale` is empty the server must be answering.
   */
  ghost predicate Shows<K(!new), E(!new)>(c: Config<K, E>, st: State<K, E>, view: map<K, E>, stale: set<K>) {
    && RowsKeyed(c, st.db.rows) && RowsKeyed(c, view) && AgreeOutside(view, st.db.rows, stale)
    && Coherent(c, view, st.server.store)
    && (forall k :: k in stale ==> c.Key(k) in st.server.store)
    && (stale == {} || st.server.Healthy())
  }

  lemma KeyInjective<K(!new), E(!new)>(c: Config<K, E>, k: K, k': K)
    requires Lawful(c) && c.Key(k) == c.Key(k')
    ensures k == k'
  {
    assert c.keyText(k) == c.Key(k)[|c.prefix|..];
    assert c.keyText(k') == c.Key(k')[|c.prefix|..];
  }

  lemma CorrectWrite<K(!new), E(!new)>(c: Config<K, E>, rows: map<K, E>, s: Server, k: K)
    requires Lawful(c) && Coherent(c, rows, s.store)
    ensures FilledFrom(c, rows, s, s.Write(c.Key(k), c.Cell(rows, k)))
    ensures s.Healthy() ==> c.Key(k) in s.Write(c.Key(k), c.Cell(rows, k)).store
  {
    var s' := s.Write(c.Key(k), c.Cell(rows, k));
    forall k' | c.Key(k') in s'.store
      ensures s'.store[c.Key(k')] == c.Cell(rows, k')
    {
      if c.Key(k') == c.Key(k) {
        KeyInjective(c, k, k');
      }
    }
    assert c.prefix <= c.Key(k);
  }

  /** Deleting keeps coherence, whatever is deleted and whether or not the call fails. */
  lemma DeleteCoherent<K(!new), E(!new)>(c: Config<K, E>, rows: map<K, E>, s: Server, keys: set<string>)
    requires Coherent(c, rows, s.store)
    ensures Coherent(c, rows, s.Delete(keys).store)
    ensures s.Healthy() ==> s.Delete(keys).Healthy()
  {
  }

  // ---------- reading ----------

  /** Non-null cells are the store's entries, and a healthy server leaves out none. */
  ghost predicate Faithful(s: Server, keys: seq<string>, cells: seq<Option<string>>)
    requires |keys| == |cells|
  {
    && (forall i :: 0 <= i < |keys| && cells[i].Some? ==> keys[i] in s.store && cells[i].value == s.store[keys[i]])
    && (s.Healthy() ==> forall i :: 0 <= i < |keys| && keys[i] in s.store ==> cells[i].Some?)
  }

  lemma FaithfulConcat(s: Server, keys: seq<string>, n: nat, tail: seq<Option<string>>)
    requires n <= |keys| && |tail| == |keys| - n && Faithful(s.Next(), keys[n..], tail)
    ensures Faithful(s, keys, s.ReadMany(keys[..n]) + tail)
    ensures s.Healthy() ==> s.Next().Healthy()
  {
    var cells := s.ReadMany(keys[..n]) + tail;
    forall i | 0 <= i < |keys|
      ensures cells[i].Some? ==> keys[i] in s.store && cells[i].value == s.store[keys[i]]
      ensures s.Healthy() && keys[i] in s.store ==> cells[i].Some?
    {
      if i < n {
        assert cells[i] == s.Read(keys[i]);
      } else {
        assert cells[i] == tail[i - n] && keys[n..][i - n] == keys[i];
      }
    }
  }

  lemma {:induction false} ReadBlocksCells(s: Server, keys: seq<string>, block: nat)
    requires block > 0
    ensures var (cells, s') := ReadBlocks(s, keys, block);
      s'.store == s.store && (s.Healthy() ==> s'.Healthy()) && Faithful(s, keys, cells)
    decreases |keys|
  {
    if keys != [] {
      var n := if |keys| < block then |keys| else block;
      ReadBlocksCells(s.Next(), keys[n..], block);
      FaithfulConcat(s, keys, n, ReadBlocks(s.Next(), keys[n..], block).0);
    }
  }

  lemma {:induction false} NeededExactly<K>(keys: seq<K>, cells: seq<Option<string>>)
    requires |keys| == |cells| && NoDuplicates(keys)
    ensures NoDuplicates(Needed(keys, cells))
    ensures forall i :: 0 <= i < |keys| ==> (keys[i] in Needed(keys, cells) <==> cells[i].None?)
  {
    if keys != [] {
      NeededExactly(keys[1..], cells[1..]);
      assert keys[0] !in Needed(keys[1..], cells[1..]) by {
        assert forall j :: 0 <= j < |keys[1..]| ==> keys[1..][j] == keys[j + 1];
      }
      forall i | 0 <= i < |keys|
        ensures keys[i] in Needed(keys, cells) <==> cells[i].None?
      {
        if i > 0 {
          assert keys[i] == keys[1..][i - 1] && cells[i] == cells[1..][i - 1];
        }
      }
    }
  }

  /** Cells read from a coherent region give exactly the rows of the keys that were cached. */
  lemma {:induction false} HitsAreRows<K(!new), E(!new)>(c: Config<K, E>, rows: map<K, E>, dict: map<K, E>, keys: seq<K>, cells: seq<Option<string>>)
    requires Lawful(c) && |keys| == |cells|
    requires forall k :: k in dict ==> k in rows && dict[k] == rows[k]
    requires forall i :: 0 <= i < |keys| && cells[i].Some? ==> cells[i].value == c.Cell(rows, keys[i])
    ensures var hits := Hits(c, dict, keys, cells);
      && (forall k :: k in hits ==> k in rows && hits[k] == rows[k])
      && (forall k :: k in dict ==> k in hits)
      && (forall k :: k in hits ==> k in dict || k in keys)
      && (forall i :: 0 <= i < |keys| && cells[i].Some? && keys[i] in rows ==> keys[i] in hits)
    decreases keys
  {
    if keys != [] {
      var dict' := match cells[0]
        case None => dict
        case Some(v) => if v == NOT_IN_DB then dict else dict[keys[0] := c.deserialize(v)];
      HitsAreRows(c, rows, dict', keys[1..], cells[1..]);
      forall i | 0 <= i < |keys| && cells[i].Some? && keys[i] in rows
        ensures keys[i] in Hits(c, dict, keys, cells)
      {
        if i > 0 {
          assert keys[1..][i - 1] == keys[i] && cells[1..][i - 1] == cells[i];
        }
      }
    }
  }

  // ---------- loading ----------

  lemma AnswersConcat<K(!new), E(!new)>(c: Config<K, E>, rows: map<K, E>, a: seq<K>, b: seq<K>, es: seq<E>, es': seq<E>)
    requires NoDuplicates(a + b)
    requires Answers(c, rows, a, es) && Answers(c, rows, b, es')
    ensures Answers(c, rows, a + b, es + es')
  {
    forall i, j | 0 <= i < |es| && 0 <= j < |es'|
      ensures c.getKey(es[i]) != c.getKey(es'[j])
    {
      var x :| 0 <= x < |a| && a[x] == c.getKey(es[i]);
      var y :| 0 <= y < |b| && b[y] == c.getKey(es'[j]);
      assert (a + b)[x] == a[x] && (a + b)[|a| + y] == b[y];
    }
  }

  /** Loading in blocks answers as one load would, whatever the block size. */
  lemma {:induction false} LoadBlocksAnswers<K(!new), E(!new)>(c: Config<K, E>, db: Database<K, E>, keys: seq<K>, max: nat)
    requires max > 0 && Pointwise(c) && RowsKeyed(c, db.rows) && NoDuplicates(keys)
    ensures var (loaded, db') := LoadBlocks(c, db, keys, max);
      && db'.rows == db.rows
      && (loaded.Some? ==> Answers(c, db.rows, keys, loaded.value))
      && (db.Healthy() ==> loaded.Some? && db'.Healthy())
    decreases |keys|
  {
    if |keys| > max {
      assert keys == keys[..max] + keys[max..];
      LoadBlocksAnswers(c, db.Next(), keys[max..], max);
      if !db.Failing() {
        var (rest, _) := LoadBlocks(c, db.Next(), keys[max..], max);
        if rest.Some? {
          AnswersConcat(c, db.rows, keys[..max], keys[max..], c.load(db.rows, keys[..max]), rest.value);
        }
      }
    }
  }

  /** Some load made between `db` and `db'` threw. */
  ghost predicate Threw<K, E>(db: Database<K, E>, db': Database<K, E>) {
    exists i :: 0 <= i < |db.faults| - |db'.faults| && db.faults[i]
  }

  lemma ThrewOnce<K, E>(db: Database<K, E>)
    ensures Threw(db, db.Next()) <==> db.Failing()
  {
    if db.Failing() {
      assert db.faults[0];
    }
  }

  lemma ThrewLater<K, E>(db: Database<K, E>, db': Database<K, E>)
    requires !db.Failing() && |db'.faults| <= |db.Next().faults|
    ensures Threw(db, db') <==> Threw(db.Next(), db')
  {
    if db.faults != [] {
      if i :| 0 <= i < |db.faults| - |db'.faults| && db.faults[i] {
        assert db.Next().faults[i - 1];
      }
      if i :| 0 <= i < |db.Next().faults| - |db'.faults| && db.Next().faults[i] {
        assert db.faults[i + 1];
      }
    }
  }

  /** A blocked load fails exactly if one of the loads it makes throws. */
  lemma {:induction false} LoadFailsExactly<K, E>(c: Config<K, E>, db: Database<K, E>, keys: seq<K>, max: nat)
    requires max > 0
    ensures var (loaded, db') := LoadBlocks(c, db, keys, max);
      |db'.faults| <= |db.faults| && (loaded.None? <==> Threw(db, db'))
    decreases |keys|
  {
    ThrewOnce(db);
    if |keys| > max && !db.Failing() {
      LoadFailsExactly(c, db.Next(), keys[max..], max);
      ThrewLater(db, LoadBlocks(c, db.Next(), keys[max..], max).1);
      if db.faults == [] {
        assert db.Next() == db;
      }
    }
  }

  lemma {:induction false} IndexMeaning<K(!new), E(!new)>(c: Config<K, E>, dict: map<K, E>, es: seq<E>)
    ensures forall k :: k in Index(c, dict, es) <==> k in dict || exists i :: 0 <= i < |es| && c.getKey(es[i]) == k
    ensures forall k :: k in Index(c, dict, es) ==>
      (k in dict && Index(c, dict, es)[k] == dict[k]) ||
      exists i :: 0 <= i < |es| && c.getKey(es[i]) == k && Index(c, dict, es)[k] == es[i]
    decreases es
  {
    if es != [] {
      var e, rest := es[0], es[1..];
      IndexMeaning(c, dict[c.getKey(e) := e], rest);
      assert es == [e] + rest;
      forall k
        ensures k in Index(c, dict, es) <==> k in dict || exists i :: 0 <= i < |es| && c.getKey(es[i]) == k
        ensures k in Index(c, dict, es) ==>
          (k in dict && Index(c, dict, es)[k] == dict[k]) ||
          exists i :: 0 <= i < |es| && c.getKey(es[i]) == k && Index(c, dict, es)[k] == es[i]
      {
        if i :| 0 <= i < |rest| && c.getKey(rest[i]) == k && k in Index(c, dict, es) && Index(c, dict, es)[k] == rest[i] {
          assert es[i + 1] == rest[i];
        } else if i :| 0 <= i < |rest| && c.getKey(rest[i]) == k {
          assert es[i + 1] == rest[i];
          assert es[0] == e;
        } else {
          assert es[0] == e;
        }
      }
    }
  }

  /** Indexing an answer on top of correct hits yields exactly the rows of the keys concerned. */
  lemma IndexedRows<K(!new), E(!new)>(c: Config<K, E>, rows: map<K, E>, hits: map<K, E>, needed: seq<K>, es: seq<E>, k: K)
    requires RowsKeyed(c, rows) && Answers(c, rows, needed, es)
    requires forall k :: k in hits ==> k in rows && hits[k] == rows[k]
    ensures k in Index(c, hits, es) <==> k in rows && (k in hits || k in needed)
    ensures k in Index(c, hits, es) ==> Index(c, hits, es)[k] == rows[k]
  {
    IndexMeaning(c, hits, es);
    if k in rows && k in needed {
      assert rows[k] in es;
      var i :| 0 <= i < |es| && es[i] == rows[k];
      assert c.getKey(es[i]) == k;
    }
  }

  // ---------- writing back ----------

  lemma {:induction false} PutRowsFill<K(!new), E(!new)>(c: Config<K, E>, rows: map<K, E>, s: Server, es: seq<E>)
    requires Lawful(c) && Coherent(c, rows, s.store)
    requires forall i :: 0 <= i < |es| ==> c.getKey(es[i]) in rows && es[i] == rows[c.getKey(es[i])]
    ensures FilledFrom(c, rows, s, PutRows(c, s, es))
    ensures s.Healthy() ==> forall i :: 0 <= i < |es| ==> c.Key(c.getKey(es[i])) in PutRows(c, s, es).store
    decreases es
  {
    if es != [] {
      var s' := s.Write(c.Key(c.getKey(es[0])), c.serialize(es[0]));
      CorrectWrite(c, rows, s, c.getKey(es[0]));
      PutRowsFill(c, rows, s', es[1..]);
      if s.Healthy() {
        forall i | 0 <= i < |es|
          ensures c.Key(c.getKey(es[i])) in PutRows(c, s, es).store
        {
          if i > 0 {
            assert es[i] == es[1..][i - 1];
          }
        }
      }
    }
  }

  lemma {:induction false} PutMarkersFill<K(!new), E(!new)>(c: Config<K, E>, rows: map<K, E>, s: Server, dict: map<K, E>, needed: seq<K>)
    requires Lawful(c) && Coherent(c, rows, s.store)
    requires forall k :: k in needed && k !in dict ==> k !in rows
    ensures FilledFrom(c, rows, s, PutMarkers(c, s, dict, needed))
    ensures s.Healthy() ==> forall k :: k in needed && k !in dict ==> c.Key(k) in PutMarkers(c, s, dict, needed).store
    decreases needed
  {
    if needed != [] {
      CorrectWrite(c, rows, s, needed[0]);
      PutMarkersFill(c, rows, if needed[0] in dict then s else s.Write(c.Key(needed[0]), NOT_IN_DB), dict, needed[1..]);
    }
  }

  /**
   * The shortcut that skips the marker pass is sound and complete: the counts agree exactly
   * when every needed key was found, that is when the pass would write nothing.
   */
  lemma MarkerPassSkippable<K(!new), E(!new)>(c: Config<K, E>, rows: map<K, E>, needed: seq<K>, es: seq<E>)
    requires RowsKeyed(c, rows) && NoDuplicates(needed) && Answers(c, rows, needed, es)
    ensures |es| == |needed| <==> forall k :: k in needed ==> k in rows
  {
    var found := seq(|es|, i requires 0 <= i < |es| => c.getKey(es[i]));
    NoDuplicatesCardinality(found);
    NoDuplicatesCardinality(needed);
    assert ToSet(found) <= ToSet(needed);
    if |es| == |needed| {
      SubsetOfSameSize(ToSet(found), ToSet(needed));
      forall k | k in needed
        ensures k in rows
      {
        assert k in ToSet(found);
      }
    }
    if forall k :: k in needed ==> k in rows {
      forall k | k in needed
        ensures k in found
      {
        var i :| 0 <= i < |es| && es[i] == rows[k];
        assert found[i] == k;
      }
      assert ToSet(found) == ToSet(needed);
    }
  }

  // ---------- the answer ----------

  lemma {:induction false} SelectAgree<K(!new), E(!new)>(a: map<K, E>, b: map<K, E>, keys: seq<K>)
    requires forall k :: k in keys ==> (k in a <==> k in b) && (k in a ==> a[k] == b[k])
    ensures Select(a, keys) == Select(b, keys)
  {
    if keys != [] {
      SelectAgree(a, b, keys[1..]);
    }
  }

  lemma {:induction false} SelectSubsequence<K(!new), E(!new)>(a: map<K, E>, b: map<K, E>, keys: seq<K>)
    requires forall k :: k in keys && k in a ==> k in b && a[k] == b[k]
    ensures IsSubsequence(Select(a, keys), Select(b, keys))
  {
    if keys != [] {
      SelectSubsequence(a, b, keys[1..]);
      assert Select(a, keys)[(if keys[0] in a then 1 else 0)..] == Select(a, keys[1..]);
      assert Select(b, keys)[(if keys[0] in b then 1 else 0)..] == Select(b, keys[1..]);
    }
  }

  lemma {:induction false} SelectAppend<K(!new), E(!new)>(dict: map<K, E>, keys: seq<K>, k: K)
    ensures Select(dict, keys + [k]) == Select(dict, keys) + (if k in dict then [dict[k]] else [])
  {
    var last := if k in dict then [dict[k]] else [];
    if keys == [] {
      assert keys + [k] == [k] && [k][1..] == [];
      assert Select(dict, [k]) == last + Select(dict, [k][1..]);
    } else {
      var first := if keys[0] in dict then [dict[keys[0]]] else [];
      var keys' := keys + [k];
      assert keys'[1..] == keys[1..] + [k] && keys'[0] == keys[0];
      SelectAppend(dict, keys[1..], k);
      assert Select(dict, keys') == first + (Select(dict, keys[1..]) + last);
    }
  }

  /** One more request puts its row last, if it is a new key with a row. */
  lemma OrderOneMore<K(!new), E(!new)>(es: seq<E>, es': seq<E>, rows: map<K, E>, keys: seq<K>, k: K)
    requires RequestOrder(es, rows, keys)
    requires es' == es + (if k in rows && k !in keys then [rows[k]] else [])
    ensures RequestOrder(es', rows, keys + [k])
  {
    var keys' := keys + [k];
    assert keys'[..|keys|] == keys;
    forall i: nat | i < |keys'| && keys'[i] in rows && keys'[i] !in keys'[..i]
      ensures StandsAt(es', rows, keys', i)
    {
      if i < |keys| {
        assert keys'[..i] == keys[..i];
        assert StandsAt(es, rows, keys, i);
      }
    }
  }

  /** The reference lookup gives the rows in request order, whatever repeats the request holds. */
  lemma {:induction false} LookupInOrder<K(!new), E(!new)>(rows: map<K, E>, keys: seq<K>)
    ensures RequestOrder(Lookup(rows, keys), rows, keys)
  {
    if keys != [] {
      var n := |keys| - 1;
      var init, k := keys[..n], keys[n];
      LookupInOrder(rows, init);
      assert keys == init + [k];
      SelectAppend(rows, Distinct(init), k);
      OrderOneMore(Lookup(rows, init), Lookup(rows, keys), rows, init, k);
    }
  }

  lemma {:induction false} DistinctKeeps<K(!new)>(keys: seq<K>)
    requires NoDuplicates(keys)
    ensures Distinct(keys) == keys
  {
    if keys != [] {
      DistinctKeeps(keys[..|keys| - 1]);
      assert keys == keys[..|keys| - 1] + [keys[|keys| - 1]];
    }
  }

  lemma SelectInOrder<K(!new), E(!new)>(dict: map<K, E>, keys: seq<K>)
    requires NoDuplicates(keys)
    ensures RequestOrder(Select(dict, keys), dict, keys)
  {
    DistinctKeeps(keys);
    LookupInOrder(dict, keys);
  }

  ghost predicate OrderKept<K, E>(es: seq<E>, dict: map<K, E>, keys: seq<K>) {
    NoDuplicates(keys) ==> RequestOrder(es, dict, keys)
  }

  lemma SelectKeepsOrder<K(!new), E(!new)>(dict: map<K, E>, keys: seq<K>)
    ensures OrderKept(Select(dict, keys), dict, keys)
  {
    if NoDuplicates(keys) {
      SelectInOrder(dict, keys);
    }
  }

  /** Request order leaves no choice: it determines the list. */
  lemma {:induction false} OrderDetermines<K(!new), E(!new)>(a: seq<E>, b: seq<E>, rows: map<K, E>, keys: seq<K>)
    requires RequestOrder(a, rows, keys) && RequestOrder(b, rows, keys)
    ensures a == b
    decreases keys
  {
    if keys != [] {
      var n, m := |keys| - 1, FoundAmong(rows, keys[..|keys| - 1]);
      OrderOfFewer(a, rows, keys);
      OrderOfFewer(b, rows, keys);
      OrderDetermines(a[..m], b[..m], rows, keys[..n]);
      if keys[n] in rows && keys[n] !in keys[..n] {
        assert StandsAt(a, rows, keys, n) && StandsAt(b, rows, keys, n);
        assert a == a[..m] + [a[m]] && b == b[..m] + [b[m]];
      } else {
        assert a == a[..m] && b == b[..m];
      }
    }
  }

  lemma OrderOfFewer<K(!new), E(!new)>(es: seq<E>, rows: map<K, E>, keys: seq<K>)
    requires keys != [] && RequestOrder(es, rows, keys)
    ensures var n := |keys| - 1; var m := FoundAmong(rows, keys[..n]);
      m <= |es| && RequestOrder(es[..m], rows, keys[..n])
  {
    var n := |keys| - 1;
    var m := FoundAmong(rows, keys[..n]);
    forall i: nat | i < n && keys[..n][i] in rows && keys[..n][i] !in keys[..n][..i]
      ensures StandsAt(es[..m], rows, keys[..n], i)
    {
      assert keys[..n][..i] == keys[..i];
      assert StandsAt(es, rows, keys, i);
      RankBelow(rows, keys[..n], i);
    }
  }

  lemma {:induction false} RankBelow<K(!new), E(!new)>(rows: map<K, E>, keys: seq<K>, i: nat)
    requires i < |keys| && keys[i] in rows && keys[i] !in keys[..i]
    ensures FoundAmong(rows, keys[..i]) < FoundAmong(rows, keys)
  {
    var n := |keys| - 1;
    if i < n {
      assert keys[..n][..i] == keys[..i];
      RankBelow(rows, keys[..n], i);
    }
  }

  lemma AnswersInView<K(!new), E(!new)>(c: Config<K, E>, rows: map<K, E>, view: map<K, E>, stale: set<K>, keys: seq<K>, es: seq<E>)
    requires Answers(c, rows, keys, es) && AgreeOutside(view, rows, stale)
    requires forall k :: k in keys ==> k !in stale
    ensures Answers(c, view, keys, es)
  {
  }

  /** The second half of the batch `Get`, from any correct set of hits. */
  lemma CompleteCorrect<K(!new), E(!new)>(
      c: Config<K, E>, st: State<K, E>, view: map<K, E>, stale: set<K>, keys: seq<K>, hits: map<K, E>, needed: seq<K>)
    requires Lawful(c) && Pointwise(c) && Shows(c, st, view, stale)
    requires NoDuplicates(needed) && forall k :: k in needed ==> k in keys && k !in stale
    requires forall k :: k in hits ==> k in view && hits[k] == view[k]
    requires forall k :: k in keys && k !in needed && k in view ==> k in hits
    ensures var (es, st') := Complete(c, st, keys, hits, needed);
      && st'.db.rows == st.db.rows
      && FilledFrom(c, view, st.server, st'.server)
      && IsSubsequence(es, Select(view, keys))
      && (LoadBlocks(c, st.db, needed, c.loadBlock).0.None? ==> st'.server == st.server)
      && (!Threw(st.db, st'.db) ==> es == Select(view, keys))
      && (st.db.Healthy() ==> es == Select(view, keys) && st'.db.Healthy())
      && (st.db.Healthy() && st.server.Healthy() ==> forall k :: k in needed ==> c.Key(k) in st'.server.store)
  {
    SelectSubsequence(hits, view, keys);
    if needed == [] {
      SelectAgree(hits, view, keys);
    } else {
      LoadBlocksAnswers(c, st.db, needed, c.loadBlock);
      LoadFailsExactly(c, st.db, needed, c.loadBlock);
      var (loaded, db) := LoadBlocks(c, st.db, needed, c.loadBlock);
      if loaded.Some? {
        AnswersInView(c, st.db.rows, view, stale, needed, loaded.value);
        LoadedCorrect(c, view, st.server, keys, hits, needed, loaded.value);
        SelectSubsequence(view, view, keys);
      }
    }
  }

  lemma LoadedCorrect<K(!new), E(!new)>(c: Config<K, E>, rows: map<K, E>, s: Server, keys: seq<K>, hits: map<K, E>, needed: seq<K>, es: seq<E>)
    requires Lawful(c) && RowsKeyed(c, rows) && Coherent(c, rows, s.store)
    requires NoDuplicates(needed) && (forall k :: k in needed ==> k in keys) && Answers(c, rows, needed, es)
    requires forall k :: k in hits ==> k in rows && hits[k] == rows[k]
    requires forall k :: k in keys && k !in needed && k in rows ==> k in hits
    ensures Select(Index(c, hits, es), keys) == Select(rows, keys)
    ensures var s1 := PutRows(c, s, es);
      var s2 := if |es| != |needed| then PutMarkers(c, s1, Index(c, hits, es), needed) else s1;
      && FilledFrom(c, rows, s, s2)
      && (s.Healthy() ==> forall k :: k in needed ==> c.Key(k) in s2.store)
  {
    var dict := Index(c, hits, es);
    forall k
      ensures k in dict <==> k in rows && (k in hits || k in needed)
      ensures k in dict ==> dict[k] == rows[k]
    {
      IndexedRows(c, rows, hits, needed, es, k);
    }
    SelectAgree(dict, rows, keys);
    PutRowsFill(c, rows, s, es);
    var s1 := PutRows(c, s, es);
    PutMarkersFill(c, rows, s1, dict, needed);
    MarkerPassSkippable(c, rows, needed, es);
    if s.Healthy() {
      forall k | k in needed && k in rows
        ensures c.Key(k) in s1.store
      {
        var i :| 0 <= i < |es| && es[i] == rows[k];
        assert c.getKey(es[i]) == k;
      }
    }
  }

  /**
   * The batch path shows its view: it answers the view's rows of the distinct keys in request
   * order, whatever the block sizes and whatever mix of hits, misses and markers it meets, and
   * goes on showing the view. With no stale key it does so whichever cache calls fail. If a
   * database load throws, the answer is an order-preserving part of the right one.
   */
  lemma GetGeneralShows<K(!new), E(!new)>(c: Config<K, E>, st: State<K, E>, view: map<K, E>, stale: set<K>, keys: seq<K>, force: bool)
    requires Lawful(c) && Pointwise(c) && Shows(c, st, view, stale)
    requires force ==> forall k :: k in stale ==> k !in keys
    ensures var (es, st') := GetGeneral(c, st, keys, force);
      && st'.db.rows == st.db.rows
      && Shows(c, st', view, stale)
      && SameOutside(c.prefix, st.server.store, st'.server.store)
      && (st.server.Healthy() ==> st'.server.Healthy())
      && IsSubsequence(es, Lookup(view, keys))
      && (!Threw(st.db, st'.db) ==> es == Lookup(view, keys))
      && (st.db.Healthy() ==> es == Lookup(view, keys) && st'.db.Healthy())
      && (st.db.Healthy() && st.server.Healthy() ==> forall k :: k in keys ==> c.Key(k) in st'.server.store)
  {
    var ks := Distinct(keys);
    if force {
      var s := RemoveMany(c, st.server, keys);
      if keys != [] {
        DeleteCoherent(c, view, st.server, set k | k in keys :: c.Key(k));
      }
      assert forall k :: k in keys ==> c.prefix <= c.Key(k);
      forall k | k in stale
        ensures c.Key(k) in s.store
      {
        forall k' | k' in keys && c.Key(k') == c.Key(k)
          ensures k' == k
        {
          KeyInjective(c, k, k');
        }
      }
      CompleteCorrect(c, st.(server := s), view, stale, ks, map[], ks);
    } else {
      ReadBlocksCells(st.server, RedisKeys(c, ks), c.readBlock);
      var (cells, s) := ReadBlocks(st.server, RedisKeys(c, ks), c.readBlock);
      NeededExactly(ks, cells);
      HitsAreRows(c, view, map[], ks, cells);
      CompleteCorrect(c, st.(server := s), view, stale, ks, Hits(c, map[], ks, cells), Needed(ks, cells));
    }
  }

  /**
   * The batch path refines a plain filtered lookup: from a coherent region it answers the
   * database's rows of the distinct keys in request order and leaves the region coherent.
   */
  lemma GetGeneralCorrect<K(!new), E(!new)>(c: Config<K, E>, st: State<K, E>, keys: seq<K>, force: bool)
    requires Lawful(c) && Pointwise(c) && RowsKeyed(c, st.db.rows) && Coherent(c, st.db.rows, st.server.store)
    ensures var (es, st') := GetGeneral(c, st, keys, force);
      && st'.db.rows == st.db.rows
      && Coherent(c, st.db.rows, st'.server.store)
      && SameOutside(c.prefix, st.server.store, st'.server.store)
      && IsSubsequence(es, Lookup(st.db.rows, keys))
      && (st.db.Healthy() ==> es == Lookup(st.db.rows, keys) && RequestOrder(es, st.db.rows, keys))
      && (st.db.Healthy() && st.server.Healthy() ==> forall k :: k in keys ==> c.Key(k) in st'.server.store)
  {
    GetGeneralShows(c, st, st.db.rows, {}, keys, force);
    LookupInOrder(st.db.rows, keys);
  }

  /** The keys the batch path asks the database for. */
  function Requested<K(!new), E>(c: Config<K, E>, s: Server, keys: seq<K>, force: bool): seq<K>
    requires c.Sized()
  {
    var ks := Distinct(keys);
    if force then ks else Needed(ks, ReadBlocks(s, RedisKeys(c, ks), c.readBlock).0)
  }

  /**
   * If any block of the load throws, no row and no marker is written: the region is as before,
   * but for the keys that a forced call removed first.
   */
  lemma FailedLoadWritesNothing<K(!new), E(!new)>(c: Config<K, E>, st: State<K, E>, keys: seq<K>, force: bool)
    requires c.Sized()
    requires LoadBlocks(c, st.db, Requested(c, st.server, keys, force), c.loadBlock).0.None?
    ensures GetGeneral(c, st, keys, force).1.server.store ==
      if force then RemoveMany(c, st.server, keys).store else st.server.store
  {
    ReadBlocksCells(st.server, RedisKeys(c, Distinct(keys)), c.readBlock);
  }

  /** What the single-key `Get` starts from still shows the view. */
  lemma StartShows<K(!new), E(!new)>(c: Config<K, E>, st: State<K, E>, view: map<K, E>, stale: set<K>, k: K, force: bool)
    requires Lawful(c) && Shows(c, st, view, stale) && (force ==> k !in stale)
    ensures var s := if force then st.server.Delete({c.Key(k)}) else st.server.Next();
      && Shows(c, st.(server := s), view, stale) && SameOutside(c.prefix, st.server.store, s.store)
      && (st.server.Healthy() ==> s.Healthy())
  {
    var s := if force then st.server.Delete({c.Key(k)}) else st.server.Next();
    assert c.prefix <= c.Key(k);
    DeleteCoherent(c, view, st.server, {c.Key(k)});
    forall k' | k' in stale
      ensures c.Key(k') in s.store
    {
      if force && c.Key(k') == c.Key(k) {
        KeyInjective(c, k, k');
      }
    }
  }

  /** The single-key `Get`, case by case. */
  lemma GetOneForm<K(!new), E(!new)>(c: Config<K, E>, st: State<K, E>, k: K, force: bool)
    requires PointwiseOnOne(c) && RowsKeyed(c, st.db.rows)
    ensures var (r, st') := GetOne(c, st, k, force);
      var s := if force then st.server.Delete({c.Key(k)}) else st.server.Next();
      var cell := st.server.Read(c.Key(k));
      if !force && cell.Some? then
        && st' == st.(server := s)
        && r == Success(if cell.value == NOT_IN_DB then None else Some(c.deserialize(cell.value)))
      else if st.db.Failing() then r.Failure? && st' == State(s, st.db.Next())
      else
        && st' == State(s.Write(c.Key(k), c.Cell(st.db.rows, k)), st.db.Next())
        && r == Success(if k in st.db.rows then Some(st.db.rows[k]) else None)
  {
    OneKeyAnswer(c, st.db.rows, k);
  }

  /** The single-key `Get` shows the view, and throws exactly when it had to load and the load threw. */
  lemma GetOneShows<K(!new), E(!new)>(c: Config<K, E>, st: State<K, E>, view: map<K, E>, stale: set<K>, k: K, force: bool)
    requires Lawful(c) && PointwiseOnOne(c) && Shows(c, st, view, stale)
    requires force ==> k !in stale
    ensures var (r, st') := GetOne(c, st, k, force);
      && st'.db.rows == st.db.rows
      && Shows(c, st', view, stale)
      && SameOutside(c.prefix, st.server.store, st'.server.store)
      && (r.Success? ==> r.value == if k in view then Some(view[k]) else None)
      && (r.Failure? <==> st.db.Failing() && (force || st.server.Read(c.Key(k)).None?))
      && (r.Failure? <==> Threw(st.db, st'.db))
      && (st.db.Healthy() ==> r.Success? && st'.db.Healthy())
      && (r.Success? && st.server.Healthy() ==> c.Key(k) in st'.server.store)
  {
    var s := if force then st.server.Delete({c.Key(k)}) else st.server.Next();
    StartShows(c, st, view, stale, k, force);
    GetOneForm(c, st, k, force);
    ThrewOnce(st.db);
    if force || st.server.Read(c.Key(k)).None? {
      assert k !in stale;
      assert c.Cell(view, k) == c.Cell(st.db.rows, k);
      CorrectWrite(c, view, s, k);
    }
  }

  lemma OneKeyAnswer<K(!new), E(!new)>(c: Config<K, E>, rows: map<K, E>, k: K)
    requires PointwiseOnOne(c) && RowsKeyed(c, rows)
    ensures c.load(rows, [k]) == if k in rows then [rows[k]] else []
  {
    var es := c.load(rows, [k]);
    assert Answers(c, rows, [k], es);
    assert forall i :: 0 <= i < |es| ==> c.getKey(es[i]) == k && es[i] == rows[k];
    var found := seq(|es|, i requires 0 <= i < |es| => c.getKey(es[i]));
    NoDuplicatesCardinality(found);
    SubsetCardinality(ToSet(found), {k});
    assert es != [] ==> c.getKey(es[0]) in rows;
    if k in rows {
      assert k in [k] && rows[k] in es;
      assert es == [rows[k]];
    }
  }

  lemma PointwiseImpliesOnOne<K(!new), E(!new)>(c: Config<K, E>)
    requires Pointwise(c)
    ensures PointwiseOnOne(c)
  {
    forall rows, k | RowsKeyed(c, rows)
      ensures Answers(c, rows, [k], c.load(rows, [k]))
    {
      assert NoDuplicates([k]);
    }
  }

  /**
   * The one-key shortcut is the general path on one key: same answer and same server, entry
   * for entry and call for call. They part only when the load throws, which the shortcut
   * reports and the general path swallows.
   */
  lemma OneKeyShortcut<K(!new), E(!new)>(c: Config<K, E>, st: State<K, E>, k: K, force: bool)
    requires Lawful(c) && PointwiseOnOne(c) && RowsKeyed(c, st.db.rows)
    ensures var (r, st') := GetMany(c, st, [k], force);
      GetGeneral(c, st, [k], force) == (if r.Success? then r.value else [], st')
  {
    OneKeyAnswer(c, st.db.rows, k);
    if force {
      OneKeyForced(c, st, k);
      OneKeyComplete(c, st.(server := st.server.Delete({c.Key(k)})), k);
    } else {
      OneKeyUnforced(c, st, k);
      OneKeyComplete(c, st.(server := st.server.Next()), k);
    }
  }

  lemma DistinctOne<K(!new)>(k: K)
    ensures Distinct([k]) == [k]
  {
    assert [k][..0] == [];
  }

  lemma OneKeyForced<K(!new), E(!new)>(c: Config<K, E>, st: State<K, E>, k: K)
    requires c.Sized()
    ensures GetGeneral(c, st, [k], true) == Complete(c, st.(server := st.server.Delete({c.Key(k)})), [k], map[], [k])
  {
    DistinctOne(k);
    assert (set x | x in [k] :: c.Key(x)) == {c.Key(k)};
  }

  lemma OneKeyUnforced<K(!new), E(!new)>(c: Config<K, E>, st: State<K, E>, k: K)
    requires c.Sized()
    ensures var cell := st.server.Read(c.Key(k));
      var st1 := st.(server := st.server.Next());
      GetGeneral(c, st, [k], false) ==
        if cell.None? then Complete(c, st1, [k], map[], [k])
        else (if cell.value == NOT_IN_DB then [] else [c.deserialize(cell.value)], st1)
  {
    DistinctOne(k);
    OneKeyRead(c, st.server, k);
    var cell := st.server.Read(c.Key(k));
    assert [k][1..] == [] && [cell][1..] == [];
    assert Needed([k], [cell]) == if cell.None? then [k] else [];
    if cell.None? {
      assert Hits<K, E>(c, map[], [k], [cell]) == Hits(c, map[], [k][1..], [cell][1..]);
    } else {
      OneKeyHit(c, k, cell.value);
    }
  }

  lemma OneKeyRead<K(!new), E(!new)>(c: Config<K, E>, s: Server, k: K)
    requires c.Sized()
    ensures ReadBlocks(s, RedisKeys(c, [k]), c.readBlock) == ([s.Read(c.Key(k))], s.Next())
  {
    var rk := RedisKeys(c, [k]);
    assert rk[1..] == [] && rk[..1] == rk;
    assert s.ReadMany(rk) == [s.Read(c.Key(k))];
    assert ReadBlocks(s.Next(), rk[1..], c.readBlock) == ([], s.Next());
    assert s.ReadMany(rk) + [] == s.ReadMany(rk);
  }

  lemma OneKeyHit<K(!new), E(!new)>(c: Config<K, E>, k: K, v: string)
    ensures Select(Hits(c, map[], [k], [Some(v)]), [k]) == if v == NOT_IN_DB then [] else [c.deserialize(v)]
  {
    var dict: map<K, E> := if v == NOT_IN_DB then map[] else map[k := c.deserialize(v)];
    assert [k][1..] == [] && [Some(v)][1..] == [];
    assert Hits(c, map[], [k], [Some(v)]) == Hits(c, dict, [k][1..], [Some(v)][1..]);
    assert Select(dict, [k]) == (if k in dict then [dict[k]] else []) + Select(dict, [k][1..]);
  }

  lemma OneKeyComplete<K(!new), E(!new)>(c: Config<K, E>, st: State<K, E>, k: K)
    requires Lawful(c) && PointwiseOnOne(c) && RowsKeyed(c, st.db.rows)
    ensures Complete(c, st, [k], map[], [k]) ==
      match Load(c, st.db, [k])
      case None => ([], State(st.server, st.db.Next()))
      case Some(es) => (es, State(st.server.Write(c.Key(k), c.Cell(st.db.rows, k)), st.db.Next()))
  {
    OneKeyAnswer(c, st.db.rows, k);
    assert [k][1..] == [];
    assert Select<K, E>(map[], [k]) == Select<K, E>(map[], [k][1..]);
    assert LoadBlocks(c, st.db, [k], c.loadBlock) == (Load(c, st.db, [k]), st.db.Next());
    if k in st.db.rows {
      var e := st.db.rows[k];
      assert [e][1..] == [];
      assert Index(c, map[], [e]) == Index(c, map[k := e], [e][1..]);
      assert PutRows(c, st.server, [e]) == PutRows(c, st.server.Write(c.Key(k), c.serialize(e)), [e][1..]);
      assert Select(map[k := e], [k]) == [e] + Select(map[k := e], [k][1..]);
      assert !st.db.Failing() ==> Complete(c, st, [k], map[], [k]).0 == [e];
    } else {
      var s' := st.server.Write(c.Key(k), NOT_IN_DB);
      assert PutMarkers<K, E>(c, st.server, map[], [k]) == PutMarkers<K, E>(c, s', map[], [k][1..]);
    }
  }

  /** A `Set` that goes through puts the entity under its own key and touches no other; a lost one does nothing. */
  lemma SetStores<K(!new), E(!new)>(c: Config<K, E>, s: Server, e: E)
    ensures var store := Set(c, s, e).store; var key := c.prefix + c.keyText(c.getKey(e));
      && (!s.Failing() ==> key in store && store[key] == c.serialize(e))
      && (forall x :: x != key || s.Failing() ==>
            (x in store <==> x in s.store) && (x in store ==> store[x] == s.store[x]))
  {
  }

  /** The next unforced get that is answered yields the entity, whatever row the database holds, and loads nothing. */
  lemma SetThenGet<K(!new), E(!new)>(c: Config<K, E>, st: State<K, E>, e: E)
    requires Lawful(c) && !st.server.Failing() && !Set(c, st.server, e).Failing()
    ensures var st' := st.(server := Set(c, st.server, e));
      GetOne(c, st', c.getKey(e), false) == (Success(Some(e)), st'.(server := st'.server.Next()))
  {
    SetStores(c, st.server, e);
  }

  /** Removals that go through delete the given keys and no others; lost ones do nothing. */
  lemma RemovesExactly<K(!new), E(!new)>(c: Config<K, E>, s: Server, keys: seq<K>)
    ensures var store := RemoveMany(c, s, keys).store;
      forall x :: var gone := !s.Failing() && exists k :: k in keys && x == c.prefix + c.keyText(k);
        (x in store <==> x in s.store && !gone) && (x in store ==> store[x] == s.store[x])
    ensures forall k :: k in keys && |keys| == 1 ==> Remove(c, s, k) == RemoveMany(c, s, keys)
  {
    forall k | k in keys && |keys| == 1
      ensures Remove(c, s, k) == RemoveMany(c, s, keys)
    {
      assert keys == [k];
      assert (set x | x in keys :: c.Key(x)) == {c.Key(k)};
    }
  }

  /** A forced `Get` answers from the database, whatever the cache holds or loses. */
  lemma ForcedGetIsCurrent<K(!new), E(!new)>(c: Config<K, E>, st: State<K, E>, keys: seq<K>)
    requires Lawful(c) && Pointwise(c) && RowsKeyed(c, st.db.rows) && st.db.Healthy()
    ensures GetGeneral(c, st, keys, true).0 == Lookup(st.db.rows, keys)
    ensures forall k :: GetOne(c, st, k, true).0 == Success(if k in st.db.rows then Some(st.db.rows[k]) else None)
  {
    var ks := Distinct(keys);
    LoadBlocksAnswers(c, st.db, ks, c.loadBlock);
    var (loaded, _) := LoadBlocks(c, st.db, ks, c.loadBlock);
    forall k
      ensures k in Index(c, map[], loaded.value) <==> k in st.db.rows && k in ks
      ensures k in Index(c, map[], loaded.value) ==> Index(c, map[], loaded.value)[k] == st.db.rows[k]
    {
      IndexedRows(c, st.db.rows, map[], ks, loaded.value, k);
    }
    SelectAgree(Index(c, map[], loaded.value), st.db.rows, ks);
    PointwiseImpliesOnOne(c);
    forall k
      ensures GetOne(c, st, k, true).0 == Success(if k in st.db.rows then Some(st.db.rows[k]) else None)
    {
      OneKeyAnswer(c, st.db.rows, k);
    }
  }
}
