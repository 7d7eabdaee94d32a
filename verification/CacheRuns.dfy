/** Whole runs of the entity cache against a system that has no cache at all. */
module CacheRuns {
  import opened Collections
  import opened RedisCache
  import opened EntityCache
  import opened EntityCacheTheorems

  /** One request, or one thing that happens to the region. */
  datatype Op<K, E> =
    | One(key: K, force: bool)
    | Many(keys: seq<K>, force: bool)
    | Evict(keys: seq<K>)
    | FlushAll
    | Expire(redisKey: string)
    /** Write, or with `None` delete, a row and then remove its key from the cache. */
    | UpdateThenRemove(key: K, row: Option<E>)
    /** Write a row and then put it into the cache. */
    | UpdateThenSet(row': E)

  datatype Answer<E> =
    | Found(one: Result<Option<E>, LoadError>)
    | Listed(many: Result<seq<E>, LoadError>)
    | Done

  function WriteRow<K, E>(rows: map<K, E>, k: K, row: Option<E>): (r: map<K, E>)
    ensures (k in r <==> row.Some?) && (row.Some? ==> r[k] == row.value)
    ensures forall k' :: k' != k && k' in rows ==> k' in r && r[k'] == rows[k']
    ensures forall k' :: k' != k && k' in r ==> k' in rows
  {
    match row
    case Some(e) => rows[k := e]
    case None => rows - {k}
  }

  function Step<K(!new), E>(c: Config<K, E>, st: State<K, E>, op: Op<K, E>): (Answer<E>, State<K, E>)
    requires c.Sized()
  {
    match op
    case One(k, force) => var (r, st') := GetOne(c, st, k, force); (Found(r), st')
    case Many(keys, force) => var (r, st') := GetMany(c, st, keys, force); (Listed(r), st')
    case Evict(keys) => (Done, st.(server := RemoveMany(c, st.server, keys)))
    case FlushAll => (Done, st.(server := FlushRegion(st.server, c.prefix).1))
    case Expire(x) => (Done, st.(server := st.server.(store := st.server.store - {x})))
    case UpdateThenRemove(k, row) =>
      (Done, State(Remove(c, st.server, k), st.db.(rows := WriteRow(st.db.rows, k, row))))
    case UpdateThenSet(e) =>
      (Done, State(Set(c, st.server, e), st.db.(rows := st.db.rows[c.getKey(e) := e])))
  }

  /** The same request on the bare rows: the reference system. */
  function PlainStep<K(!new), E>(c: Config<K, E>, rows: map<K, E>, op: Op<K, E>): (Answer<E>, map<K, E>) {
    match op
    case One(k, _) => (Found(Success(if k in rows then Some(rows[k]) else None)), rows)
    case Many(keys, _) => (Listed(Success(Lookup(rows, keys))), rows)
    case UpdateThenRemove(k, row) => (Done, WriteRow(rows, k, row))
    case UpdateThenSet(e) => (Done, rows[c.getKey(e) := e])
    case _ => (Done, rows)
  }

  function Run<K(!new), E>(c: Config<K, E>, st: State<K, E>, ops: seq<Op<K, E>>): (seq<Answer<E>>, State<K, E>)
    requires c.Sized()
    decreases ops
  {
    if ops == [] then ([], st)
    else
      var (a, st1) := Step(c, st, ops[0]);
      var (rest, st2) := Run(c, st1, ops[1..]);
      ([a] + rest, st2)
  }

  function PlainRun<K(!new), E>(c: Config<K, E>, rows: map<K, E>, ops: seq<Op<K, E>>): (seq<Answer<E>>, map<K, E>)
    decreases ops
  {
    if ops == [] then ([], rows)
    else
      var (a, rows1) := PlainStep(c, rows, ops[0]);
      var (rest, rows2) := PlainRun(c, rows1, ops[1..]);
      ([a] + rest, rows2)
  }

  /** `op` neither removes nor overwrites the entry of any key in `stale`, and rows keep their keys. */
  ghost predicate Spares<K(!new), E>(c: Config<K, E>, op: Op<K, E>, stale: set<K>) {
    match op
    case One(k, force) => force ==> k !in stale
    case Many(keys, force) => force ==> forall k :: k in stale ==> k !in keys
    case Evict(keys) => forall k :: k in stale ==> k !in keys
    case FlushAll => stale == {}
    case Expire(x) => forall k :: k in stale ==> c.Key(k) != x
    case UpdateThenRemove(k, row) => k !in stale && (row.Some? ==> c.getKey(row.value) == k)
    case UpdateThenSet(e) => c.getKey(e) !in stale
  }

  predicate Updates<K, E>(op: Op<K, E>) {
    op.UpdateThenRemove? || op.UpdateThenSet?
  }

  /** Every operation spares `stale`, and no invalidation after a database write is lost. */
  ghost predicate Reliable<K(!new), E>(c: Config<K, E>, st: State<K, E>, stale: set<K>, ops: seq<Op<K, E>>)
    requires c.Sized()
    decreases ops
  {
    ops == [] ||
    (&& Spares(c, ops[0], stale)
     && (Updates(ops[0]) ==> !st.server.Failing())
     && Reliable(c, Step(c, st, ops[0]).1, stale, ops[1..]))
  }

  /** The loader is up to the requests: pointwise, or asked for one key at a time. */
  ghost predicate Adequate<K(!new), E(!new)>(c: Config<K, E>, ops: seq<Op<K, E>>) {
    || Pointwise(c)
    || (PointwiseOnOne(c) && forall i :: 0 <= i < |ops| && ops[i].Many? ==> |ops[i].keys| <= 1)
  }

  lemma StepShows<K(!new), E(!new)>(c: Config<K, E>, st: State<K, E>, view: map<K, E>, stale: set<K>, op: Op<K, E>)
    requires Lawful(c) && Adequate(c, [op]) && Shows(c, st, view, stale) && st.db.Healthy()
    requires Spares(c, op, stale) && (Updates(op) ==> !st.server.Failing())
    ensures var (a, st') := Step(c, st, op);
      var (a', view') := PlainStep(c, view, op);
      a == a' && Shows(c, st', view', stale) && st'.db.Healthy()
  {
    if Pointwise(c) {
      PointwiseImpliesOnOne(c);
    }
    assert [op][0] == op;
    match op
    case One(k, force) =>
      GetOneShows(c, st, view, stale, k, force);
    case Many(keys, force) =>
      ManyShows(c, st, view, stale, keys, force);
    case Evict(keys) =>
      EvictShows(c, st, view, stale, keys);
    case FlushAll =>
    case Expire(x) =>
    case UpdateThenRemove(k, row) =>
      UpdateShows(c, st, view, stale, k, row, false);
    case UpdateThenSet(e) =>
      UpdateShows(c, st, view, stale, c.getKey(e), Some(e), true);
  }

  lemma EvictShows<K(!new), E(!new)>(c: Config<K, E>, st: State<K, E>, view: map<K, E>, stale: set<K>, keys: seq<K>)
    requires Lawful(c) && Shows(c, st, view, stale) && forall k :: k in stale ==> k !in keys
    ensures Shows(c, st.(server := RemoveMany(c, st.server, keys)), view, stale)
  {
    forall k, k' | k in stale && k' in keys
      ensures c.Key(k) != c.Key(k')
    {
      if c.Key(k) == c.Key(k') {
        KeyInjective(c, k, k');
      }
    }
  }

  lemma ManyShows<K(!new), E(!new)>(c: Config<K, E>, st: State<K, E>, view: map<K, E>, stale: set<K>, keys: seq<K>, force: bool)
    requires Lawful(c) && PointwiseOnOne(c) && (Pointwise(c) || |keys| <= 1) && Shows(c, st, view, stale) && st.db.Healthy()
    requires force ==> forall k :: k in stale ==> k !in keys
    ensures var (r, st') := GetMany(c, st, keys, force);
      && r == Success(Lookup(view, keys)) && RequestOrder(r.value, view, keys)
      && Shows(c, st', view, stale) && st'.db.Healthy()
  {
    LookupInOrder(view, keys);
    if |keys| == 1 {
      var k := keys[0];
      GetOneShows(c, st, view, stale, k, force);
      assert keys == [k] && keys[..0] == [] && Distinct(keys) == [k] && [k][1..] == [];
      assert Select(view, [k]) == if k in view then [view[k]] else [];
    } else if keys != [] {
      GetGeneralShows(c, st, view, stale, keys, force);
    }
  }

  /** A database write whose invalidation goes through moves the view along. */
  lemma UpdateShows<K(!new), E(!new)>(c: Config<K, E>, st: State<K, E>, view: map<K, E>, stale: set<K>, k: K, row: Option<E>, set': bool)
    requires Lawful(c) && Shows(c, st, view, stale) && !st.server.Failing()
    requires k !in stale && (row.Some? ==> c.getKey(row.value) == k) && (set' ==> row.Some?)
    ensures var s := if set' then Set(c, st.server, row.value) else Remove(c, st.server, k);
      Shows(c, State(s, st.db.(rows := WriteRow(st.db.rows, k, row))), WriteRow(view, k, row), stale)
  {
    var s := if set' then Set(c, st.server, row.value) else Remove(c, st.server, k);
    var view' := WriteRow(view, k, row);
    forall k' | c.Key(k') in s.store
      ensures s.store[c.Key(k')] == c.Cell(view', k')
    {
      if c.Key(k') == c.Key(k) {
        KeyInjective(c, k, k');
      }
    }
    forall k' | k' in stale
      ensures c.Key(k') in s.store
    {
      if c.Key(k') == c.Key(k) {
        KeyInjective(c, k, k');
      }
    }
  }

  /**
   * Every run of single and batch, forced and unforced gets, removals, flushes, expiries and
   * database writes followed by `Remove` or `Set` answers exactly as the reference system does
   * and ends coherent. Reads, fills, plain removals and flushes may fail silently at will; only
   * the invalidation after a database write has to go through.
   *
   * With stale keys the reference system starts from the old view: a row hidden by a marker
   * stays hidden, and an outdated row stays shown, until some operation clears its key.
   */
  lemma {:induction false} RunMatchesPlain<K(!new), E(!new)>(
      c: Config<K, E>, st: State<K, E>, view: map<K, E>, stale: set<K>, ops: seq<Op<K, E>>)
    requires Lawful(c) && Adequate(c, ops) && Shows(c, st, view, stale) && st.db.Healthy()
    requires Reliable(c, st, stale, ops)
    ensures var (answers, st') := Run(c, st, ops);
      var (answers', view') := PlainRun(c, view, ops);
      answers == answers' && Shows(c, st', view', stale)
    decreases ops
  {
    if ops != [] {
      assert Adequate(c, [ops[0]]) && Adequate(c, ops[1..]);
      StepShows(c, st, view, stale, ops[0]);
      RunMatchesPlain(c, Step(c, st, ops[0]).1, PlainStep(c, view, ops[0]).1, stale, ops[1..]);
    }
  }

  /** From a coherent region every run matches the plain database. */
  lemma CoherentRunMatchesDatabase<K(!new), E(!new)>(c: Config<K, E>, st: State<K, E>, ops: seq<Op<K, E>>)
    requires Lawful(c) && Adequate(c, ops) && RowsKeyed(c, st.db.rows) && st.db.Healthy()
    requires Coherent(c, st.db.rows, st.server.store) && Reliable(c, st, {}, ops)
    ensures Run(c, st, ops).0 == PlainRun(c, st.db.rows, ops).0
    ensures Coherent(c, Run(c, st, ops).1.db.rows, Run(c, st, ops).1.server.store)
  {
    RunMatchesPlain(c, st, st.db.rows, {}, ops);
    var (_, st') := Run(c, st, ops);
    var (_, view') := PlainRun(c, st.db.rows, ops);
    assert view' == st'.db.rows;
  }

  /** Right, or, if a load threw, a reported failure or part of the right list in order. */
  ghost predicate Acceptable<E>(a: Answer<E>, right: Answer<E>, threw: bool) {
    || a == right
    || (threw && a.Found? && right.Found? && a.one.Failure?)
    || (threw && a.Listed? && right.Listed? && right.many.Success? &&
        (a.many.Failure? || IsSubsequence(a.many.value, right.many.value)))
  }

  /** A load made by the `i`-th operation of the run threw. */
  ghost predicate ThrewAt<K(!new), E>(c: Config<K, E>, st: State<K, E>, ops: seq<Op<K, E>>, i: nat)
    requires c.Sized() && i < |ops|
    decreases ops
  {
    var st' := Step(c, st, ops[0]).1;
    if i == 0 then Threw(st.db, st'.db) else ThrewAt(c, st', ops[1..], i - 1)
  }

  lemma ThrowingStepShows<K(!new), E(!new)>(c: Config<K, E>, st: State<K, E>, view: map<K, E>, stale: set<K>, op: Op<K, E>)
    requires Lawful(c) && Adequate(c, [op]) && Shows(c, st, view, stale)
    requires Spares(c, op, stale) && (Updates(op) ==> !st.server.Failing())
    ensures var (a, st') := Step(c, st, op);
      var (right, view') := PlainStep(c, view, op);
      Acceptable(a, right, Threw(st.db, st'.db)) && Shows(c, st', view', stale)
  {
    if Pointwise(c) {
      PointwiseImpliesOnOne(c);
    }
    assert [op][0] == op;
    match op
    case One(k, force) =>
      GetOneShows(c, st, view, stale, k, force);
    case Many(keys, force) =>
      ThrowingManyShows(c, st, view, stale, keys, force);
    case Evict(keys) =>
      EvictShows(c, st, view, stale, keys);
    case FlushAll =>
    case Expire(x) =>
    case UpdateThenRemove(k, row) =>
      UpdateShows(c, st, view, stale, k, row, false);
    case UpdateThenSet(e) =>
      UpdateShows(c, st, view, stale, c.getKey(e), Some(e), true);
  }

  lemma ThrowingManyShows<K(!new), E(!new)>(c: Config<K, E>, st: State<K, E>, view: map<K, E>, stale: set<K>, keys: seq<K>, force: bool)
    requires Lawful(c) && PointwiseOnOne(c) && (Pointwise(c) || |keys| <= 1) && Shows(c, st, view, stale)
    requires force ==> forall k :: k in stale ==> k !in keys
    ensures var (r, st') := GetMany(c, st, keys, force);
      && Shows(c, st', view, stale) && (r.Failure? || IsSubsequence(r.value, Lookup(view, keys)))
      && (!Threw(st.db, st'.db) ==> r == Success(Lookup(view, keys)))
  {
    if |keys| == 1 {
      GetOneShows(c, st, view, stale, keys[0], force);
      assert keys == [keys[0]];
      DistinctOne(keys[0]);
      OneInLookup(view, keys[0]);
    } else if keys != [] {
      GetGeneralShows(c, st, view, stale, keys, force);
    }
  }

  lemma OneInLookup<K(!new), E(!new)>(view: map<K, E>, k: K)
    ensures Lookup(view, [k]) == if k in view then [view[k]] else []
    ensures IsSubsequence(Lookup(view, [k]), Lookup(view, [k]))
  {
    DistinctOne(k);
    assert [k][1..] == [];
    assert Select(view, [k]) == (if k in view then [view[k]] else []) + Select(view, [k][1..]);
    if k in view {
      assert [view[k]] + [] == [view[k]] && [view[k]][1..] == [];
      assert IsSubsequence<E>([], []);
    }
  }

  /**
   * The same runs with database loads that may throw: each answer is right, unless a load that this very
   * operation makes throws; then it may be an order-preserving part of the right list or a reported failure.
   * The cache goes on showing what it did.
   */
  lemma {:induction false} RunWithThrowingLoads<K(!new), E(!new)>(
      c: Config<K, E>, st: State<K, E>, view: map<K, E>, stale: set<K>, ops: seq<Op<K, E>>)
    requires Lawful(c) && Adequate(c, ops) && Shows(c, st, view, stale) && Reliable(c, st, stale, ops)
    ensures var (answers, st') := Run(c, st, ops);
      var (right, view') := PlainRun(c, view, ops);
      && |answers| == |right| == |ops| && (forall i :: 0 <= i < |ops| ==> Acceptable(answers[i], right[i], ThrewAt(c, st, ops, i)))
      && Shows(c, st', view', stale)
    decreases ops
  {
    if ops != [] {
      assert forall i :: 0 <= i < |ops[1..]| ==> ops[1..][i] == ops[i + 1];
      ThrowingStepShows(c, st, view, stale, ops[0]);
      var st1, view1 := Step(c, st, ops[0]).1, PlainStep(c, view, ops[0]).1;
      RunWithThrowingLoads(c, st1, view1, stale, ops[1..]);
      forall i | 0 <= i < |ops|
        ensures Acceptable(Run(c, st, ops).0[i], PlainRun(c, view, ops).0[i], ThrewAt(c, st, ops, i))
      {
        assert i > 0 ==> ThrewAt(c, st, ops, i) == ThrewAt(c, st1, ops[1..], i - 1);
      }
    }
  }

  /** From a coherent region every run keeps it coherent, whatever reads, fills and loads fail. */
  lemma CoherentRunWithThrowingLoads<K(!new), E(!new)>(c: Config<K, E>, st: State<K, E>, ops: seq<Op<K, E>>)
    requires Lawful(c) && Adequate(c, ops) && RowsKeyed(c, st.db.rows)
    requires Coherent(c, st.db.rows, st.server.store) && Reliable(c, st, {}, ops)
    ensures var (answers, st') := Run(c, st, ops);
      var right := PlainRun(c, st.db.rows, ops).0;
      && |answers| == |right| == |ops| && (forall i :: 0 <= i < |ops| ==> Acceptable(answers[i], right[i], ThrewAt(c, st, ops, i)))
      && Coherent(c, st'.db.rows, st'.server.store)
  {
    RunWithThrowingLoads(c, st, st.db.rows, {}, ops);
    var st', view' := Run(c, st, ops).1, PlainRun(c, st.db.rows, ops).1;
    forall k | c.Key(k) in st'.server.store
      ensures st'.server.store[c.Key(k)] == c.Cell(st'.db.rows, k)
    {
      assert c.Cell(view', k) == c.Cell(st'.db.rows, k);
    }
  }

  /** With an unchanging database no pattern of cache failures changes any answer. */
  lemma FailuresAreInvisible<K(!new), E(!new)>(c: Config<K, E>, st: State<K, E>, faults: seq<bool>, connected: bool, ops: seq<Op<K, E>>)
    requires Lawful(c) && Pointwise(c) && RowsKeyed(c, st.db.rows) && st.db.Healthy()
    requires Coherent(c, st.db.rows, st.server.store)
    requires forall i :: 0 <= i < |ops| ==> !Updates(ops[i])
    ensures Run(c, st.(server := st.server.(faults := faults, connected := connected)), ops).0 == Run(c, st, ops).0
  {
    var faulty := st.(server := st.server.(faults := faults, connected := connected));
    ReadOnlyReliable(c, st, ops);
    ReadOnlyReliable(c, faulty, ops);
    CoherentRunMatchesDatabase(c, st, ops);
    CoherentRunMatchesDatabase(c, faulty, ops);
  }

  lemma {:induction false} ReadOnlyReliable<K(!new), E(!new)>(c: Config<K, E>, st: State<K, E>, ops: seq<Op<K, E>>)
    requires c.Sized() && forall i :: 0 <= i < |ops| ==> !Updates(ops[i])
    ensures Reliable(c, st, {}, ops)
    decreases ops
  {
    if ops != [] {
      ReadOnlyReliable(c, Step(c, st, ops[0]).1, ops[1..]);
    }
  }

  function WrittenKey<K, E>(c: Config<K, E>, op: Op<K, E>): K
    requires Updates(op)
  {
    if op.UpdateThenRemove? then op.key else c.getKey(op.row')
  }

  /**
   * Losing the invalidation: after a database write whose `Remove` or `Set` fails, the region is
   * coherent if and only if the key was not cached or its cell did not change.
   */
  lemma LostInvalidation<K(!new), E(!new)>(c: Config<K, E>, st: State<K, E>, op: Op<K, E>)
    requires Lawful(c) && Coherent(c, st.db.rows, st.server.store) && st.server.Failing() && Updates(op)
    ensures var st' := Step(c, st, op).1; var k := WrittenKey(c, op);
      Coherent(c, st'.db.rows, st'.server.store) <==>
      c.Key(k) !in st.server.store || c.Cell(PlainStep(c, st.db.rows, op).1, k) == c.Cell(st.db.rows, k)
  {
    var st' := Step(c, st, op).1;
    var k := WrittenKey(c, op);
    if c.Key(k) !in st.server.store || c.Cell(st'.db.rows, k) == c.Cell(st.db.rows, k) {
      forall k' | c.Key(k') in st'.server.store
        ensures st'.server.store[c.Key(k')] == c.Cell(st'.db.rows, k')
      {
        if k' != k {
          assert c.Cell(st'.db.rows, k') == c.Cell(st.db.rows, k');
        }
      }
    }
  }

  /** A cache of a table with one row, a text. */
  function OneRow(): Config<(), string> {
    Config((rows: map<(), string>, keys: seq<()>) => if keys != [] && () in rows then [rows[()]] else [],
           (e: string) => (), (k: ()) => "", (e: string) => "x" + e, (s: string) => if s == "" then "" else s[1..],
           "Row:", 50, 100)
  }

  lemma OneRowLawful()
    ensures Lawful(OneRow())
  {
    forall e: string
      ensures OneRow().deserialize(OneRow().serialize(e)) == e && OneRow().serialize(e) != NOT_IN_DB
    {
      assert ("x" + e)[1..] == e && ("x" + e)[0] == 'x';
    }
  }

  /** A cached row is updated, the `Remove` or `Set` after it is lost, and the next get answers the old row. */
  lemma LostInvalidationShows(op: Op<(), string>)
    requires op == UpdateThenRemove((), Some("new")) || op == UpdateThenSet("new")
    ensures var st := State(Server(map["Row:" := "xold"], true, [true]), Database(map[() := "old"], []));
      var (answers, st') := Run(OneRow(), st, [op, One((), false)]);
      && answers == [Done, Found(Success(Some("old")))] && st'.db.rows == map[() := "new"]
      && Lawful(OneRow()) && Coherent(OneRow(), st.db.rows, st.server.store)
  {
    OneRowLawful();
    var c, ops := OneRow(), [op, One((), false)];
    var st := State(Server(map["Row:" := "xold"], true, [true]), Database(map[() := "old"], []));
    assert forall k :: c.Key(k) == "Row:" + "" == "Row:";
    assert "x" + "old" == "xold" && "xold"[1..] == "old" && "xold"[0] != NOT_IN_DB[0];
    var (a1, st1) := Step(c, st, op);
    assert st1.server == Server(map["Row:" := "xold"], true, []);
    assert ops[1..] == [One((), false)] && ops[1..][1..] == [];
    var (a2, st2) := Step(c, st1, One((), false));
    assert a2 == Found(Success(Some("old")));
    assert Run(c, st2, []) == ([], st2);
    assert Run(c, st1, ops[1..]) == ([a2] + [], st2);
  }

  /**
   * A marker outlives the insertion of its row: whatever reliable run follows, as long as it
   * spares the key, the answers are those of a database that never got the row.
   */
  lemma MarkerHidesInsertedRow<K(!new), E(!new)>(c: Config<K, E>, st: State<K, E>, e: E, ops: seq<Op<K, E>>)
    requires Lawful(c) && Pointwise(c) && RowsKeyed(c, st.db.rows) && st.db.Healthy() && st.server.Healthy()
    requires Coherent(c, st.db.rows, st.server.store)
    requires c.getKey(e) !in st.db.rows && c.Key(c.getKey(e)) in st.server.store
    requires Reliable(c, st.(db := st.db.(rows := st.db.rows[c.getKey(e) := e])), {c.getKey(e)}, ops)
    ensures var inserted := st.(db := st.db.(rows := st.db.rows[c.getKey(e) := e]));
      && Run(c, inserted, ops).0 == PlainRun(c, st.db.rows, ops).0
      && c.Key(c.getKey(e)) in Run(c, inserted, ops).1.server.store
      && Run(c, inserted, ops).1.server.store[c.Key(c.getKey(e))] == NOT_IN_DB
  {
    var k := c.getKey(e);
    var inserted := st.(db := st.db.(rows := st.db.rows[k := e]));
    assert Shows(c, inserted, st.db.rows, {k});
    RunMatchesPlain(c, inserted, st.db.rows, {k}, ops);
    PlainRunKeepsAbsent(c, inserted, st.db.rows, k, ops);
  }

  lemma {:induction false} PlainRunKeepsAbsent<K(!new), E(!new)>(c: Config<K, E>, st: State<K, E>, view: map<K, E>, k: K, ops: seq<Op<K, E>>)
    requires c.Sized() && Reliable(c, st, {k}, ops) && k !in view
    ensures k !in PlainRun(c, view, ops).1
    decreases ops
  {
    if ops != [] {
      PlainRunKeepsAbsent(c, Step(c, st, ops[0]).1, PlainStep(c, view, ops[0]).1, k, ops[1..]);
    }
  }

  /** The operations that end the hiding of `k`. */
  ghost predicate Clears<K(!new), E>(c: Config<K, E>, op: Op<K, E>, k: K) {
    match op
    case One(k', force) => force && k' == k
    case Many(keys, force) => force && k in keys
    case Evict(keys) => k in keys
    case FlushAll => true
    case Expire(x) => x == c.Key(k)
    case UpdateThenRemove(k', row) => k' == k && (row.Some? ==> c.getKey(row.value) == k)
    case UpdateThenSet(e) => c.getKey(e) == k
  }

  /** Any one of them, reaching the server, makes the region coherent with the current rows. */
  lemma ClearingRestores<K(!new), E(!new)>(c: Config<K, E>, st: State<K, E>, view: map<K, E>, k: K, op: Op<K, E>)
    requires Lawful(c) && Pointwise(c) && Shows(c, st, view, {k}) && st.db.Healthy()
    requires Clears(c, op, k)
    ensures var st' := Step(c, st, op).1; Coherent(c, st'.db.rows, st'.server.store)
  {
    PointwiseImpliesOnOne(c);
    match op
    case One(_, _) =>
      ForcedOneRestores(c, st, view, k);
    case Many(keys, _) =>
      if |keys| == 1 {
        assert keys == [k];
        ForcedOneRestores(c, st, view, k);
      } else {
        var st1 := st.(server := RemoveMany(c, st.server, keys));
        DeletedKeyCoherent(c, st, view, k, set x | x in keys :: c.Key(x));
        var ks := Distinct(keys);
        CompleteCorrect(c, st1, st.db.rows, {}, ks, map[], ks);
      }
    case Evict(keys) =>
      DeletedKeyCoherent(c, st, view, k, set x | x in keys :: c.Key(x));
    case FlushAll =>
      assert c.prefix <= c.Key(k);
      DeletedKeyCoherent(c, st.(server := st.server.Next()), view, k, st.server.KeysWith(c.prefix));
    case Expire(x) =>
      DeletedKeyCoherent(c, st, view, k, {x});
    case UpdateThenRemove(_, row) =>
      OverwrittenKeyCoherent(c, st, view, k, row, false);
    case UpdateThenSet(e) =>
      OverwrittenKeyCoherent(c, st, view, k, Some(e), true);
  }

  lemma DeletedKeyCoherent<K(!new), E(!new)>(c: Config<K, E>, st: State<K, E>, view: map<K, E>, k: K, gone: set<string>)
    requires Shows(c, st, view, {k}) && c.Key(k) in gone
    ensures Coherent(c, st.db.rows, st.server.store - gone)
    ensures st.server.Delete(gone).store == st.server.store - gone
    ensures st.server.Delete(gone).Healthy()
  {
    var store := st.server.store - gone;
    forall k' | c.Key(k') in store
      ensures store[c.Key(k')] == c.Cell(st.db.rows, k')
    {
      assert k' != k;
      assert c.Cell(st.db.rows, k') == c.Cell(view, k');
    }
  }

  lemma OverwrittenKeyCoherent<K(!new), E(!new)>(c: Config<K, E>, st: State<K, E>, view: map<K, E>, k: K, row: Option<E>, set': bool)
    requires Lawful(c) && Shows(c, st, view, {k})
    requires (row.Some? ==> c.getKey(row.value) == k) && (set' ==> row.Some?)
    ensures var s := if set' then Set(c, st.server, row.value) else Remove(c, st.server, k);
      Coherent(c, WriteRow(st.db.rows, k, row), s.store)
  {
    var s := if set' then Set(c, st.server, row.value) else Remove(c, st.server, k);
    var rows' := WriteRow(st.db.rows, k, row);
    forall k' | c.Key(k') in s.store
      ensures s.store[c.Key(k')] == c.Cell(rows', k')
    {
      if c.Key(k') == c.Key(k) {
        KeyInjective(c, k, k');
      } else {
        assert c.Cell(rows', k') == c.Cell(view, k');
      }
    }
  }

  lemma ForcedOneRestores<K(!new), E(!new)>(c: Config<K, E>, st: State<K, E>, view: map<K, E>, k: K)
    requires Lawful(c) && PointwiseOnOne(c) && Shows(c, st, view, {k}) && st.db.Healthy()
    ensures var st' := GetOne(c, st, k, true).1; Coherent(c, st'.db.rows, st'.server.store)
  {
    var s := st.server.Delete({c.Key(k)});
    DeletedKeyCoherent(c, st, view, k, {c.Key(k)});
    CorrectWrite(c, st.db.rows, s, k);
    OneKeyAnswer(c, st.db.rows, k);
  }
}
