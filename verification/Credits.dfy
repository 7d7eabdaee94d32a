/**
 * `User.GetCredits` with `Credit.Render`: the orders behind a user's credits are looked up
 * through the order cache, and orders the partner created are imported on the way.
 */
module Credits {
  import opened Collections
  import opened RedisCache
  import opened EntityCache
  import opened EntityCacheTheorems
  import opened CacheRuns
  import opened EntityCacheClass

  datatype Credit = Credit(txn: int, package: int)

  function Txns(credits: seq<Credit>): (r: seq<int>)
    ensures |r| == |credits| && forall i :: 0 <= i < |r| ==> r[i] == credits[i].txn
  {
    seq(|credits|, i requires 0 <= i < |credits| => credits[i].txn)
  }

  predicate Missed<E(!new)>(r: Result<Option<E>, LoadError>) {
    r.Success? && r.value.None?
  }

  /** Insert the partner's order `t`, if it has one. */
  function Import<E>(st: State<int, E>, ext: map<int, E>, t: int): State<int, E> {
    if t in ext then st.(db := st.db.(rows := st.db.rows[t := ext[t]])) else st
  }

  /** One round of the pre-fetch loop: refresh, and on a miss import and look again; false if a load throws. */
  function PrefetchOne<E(!new)>(c: Config<int, E>, st: State<int, E>, ext: map<int, E>, t: int): (bool, State<int, E>) {
    var (r, st1) := GetOne(c, st, t, true);
    if Missed(r) && t in ext then
      var (r', st2) := GetOne(c, Import(st1, ext, t), t, false);
      (r'.Success?, st2)
    else (r.Success?, st1)
  }

  function Prefetch<E(!new)>(c: Config<int, E>, st: State<int, E>, ext: map<int, E>, txns: seq<int>): (bool, State<int, E>)
    decreases txns
  {
    if txns == [] then (true, st)
    else
      var (ok, st1) := PrefetchOne(c, st, ext, txns[0]);
      if ok then Prefetch(c, st1, ext, txns[1..]) else (false, st1)
  }

  /** The credits whose product and order are both found, with their orders; a throwing load ends it. */
  function Render<E(!new)>(c: Config<int, E>, st: State<int, E>, products: set<int>, credits: seq<Credit>)
    : (Result<seq<(Credit, E)>, LoadError>, State<int, E>)
    decreases credits
  {
    if credits == [] then (Success([]), st)
    else
      var (r, st1) := GetOne(c, st, credits[0].txn, false);
      if r.Failure? then (Failure(r.error), st1)
      else
        var (rest, st2) := Render(c, st1, products, credits[1..]);
        if rest.Success? && credits[0].package in products && r.value.Some?
        then (Success([(credits[0], r.value.value)] + rest.value), st2) else (rest, st2)
  }

  function GetCredits<E(!new)>(c: Config<int, E>, st: State<int, E>, ext: map<int, E>, products: set<int>, credits: seq<Credit>)
    : (Result<seq<(Credit, E)>, LoadError>, State<int, E>)
    requires c.Sized()
  {
    var (ok, st1) := Prefetch(c, st, ext, Txns(credits));
    if !ok then (Failure(LoadThrew), st1)
    else
      var (orders, st2) := GetMany(c, st1, Txns(credits), false);
      if orders.Failure? then (Failure(LoadThrew), st2) else Render(c, st2, products, credits)
  }

  /** What the call ought to list for a given set of visible orders. */
  function Listing<E>(orders: map<int, E>, products: set<int>, credits: seq<Credit>): seq<(Credit, E)> {
    if credits == [] then []
    else
      var rest := Listing(orders, products, credits[1..]);
      if credits[0].package in products && credits[0].txn in orders
      then [(credits[0], orders[credits[0].txn])] + rest else rest
  }

  /** The pre-fetch loop as it runs, on the order cache object. */
  method RunPrefetch<E(!new)>(cache: EntityCacheBase<int, E>, ext: map<int, E>, txns: seq<int>) returns (ok: bool)
    requires cache.Valid()
    modifies cache, cache.client.redis
    ensures (ok, cache.Current()) == Prefetch(cache.c, old(cache.Current()), ext, txns)
  {
    assert txns[0..] == txns;
    for i := 0 to |txns|
      invariant Prefetch(cache.c, cache.Current(), ext, txns[i..]) == Prefetch(cache.c, old(cache.Current()), ext, txns)
    {
      assert txns[i..][1..] == txns[i + 1..];
      var r := cache.GetOne(txns[i], true);
      if r.Failure? {
        return false;
      }
      if Missed(r) && txns[i] in ext {
        cache.db := cache.db.(rows := cache.db.rows[txns[i] := ext[txns[i]]]);
        r := cache.GetOne(txns[i], false);
        if r.Failure? {
          return false;
        }
      }
    }
    ok := true;
  }

  ghost function Before<E>(listed: seq<(Credit, E)>, rest: Result<seq<(Credit, E)>, LoadError>): Result<seq<(Credit, E)>, LoadError> {
    if rest.Failure? then rest else Success(listed + rest.value)
  }

  lemma BeforeNothing<E>(rest: Result<seq<(Credit, E)>, LoadError>)
    ensures Before([], rest) == rest
  {
    assert rest.Success? ==> [] + rest.value == rest.value;
  }

  lemma BeforeOne<E>(listed: seq<(Credit, E)>, x: (Credit, E), rest: Result<seq<(Credit, E)>, LoadError>)
    ensures Before(listed, Before([x], rest)) == Before(listed + [x], rest)
  {
    assert rest.Success? ==> listed + ([x] + rest.value) == listed + [x] + rest.value;
  }

  /** The rendering loop. */
  method RunRender<E(!new)>(cache: EntityCacheBase<int, E>, products: set<int>, credits: seq<Credit>)
    returns (r: Result<seq<(Credit, E)>, LoadError>)
    requires cache.Valid()
    modifies cache, cache.client.redis
    ensures (r, cache.Current()) == Render(cache.c, old(cache.Current()), products, credits)
  {
    var listed: seq<(Credit, E)> := [];
    ghost var (all, end) := Render(cache.c, cache.Current(), products, credits);
    assert credits[0..] == credits;
    BeforeNothing(all);
    for i := 0 to |credits|
      invariant Render(cache.c, cache.Current(), products, credits[i..]).1 == end
      invariant Before(listed, Render(cache.c, cache.Current(), products, credits[i..]).0) == all
    {
      assert credits[i..][1..] == credits[i + 1..];
      var order := cache.GetOne(credits[i].txn, false);
      if order.Failure? {
        return Failure(order.error);
      }
      if credits[i].package in products && order.value.Some? {
        BeforeOne(listed, (credits[i], order.value.value), Render(cache.c, cache.Current(), products, credits[i + 1..]).0);
        listed := listed + [(credits[i], order.value.value)];
      }
    }
    assert credits[|credits|..] == [] && listed + [] == listed;
    r := Success(listed);
  }

  method RunGetCredits<E(!new)>(cache: EntityCacheBase<int, E>, ext: map<int, E>, products: set<int>, credits: seq<Credit>)
    returns (r: Result<seq<(Credit, E)>, LoadError>)
    requires cache.Valid()
    modifies cache, cache.client.redis
    ensures (r, cache.Current()) == GetCredits(cache.c, old(cache.Current()), ext, products, credits)
  {
    var ok := RunPrefetch(cache, ext, Txns(credits));
    if !ok {
      return Failure(LoadThrew);
    }
    var orders := cache.GetMany(Txns(credits), false);
    if orders.Failure? {
      return Failure(LoadThrew);
    }
    r := RunRender(cache, products, credits);
  }

  ghost predicate KeyedPartner<E(!new)>(c: Config<int, E>, ext: map<int, E>) {
    forall t :: t in ext ==> c.getKey(ext[t]) == t
  }

  /** A forced get of a stale key makes it current and leaves the others stale. */
  lemma ForcedGetClears<E(!new)>(c: Config<int, E>, st: State<int, E>, view: map<int, E>, stale: set<int>, t: int)
    requires Lawful(c) && PointwiseOnOne(c) && Shows(c, st, view, stale) && st.db.Healthy() && st.server.Healthy()
    requires t in stale && t in st.db.rows
    ensures var (r, st') := GetOne(c, st, t, true);
      && r == Success(Some(st.db.rows[t])) && st'.db.rows == st.db.rows && st'.db.Healthy() && st'.server.Healthy()
      && Shows(c, st', view[t := st.db.rows[t]], stale - {t})
  {
    OneKeyAnswer(c, st.db.rows, t);
    var st' := GetOne(c, st, t, true).1;
    var view' := view[t := st.db.rows[t]];
    assert st'.server.store == (st.server.store - {c.Key(t)})[c.Key(t) := c.Cell(st.db.rows, t)];
    forall k | c.Key(k) in st'.server.store
      ensures st'.server.store[c.Key(k)] == c.Cell(view', k)
    {
      if c.Key(k) == c.Key(t) {
        KeyInjective(c, k, t);
      } else {
        assert c.Cell(view', k) == c.Cell(view, k);
      }
    }
    forall k | k in stale - {t}
      ensures c.Key(k) in st'.server.store
    {
    }
  }

  lemma ImportIsHidden<E(!new)>(c: Config<int, E>, st: State<int, E>, ext: map<int, E>, view: map<int, E>, stale: set<int>, t: int)
    requires Shows(c, st, view, stale) && KeyedPartner(c, ext) && t in ext && st.server.Healthy()
    requires c.Key(t) in st.server.store
    ensures Shows(c, Import(st, ext, t), view, stale + {t})
  {
  }

  /** An order that is in neither the database nor the view, and that the partner has. */
  lemma PrefetchImports<E(!new)>(c: Config<int, E>, st: State<int, E>, ext: map<int, E>, view: map<int, E>, stale: set<int>, t: int)
    requires Lawful(c) && PointwiseOnOne(c) && Shows(c, st, view, stale) && st.db.Healthy() && st.server.Healthy()
    requires KeyedPartner(c, ext) && t !in stale && t !in view && t in ext
    ensures var (ok, st') := PrefetchOne(c, st, ext, t);
      && ok && Shows(c, st', view, stale + {t}) && st'.db.Healthy() && st'.server.Healthy()
      && st'.db.rows == st.db.rows[t := ext[t]]
  {
    GetOneShows(c, st, view, stale, t, true);
    var (r, st1) := GetOne(c, st, t, true);
    assert st1.server.Healthy();
    ImportIsHidden(c, st1, ext, view, stale, t);
    GetOneShows(c, Import(st1, ext, t), view, stale + {t}, t, false);
  }

  /** Any other order that is not hidden: the refresh changes nothing. */
  lemma PrefetchRefreshes<E(!new)>(c: Config<int, E>, st: State<int, E>, ext: map<int, E>, view: map<int, E>, stale: set<int>, t: int)
    requires Lawful(c) && PointwiseOnOne(c) && Shows(c, st, view, stale) && st.db.Healthy() && st.server.Healthy()
    requires t !in stale && (t in view || t !in ext)
    ensures var (ok, st') := PrefetchOne(c, st, ext, t);
      ok && Shows(c, st', view, stale) && st'.db.Healthy() && st'.server.Healthy() && st'.db.rows == st.db.rows
  {
    GetOneShows(c, st, view, stale, t, true);
    assert GetOne(c, st, t, true).1.server.Healthy();
  }

  /**
   * One round of the pre-fetch. An order shown stays shown; an order imported earlier and still
   * hidden becomes shown; an order imported now is hidden by the marker the refresh just wrote.
   */
  lemma PrefetchOneShows<E(!new)>(c: Config<int, E>, st: State<int, E>, ext: map<int, E>, view: map<int, E>, stale: set<int>, t: int)
    returns (view': map<int, E>, stale': set<int>)
    requires Lawful(c) && PointwiseOnOne(c) && Shows(c, st, view, stale) && st.db.Healthy() && st.server.Healthy()
    requires KeyedPartner(c, ext) && Hidden(view, stale, st.db.rows)
    ensures var (ok, st') := PrefetchOne(c, st, ext, t);
      && ok && Shows(c, st', view', stale') && st'.db.Healthy() && st'.server.Healthy()
      && Hidden(view', stale', st'.db.rows)
      && st'.db.rows == (if t !in stale && t !in view && t in ext then st.db.rows[t := ext[t]] else st.db.rows)
    ensures view' == (if t in stale then view[t := st.db.rows[t]] else view)
    ensures stale' == (if t in stale then stale - {t} else if t !in view && t in ext then stale + {t} else stale)
  {
    view' := if t in stale then view[t := st.db.rows[t]] else view;
    stale' := if t in stale then stale - {t} else if t !in view && t in ext then stale + {t} else stale;
    if t in stale {
      ForcedGetClears(c, st, view, stale, t);
    } else if t !in view && t in ext {
      PrefetchImports(c, st, ext, view, stale, t);
    } else {
      PrefetchRefreshes(c, st, ext, view, stale, t);
    }
  }

  /** Stale keys are rows the view does not show. */
  ghost predicate Hidden<E>(view: map<int, E>, stale: set<int>, rows: map<int, E>) {
    forall t :: t in stale ==> t in rows && t !in view
  }

  ghost predicate ShownAfter<E>(view: map<int, E>, stale: set<int>, ext: map<int, E>, txns: seq<int>, t: int) {
    || t in view
    || (t in stale && t in txns)
    || (t !in stale && t in ext && Count(txns, t) >= 2)
  }

  ghost predicate HiddenAfter<E>(view: map<int, E>, stale: set<int>, ext: map<int, E>, txns: seq<int>, t: int) {
    || (t in stale && t !in txns)
    || (t !in view && t !in stale && t in ext && Count(txns, t) == 1)
  }

  lemma AfterOneRound<E>(ext: map<int, E>, view: map<int, E>, stale: set<int>, view1: map<int, E>, stale1: set<int>, txns: seq<int>, t: int)
    requires txns != [] && (txns[0] in stale ==> txns[0] !in view)
    requires view1.Keys == (if txns[0] in stale then view.Keys + {txns[0]} else view.Keys)
    requires stale1 == if txns[0] in stale then stale - {txns[0]}
                       else if txns[0] !in view && txns[0] in ext then stale + {txns[0]} else stale
    ensures ShownAfter(view1, stale1, ext, txns[1..], t) <==> ShownAfter(view, stale, ext, txns, t)
    ensures HiddenAfter(view1, stale1, ext, txns[1..], t) <==> HiddenAfter(view, stale, ext, txns, t)
  {
    CountMembership(txns[1..], t);
    assert t in txns <==> t == txns[0] || t in txns[1..];
    assert t in view1 <==> t in view1.Keys;
    assert t in view <==> t in view.Keys;
  }

  /** Every order is the one the database began with, or else the partner's. */
  ghost predicate Genuine<E>(orders: map<int, E>, base: map<int, E>, ext: map<int, E>) {
    forall t :: t in orders ==> if t in base then orders[t] == base[t] else t in ext && orders[t] == ext[t]
  }

  ghost predicate Traced<E>(view: map<int, E>, rows: map<int, E>, base: map<int, E>, ext: map<int, E>) {
    Genuine(view, base, ext) && Genuine(rows, base, ext) && base.Keys <= rows.Keys
  }

  lemma TracedAfterOne<E(!new)>(view: map<int, E>, rows: map<int, E>, stale: set<int>, base: map<int, E>, ext: map<int, E>, t: int)
    requires Traced(view, rows, base, ext) && Hidden(view, stale, rows) && AgreeOutside(view, rows, stale)
    ensures Traced(if t in stale then view[t := rows[t]] else view,
                   if t !in stale && t !in view && t in ext then rows[t := ext[t]] else rows, base, ext)
  {
  }

  /** Which orders are shown and hidden after the loop, and where they come from. */
  lemma {:induction false} PrefetchShows<E(!new)>(c: Config<int, E>, st: State<int, E>, ext: map<int, E>, base: map<int, E>, view: map<int, E>, stale: set<int>, txns: seq<int>)
    returns (view': map<int, E>, stale': set<int>)
    requires Lawful(c) && PointwiseOnOne(c) && Shows(c, st, view, stale) && st.db.Healthy() && st.server.Healthy()
    requires KeyedPartner(c, ext) && Hidden(view, stale, st.db.rows) && Traced(view, st.db.rows, base, ext)
    ensures var (ok, st') := Prefetch(c, st, ext, txns);
      && ok && Shows(c, st', view', stale') && st'.db.Healthy() && st'.server.Healthy()
      && Hidden(view', stale', st'.db.rows) && Traced(view', st'.db.rows, base, ext)
    ensures forall t :: t in view' <==> ShownAfter(view, stale, ext, txns, t)
    ensures forall t :: t in stale' <==> HiddenAfter(view, stale, ext, txns, t)
    decreases txns
  {
    if txns == [] {
      view', stale' := view, stale;
    } else {
      var view1, stale1 := PrefetchOneShows(c, st, ext, view, stale, txns[0]);
      TracedAfterOne(view, st.db.rows, stale, base, ext, txns[0]);
      view', stale' := PrefetchShows(c, PrefetchOne(c, st, ext, txns[0]).1, ext, base, view1, stale1, txns[1..]);
      forall t
        ensures ShownAfter(view1, stale1, ext, txns[1..], t) <==> ShownAfter(view, stale, ext, txns, t)
        ensures HiddenAfter(view1, stale1, ext, txns[1..], t) <==> HiddenAfter(view, stale, ext, txns, t)
      {
        AfterOneRound(ext, view, stale, view1, stale1, txns, t);
      }
    }
  }

  lemma {:induction false} RenderShows<E(!new)>(c: Config<int, E>, st: State<int, E>, view: map<int, E>, stale: set<int>, products: set<int>, credits: seq<Credit>)
    requires Lawful(c) && PointwiseOnOne(c) && Shows(c, st, view, stale) && st.db.Healthy() && st.server.Healthy()
    ensures var (listed, st') := Render(c, st, products, credits);
      listed == Success(Listing(view, products, credits)) && st'.db.rows == st.db.rows &&
      Shows(c, st', view, stale) && st'.db.Healthy() && st'.server.Healthy()
    decreases credits
  {
    if credits != [] {
      GetOneShows(c, st, view, stale, credits[0].txn, false);
      RenderShows(c, GetOne(c, st, credits[0].txn, false).1, view, stale, products, credits[1..]);
    }
  }

  /** One whole call, from a cache that may still hide some imported orders. */
  lemma CallShows<E(!new)>(c: Config<int, E>, st: State<int, E>, ext: map<int, E>, base: map<int, E>, view: map<int, E>, stale: set<int>, products: set<int>, credits: seq<Credit>)
    returns (view': map<int, E>, stale': set<int>)
    requires Lawful(c) && Pointwise(c) && Shows(c, st, view, stale) && st.db.Healthy() && st.server.Healthy()
    requires KeyedPartner(c, ext) && Hidden(view, stale, st.db.rows) && Traced(view, st.db.rows, base, ext)
    ensures var (listed, st') := GetCredits(c, st, ext, products, credits);
      && listed == Success(Listing(view', products, credits))
      && Shows(c, st', view', stale') && st'.db.Healthy() && st'.server.Healthy() && Hidden(view', stale', st'.db.rows)
      && Traced(view', st'.db.rows, base, ext)
    ensures forall t :: t in view' <==> ShownAfter(view, stale, ext, Txns(credits), t)
    ensures forall t :: t in stale' <==> HiddenAfter(view, stale, ext, Txns(credits), t)
  {
    PointwiseImpliesOnOne(c);
    view', stale' := PrefetchShows(c, st, ext, base, view, stale, Txns(credits));
    var st1 := Prefetch(c, st, ext, Txns(credits)).1;
    ManyShows(c, st1, view', stale', Txns(credits), false);
    var st2 := GetMany(c, st1, Txns(credits), false).1;
    GetManyHealthy(c, st1, view', stale', Txns(credits));
    RenderShows(c, st2, view', stale', products, credits);
  }

  lemma GetManyHealthy<E(!new)>(c: Config<int, E>, st: State<int, E>, view: map<int, E>, stale: set<int>, keys: seq<int>)
    requires Lawful(c) && Pointwise(c) && Shows(c, st, view, stale) && st.server.Healthy()
    ensures var st' := GetMany(c, st, keys, false).1; st'.server.Healthy() && st'.db.rows == st.db.rows
  {
    if |keys| == 1 {
      PointwiseImpliesOnOne(c);
      GetOneShows(c, st, view, stale, keys[0], false);
    } else {
      GetGeneralShows(c, st, view, stale, keys, false);
    }
  }

  /**
   * On the call that imports an order, the order is listed if and only if it was in the database
   * before, or its transaction occurs at least twice among the credits, so that a later round of
   * the loop refreshes the marker away. On the next call every importable order is listed. An
   * order listed is the database's own, or else the partner's.
   */
  lemma ImportedOrderAppearsOneCallLate<E(!new)>(c: Config<int, E>, st: State<int, E>, ext: map<int, E>, products: set<int>, credits: seq<Credit>)
    returns (first: map<int, E>, second: map<int, E>)
    requires Lawful(c) && Pointwise(c) && RowsKeyed(c, st.db.rows) && st.db.Healthy() && st.server.Healthy()
    requires Coherent(c, st.db.rows, st.server.store) && KeyedPartner(c, ext)
    ensures var (listed, st') := GetCredits(c, st, ext, products, credits);
      && listed == Success(Listing(first, products, credits))
      && GetCredits(c, st', ext, products, credits).0 == Success(Listing(second, products, credits))
    ensures forall t :: t in Txns(credits) ==>
      (t in first <==> t in st.db.rows || (t in ext && Count(Txns(credits), t) >= 2))
    ensures forall t :: t in Txns(credits) ==> (t in second <==> t in st.db.rows || t in ext)
    ensures Genuine(first, st.db.rows, ext) && Genuine(second, st.db.rows, ext)
  {
    var stale;
    first, stale := CallShows(c, st, ext, st.db.rows, st.db.rows, {}, products, credits);
    var st' := GetCredits(c, st, ext, products, credits).1;
    var stale';
    second, stale' := CallShows(c, st', ext, st.db.rows, first, stale, products, credits);
    forall t | t in Txns(credits)
      ensures t in second <==> t in st.db.rows || t in ext
    {
      CountMembership(Txns(credits), t);
      assert t in first <==> ShownAfter(st.db.rows, {}, ext, Txns(credits), t);
      assert t in stale <==> HiddenAfter(st.db.rows, {}, ext, Txns(credits), t);
      assert t in second <==> ShownAfter(first, stale, ext, Txns(credits), t);
    }
  }

  lemma ListingOne<E>(orders: map<int, E>, products: set<int>, credits: seq<Credit>)
    requires |credits| == 1
    ensures Listing(orders, products, credits) ==
      if credits[0].package in products && credits[0].txn in orders then [(credits[0], orders[credits[0].txn])] else []
  {
    assert credits[1..] == [] && Listing(orders, products, credits[1..]) == [];
  }

  lemma TxnOnce(credits: seq<Credit>)
    requires |credits| == 1
    ensures credits[0].txn in Txns(credits) && Count(Txns(credits), credits[0].txn) == 1
  {
    assert Txns(credits)[0] == credits[0].txn && Txns(credits)[1..] == [];
  }

  /** From a cache without stale keys, or with the one just imported, the rest of the call lists the view. */
  lemma RestOfCall<E(!new)>(c: Config<int, E>, st: State<int, E>, view: map<int, E>, stale: set<int>, products: set<int>, credits: seq<Credit>)
    requires Lawful(c) && Pointwise(c) && Shows(c, st, view, stale) && st.db.Healthy() && st.server.Healthy()
    ensures var (orders, st') := GetMany(c, st, Txns(credits), false);
      orders.Success? && Render(c, st', products, credits).0 == Success(Listing(view, products, credits))
  {
    PointwiseImpliesOnOne(c);
    ManyShows(c, st, view, stale, Txns(credits), false);
    GetManyHealthy(c, st, view, stale, Txns(credits));
    RenderShows(c, GetMany(c, st, Txns(credits), false).1, view, stale, products, credits);
  }

  /** The forced get of an absent order: the marker is there unless its write is lost and no older one stayed. */
  lemma MarkerAfterForcedGet<E(!new)>(c: Config<int, E>, st: State<int, E>, t: int, d: bool, w: bool)
    requires Lawful(c) && PointwiseOnOne(c) && RowsKeyed(c, st.db.rows) && st.db.Healthy() && t !in st.db.rows
    requires Coherent(c, st.db.rows, st.server.store) && st.server.connected && st.server.faults == [d, w]
    ensures var (r, st') := GetOne(c, st, t, true);
      && r == Success(None) && Shows(c, st', st.db.rows, {}) && st'.server.Healthy() && st'.db.Healthy()
      && st'.db.rows == st.db.rows
      && (c.Key(t) !in st'.server.store <==> w && (!d || c.Key(t) !in st.server.store))
  {
    GetOneShows(c, st, st.db.rows, {}, t, true);
    GetOneForm(c, st, t, true);
    var s := st.server.Delete({c.Key(t)});
    assert s.faults == [w];
    assert s.Next().faults == [];
  }

  /** The pre-fetch of one order that only the partner has, from the forced get on. */
  lemma PrefetchOneImport<E(!new)>(c: Config<int, E>, st: State<int, E>, ext: map<int, E>, t: int)
    requires GetOne(c, st, t, true).0 == Success(None) && t in ext
    ensures PrefetchOne(c, st, ext, t) ==
      var (r, st') := GetOne(c, Import(GetOne(c, st, t, true).1, ext, t), t, false); (r.Success?, st')
  {
  }

  /**
   * The importing call for one such order, with the removal failing if `d` and the marker's write failing
   * if `w`: the order is listed at once if and only if that write is lost and no older marker stayed.
   */
  lemma ImportedCreditExactly<E(!new)>(c: Config<int, E>, st: State<int, E>, ext: map<int, E>, products: set<int>, credits: seq<Credit>, d: bool, w: bool)
    requires Lawful(c) && Pointwise(c) && RowsKeyed(c, st.db.rows) && st.db.Healthy() && |credits| == 1
    requires Coherent(c, st.db.rows, st.server.store) && st.server.connected && st.server.faults == [d, w]
    requires KeyedPartner(c, ext) && credits[0].txn !in st.db.rows && credits[0].txn in ext && credits[0].package in products
    ensures var t := credits[0].txn;
      GetCredits(c, st, ext, products, credits).0 ==
      Success(if w && (!d || c.Key(t) !in st.server.store) then [(credits[0], ext[t])] else [])
  {
    PointwiseImpliesOnOne(c);
    var t := credits[0].txn;
    assert Txns(credits) == [t] && [t][1..] == [];
    MarkerAfterForcedGet(c, st, t, d, w);
    PrefetchOneImport(c, st, ext, t);
    var st1 := GetOne(c, st, t, true).1;
    var imported := Import(st1, ext, t);
    var st2 := GetOne(c, imported, t, false).1;
    assert Prefetch(c, st2, ext, [t][1..]) == (true, st2);
    if c.Key(t) in st1.server.store {
      ImportIsHidden(c, st1, ext, st.db.rows, {}, t);
      GetOneShows(c, imported, st.db.rows, {t}, t, false);
      GetOneForm(c, imported, t, false);
      RestOfCall(c, st2, st.db.rows, {t}, products, credits);
      ListingOne(st.db.rows, products, credits);
    } else {
      ImportIsShown(c, st1, ext, t);
      GetOneShows(c, imported, imported.db.rows, {}, t, false);
      GetOneForm(c, imported, t, false);
      RestOfCall(c, st2, imported.db.rows, {}, products, credits);
      ListingOne(imported.db.rows, products, credits);
    }
  }

  lemma ImportIsShown<E(!new)>(c: Config<int, E>, st: State<int, E>, ext: map<int, E>, t: int)
    requires Shows(c, st, st.db.rows, {}) && KeyedPartner(c, ext) && t in ext && c.Key(t) !in st.server.store
    ensures var st' := Import(st, ext, t); Shows(c, st', st'.db.rows, {})
  {
    var st' := Import(st, ext, t);
    forall k | c.Key(k) in st'.server.store
      ensures st'.server.store[c.Key(k)] == c.Cell(st'.db.rows, k)
    {
      assert k != t;
      assert c.Cell(st'.db.rows, k) == c.Cell(st.db.rows, k);
    }
  }

  /** One credit for an order that only the partner has: the first call lists nothing, the second lists it. */
  lemma OneImportedCredit<E(!new)>(c: Config<int, E>, st: State<int, E>, ext: map<int, E>, products: set<int>, credits: seq<Credit>)
    requires Lawful(c) && Pointwise(c) && RowsKeyed(c, st.db.rows) && st.db.Healthy() && st.server.Healthy()
    requires Coherent(c, st.db.rows, st.server.store) && KeyedPartner(c, ext) && |credits| == 1
    requires credits[0].txn !in st.db.rows && credits[0].txn in ext && credits[0].package in products
    ensures var (listed, st') := GetCredits(c, st, ext, products, credits);
      && listed == Success([])
      && GetCredits(c, st', ext, products, credits).0 == Success([(credits[0], ext[credits[0].txn])])
  {
    var first, second := ImportedOrderAppearsOneCallLate(c, st, ext, products, credits);
    TxnOnce(credits);
    ListingOne(first, products, credits);
    ListingOne(second, products, credits);
  }
}
