/**
 * `Report.Create`: the check for an existing report through the report cache, the single retry
 * of the profile look-up, and the row that `spReportCreate` inserts without touching the cache.
 */
module Reports {
  import opened Collections
  import opened RedisCache
  import opened EntityCache
  import opened EntityCacheTheorems
  import opened CacheRuns
  import opened EntityCacheClass

  /** A report row. It carries its order only through an order item that has a report type. */
  datatype Report = Report(id: int, userID: int, orderID: Option<int>, profileID: string, typeCode: string)

  datatype OrderItem = OrderItem(reportTypeCode: Option<string>)

  datatype Order = Order(userID: int, items: seq<OrderItem>)

  datatype Request = Request(user: int, backoffice: bool, typeCode: Option<string>, orderID: int, queryID: int, profileID: string)

  /** How the calls to the outside go: both profile look-ups, rendering, the ID base, fulfilment. */
  datatype Env = Env(firstFound: bool, secondFound: bool, renderOk: bool, base: int, fulfilOk: bool)

  datatype Error =
    | OrderNotFound | DatabaseThrew | AlreadyFulfilled | TypeCodeRequired | NullReference
    | ProfileNotFound | RenderThrew | FulfilmentThrew

  /** A report once made: for which order, of which type, for which profile. */
  datatype Made = Made(id: int, orderID: int, typeCode: string, profileID: string)

  /** `cache` holds the report region and the report rows; `ids` and `made` list them in order of creation. */
  datatype Sys = Sys(
    cache: State<int, Report>, ids: seq<int>, made: seq<Made>,
    orders: map<int, Order>, types: set<string>, queries: set<int>)

  /** The report type of the first item that has one. */
  function ExpectedType(items: seq<OrderItem>): (r: Option<string>)
    ensures r.None? ==> forall i :: 0 <= i < |items| ==> items[i].reportTypeCode.None?
    ensures r.Some? ==> exists i :: 0 <= i < |items| && IsFirstType(items, i, r)
  {
    assert items != [] && items[0].reportTypeCode.Some? ==> IsFirstType(items, 0, items[0].reportTypeCode);
    assert forall i, r :: items != [] && items[0].reportTypeCode.None? && 0 <= i < |items[1..]| && IsFirstType(items[1..], i, r) ==>
      IsFirstType(items, i + 1, r);
    if items == [] then None
    else if items[0].reportTypeCode.Some? then items[0].reportTypeCode
    else ExpectedType(items[1..])
  }

  ghost predicate IsFirstType(items: seq<OrderItem>, i: nat, r: Option<string>)
    requires i < |items|
  {
    items[i].reportTypeCode == r && forall j :: 0 <= j < i ==> items[j].reportTypeCode.None?
  }

  predicate HasReportItem(o: Order) {
    ExpectedType(o.items).Some?
  }

  predicate SearchHit(s: Sys, q: Request, id: int) {
    && id in s.cache.db.rows
    && s.cache.db.rows[id].orderID == Some(q.orderID)
    && (q.backoffice || s.cache.db.rows[id].userID == q.user)
  }

  /** `spReportSearch` by order. */
  function Search(s: Sys, q: Request, ids: seq<int>): (r: seq<int>)
    ensures forall id :: id in r <==> id in ids && SearchHit(s, q, id)
    ensures forall id :: id in r ==> id in s.cache.db.rows && s.cache.db.rows[id].orderID == Some(q.orderID)
    ensures forall id :: id in ids && id in s.cache.db.rows && s.cache.db.rows[id].orderID == Some(q.orderID) ==>
      (id in r <==> q.backoffice || s.cache.db.rows[id].userID == q.user)
  {
    if ids == [] then [] else (if SearchHit(s, q, ids[0]) then [ids[0]] else []) + Search(s, q, ids[1..])
  }

  predicate Matches(r: Report, q: Request) {
    q.typeCode == Some(r.typeCode) && q.profileID == r.profileID
  }

  function MaxOf(ids: seq<int>, base: int): (m: int)
    ensures m >= base && (forall id :: id in ids ==> id <= m) && (m == base || m in ids)
  {
    if ids == [] then base
    else
      var m := MaxOf(ids[1..], base);
      assert ids == [ids[0]] + ids[1..];
      if ids[0] > m then ids[0] else m
  }

  /** `spReportCreate`: one past the largest ID, or past the day's base. */
  function NewID(ids: seq<int>, base: int): (id: int)
    ensures id > base && (forall x :: x in ids ==> x < id) && (id - 1 == base || id - 1 in ids)
  {
    MaxOf(ids, base) + 1
  }

  function Insert(s: Sys, q: Request, code: string, base: int): Sys
    requires q.orderID in s.orders
  {
    var id := NewID(s.ids, base);
    var link := if HasReportItem(s.orders[q.orderID]) then Some(q.orderID) else None;
    var row := Report(id, q.user, link, q.profileID, code);
    s.(cache := s.cache.(db := s.cache.db.(rows := s.cache.db.rows[id := row])),
       ids := s.ids + [id], made := s.made + [Made(id, q.orderID, code, q.profileID)])
  }

  function Finish(c: Config<int, Report>, s: Sys, fulfilOk: bool): (Result<int, Error>, Sys)
    requires c.Sized() && s.ids != []
  {
    var id := s.ids[|s.ids| - 1];
    if !fulfilOk then (Failure(FulfilmentThrew), s)
    else (Success(id), s.(cache := GetMany(c, s.cache, [id], false).1))
  }

  /** Everything `Create` checks before it looks for the profile, given the reports found; the type code on success. */
  function Judge(s: Sys, q: Request, found: Result<seq<Report>, LoadError>): Result<string, Error>
    requires q.orderID in s.orders
  {
    if found.Failure? then Failure(DatabaseThrew)
    else if exists i | 0 <= i < |found.value| :: Matches(found.value[i], q) then Failure(AlreadyFulfilled)
    else
      var expected := ExpectedType(s.orders[q.orderID].items);
      if q.typeCode.None? && expected.None? then Failure(TypeCodeRequired)
      else
        var code := if q.typeCode.Some? then q.typeCode.value else expected.value;
        if code !in s.types || q.queryID !in s.queries then Failure(NullReference) else Success(code)
  }

  predicate OwnOrder(s: Sys, q: Request) {
    q.orderID in s.orders && s.orders[q.orderID].userID == q.user
  }

  function Check(c: Config<int, Report>, s: Sys, q: Request): (Result<string, Error>, Sys)
    requires c.Sized()
  {
    if !OwnOrder(s, q) then (Failure(OrderNotFound), s)
    else
      var (found, st) := GetMany(c, s.cache, Search(s, q, s.ids), false);
      (Judge(s, q, found), s.(cache := st))
  }

  /** From the profile found to the report, its row and the cache. */
  function Produce(c: Config<int, Report>, s: Sys, q: Request, code: string, env: Env): (Result<int, Error>, Sys)
    requires c.Sized() && q.orderID in s.orders
  {
    if q.typeCode.None? then (Failure(NullReference), s)
    else if !env.renderOk then (Failure(RenderThrew), s)
    else Finish(c, Insert(s, q, code, env.base), env.fulfilOk)
  }

  /** `Create`; the last result counts the profile look-ups. */
  function Create(c: Config<int, Report>, s: Sys, q: Request, env: Env, retry: bool): (Result<int, Error>, Sys, nat)
    requires c.Sized()
    decreases !retry
  {
    var (code, s1) := Check(c, s, q);
    if code.Failure? then (Failure(code.error), s1, 0)
    else if if retry then env.secondFound else env.firstFound then
      var (r, s2) := Produce(c, s1, q, code.value, env);
      (r, s2, 1)
    else if retry then (Failure(ProfileNotFound), s1, 1)
    else
      var (r, s2, n) := Create(c, s1, q, env, true);
      (r, s2, n + 1)
  }

  /** The service as it runs, over the report cache object. */
  class Service {
    const cache: EntityCacheBase<int, Report>
    var ids: seq<int>
    var made: seq<Made>
    const orders: map<int, Order>
    const types: set<string>
    const queries: set<int>

    constructor (cache: EntityCacheBase<int, Report>, orders: map<int, Order>, types: set<string>, queries: set<int>)
      ensures this.cache == cache && this.orders == orders && this.types == types && this.queries == queries
      ensures ids == [] && made == []
    {
      this.cache, this.orders, this.types, this.queries := cache, orders, types, queries;
      ids, made := [], [];
    }

    function Value(): Sys
      reads this, cache, cache.client.redis
    {
      Sys(cache.Current(), ids, made, orders, types, queries)
    }

    method CheckRequest(q: Request) returns (code: Result<string, Error>)
      requires cache.Valid()
      modifies cache, cache.client.redis
      ensures (code, Value()) == Check(cache.c, old(Value()), q)
      ensures code.Success? ==> q.orderID in orders
    {
      if q.orderID !in orders || orders[q.orderID].userID != q.user {
        return Failure(OrderNotFound);
      }
      var found := cache.GetMany(Search(Value(), q, ids), false);
      code := Judge(Value(), q, found);
    }

    method CreateReport(q: Request, env: Env, retry: bool) returns (r: Result<int, Error>, lookups: nat)
      requires cache.Valid()
      modifies this`ids, this`made, cache, cache.client.redis
      ensures (r, Value(), lookups) == Create(cache.c, old(Value()), q, env, retry)
      decreases !retry
    {
      var code := CheckRequest(q);
      if code.Failure? {
        return Failure(code.error), 0;
      }
      var profileFound := if retry then env.secondFound else env.firstFound;
      if !profileFound {
        if retry {
          return Failure(ProfileNotFound), 1;
        }
        r, lookups := CreateReport(q, env, true);
        lookups := lookups + 1;
        return;
      }
      lookups := 1;
      r := ProduceReport(q, code.value, env);
    }

    method ProduceReport(q: Request, code: string, env: Env) returns (r: Result<int, Error>)
      requires cache.Valid() && q.orderID in orders
      modifies this`ids, this`made, cache, cache.client.redis
      ensures (r, Value()) == Produce(cache.c, old(Value()), q, code, env)
    {
      if q.typeCode.None? {
        r := Failure(NullReference);
      } else if !env.renderOk {
        r := Failure(RenderThrew);
      } else {
        r := Store(q, code, env);
      }
    }

    method Store(q: Request, code: string, env: Env) returns (r: Result<int, Error>)
      requires cache.Valid() && q.orderID in orders
      modifies this`ids, this`made, cache, cache.client.redis
      ensures (r, Value()) == Finish(cache.c, Insert(old(Value()), q, code, env.base), env.fulfilOk)
    {
      var id := NewID(ids, env.base);
      var link := if HasReportItem(orders[q.orderID]) then Some(q.orderID) else None;
      cache.db := cache.db.(rows := cache.db.rows[id := Report(id, q.user, link, q.profileID, code)]);
      ids := ids + [id];
      made := made + [Made(id, q.orderID, code, q.profileID)];
      if !env.fulfilOk {
        return Failure(FulfilmentThrew);
      }
      var _ := cache.GetMany([id], false);
      r := Success(id);
    }
  }

  // ---------- what a get may write ----------

  /** Every key the region caches names an existing row: no marker waits for a report to come. */
  ghost predicate KnownOnly(c: Config<int, Report>, rows: map<int, Report>, store: map<string, string>) {
    forall k :: c.Key(k) in store ==> k in rows
  }

  /** From a coherent region, getting existing reports leaves only existing reports cached. */
  lemma GetKnown(c: Config<int, Report>, st: State<int, Report>, keys: seq<int>)
    requires Lawful(c) && Pointwise(c) && RowsKeyed(c, st.db.rows) && Coherent(c, st.db.rows, st.server.store)
    requires st.db.Healthy() && KnownOnly(c, st.db.rows, st.server.store)
    requires forall k :: k in keys ==> k in st.db.rows
    ensures var (r, st') := GetMany(c, st, keys, false);
      && r == Success(Lookup(st.db.rows, keys)) && st'.db.rows == st.db.rows && st'.db.Healthy()
      && Coherent(c, st.db.rows, st'.server.store) && KnownOnly(c, st.db.rows, st'.server.store)
  {
    PointwiseImpliesOnOne(c);
    ManyShows(c, st, st.db.rows, {}, keys, false);
    if |keys| == 1 {
      GetOneShows(c, st, st.db.rows, {}, keys[0], false);
      OneWritesItsKey(c, st, keys[0]);
    } else if keys != [] {
      GetGeneralShows(c, st, st.db.rows, {}, keys, false);
      GeneralWritesItsKeys(c, st, keys);
    }
  }

  lemma OneWritesItsKey(c: Config<int, Report>, st: State<int, Report>, k: int)
    requires Lawful(c) && KnownOnly(c, st.db.rows, st.server.store) && k in st.db.rows
    ensures KnownOnly(c, st.db.rows, GetOne(c, st, k, false).1.server.store)
  {
    var st' := GetOne(c, st, k, false).1;
    forall k' | c.Key(k') in st'.server.store
      ensures k' in st.db.rows
    {
      if c.Key(k') == c.Key(k) {
        KeyInjective(c, k, k');
      }
    }
  }

  /** A coherent cell of an existing row is never the marker, so coherent writes stay known. */
  lemma {:induction false} PutRowsKnown(c: Config<int, Report>, rows: map<int, Report>, s: Server, es: seq<Report>)
    requires Lawful(c) && KnownOnly(c, rows, s.store)
    requires forall i :: 0 <= i < |es| ==> c.getKey(es[i]) in rows
    ensures KnownOnly(c, rows, PutRows(c, s, es).store)
    decreases es
  {
    if es != [] {
      WriteKnown(c, rows, s, c.getKey(es[0]), c.serialize(es[0]));
      PutRowsKnown(c, rows, s.Write(c.Key(c.getKey(es[0])), c.serialize(es[0])), es[1..]);
    }
  }

  lemma WriteKnown(c: Config<int, Report>, rows: map<int, Report>, s: Server, k: int, v: string)
    requires Lawful(c) && KnownOnly(c, rows, s.store) && k in rows
    ensures KnownOnly(c, rows, s.Write(c.Key(k), v).store)
  {
    forall k' | c.Key(k') in s.Write(c.Key(k), v).store
      ensures k' in rows
    {
      if c.Key(k') == c.Key(k) {
        KeyInjective(c, k, k');
      }
    }
  }

  lemma GeneralWritesItsKeys(c: Config<int, Report>, st: State<int, Report>, keys: seq<int>)
    requires Lawful(c) && Pointwise(c) && RowsKeyed(c, st.db.rows) && st.db.Healthy()
    requires KnownOnly(c, st.db.rows, st.server.store)
    requires forall k :: k in keys ==> k in st.db.rows
    ensures KnownOnly(c, st.db.rows, GetGeneral(c, st, keys, false).1.server.store)
  {
    var ks := Distinct(keys);
    ReadBlocksCells(st.server, RedisKeys(c, ks), c.readBlock);
    var (cells, s) := ReadBlocks(st.server, RedisKeys(c, ks), c.readBlock);
    NeededExactly(ks, cells);
    CompleteKnown(c, st.(server := s), ks, Hits(c, map[], ks, cells), Needed(ks, cells));
  }

  lemma CompleteKnown(c: Config<int, Report>, st: State<int, Report>, keys: seq<int>, hits: map<int, Report>, needed: seq<int>)
    requires Lawful(c) && Pointwise(c) && RowsKeyed(c, st.db.rows) && st.db.Healthy()
    requires KnownOnly(c, st.db.rows, st.server.store)
    requires NoDuplicates(needed) && forall k :: k in needed ==> k in st.db.rows
    ensures KnownOnly(c, st.db.rows, Complete(c, st, keys, hits, needed).1.server.store)
  {
    if needed != [] {
      LoadBlocksAnswers(c, st.db, needed, c.loadBlock);
      var (loaded, db) := LoadBlocks(c, st.db, needed, c.loadBlock);
      var es := loaded.value;
      PutRowsKnown(c, st.db.rows, st.server, es);
      MarkerPassSkippable(c, st.db.rows, needed, es);
      assert forall k :: k in needed ==> k in st.db.rows;
      assert Complete(c, st, keys, hits, needed) == (Select(Index(c, hits, es), keys), State(PutRows(c, st.server, es), db));
    }
  }

  // ---------- the invariant of all runs ----------

  /** Each report made has its row, linked to its order exactly if the order has a report item. */
  ghost predicate Recorded(s: Sys, m: Made) {
    && m.id in s.ids && m.id in s.cache.db.rows && m.orderID in s.orders
    && s.cache.db.rows[m.id] ==
       Report(m.id, s.orders[m.orderID].userID, if HasReportItem(s.orders[m.orderID]) then Some(m.orderID) else None,
              m.profileID, m.typeCode)
  }

  predicate SameReport(a: Made, b: Made) {
    a.orderID == b.orderID && a.typeCode == b.typeCode && a.profileID == b.profileID
  }

  ghost predicate Consistent(c: Config<int, Report>, s: Sys) {
    && RowsKeyed(c, s.cache.db.rows) && s.cache.db.Healthy()
    && Coherent(c, s.cache.db.rows, s.cache.server.store) && KnownOnly(c, s.cache.db.rows, s.cache.server.store)
    && (forall id :: id in s.ids <==> id in s.cache.db.rows)
    && (forall i :: 0 <= i < |s.made| ==> Recorded(s, s.made[i]))
    && (forall id :: id in s.ids ==> exists i :: 0 <= i < |s.made| && s.made[i].id == id)
  }

  predicate Links(s: Sys, orderID: int) {
    orderID in s.orders && HasReportItem(s.orders[orderID])
  }

  /** No order with a report item has two reports of one type for one profile. */
  ghost predicate AtMostOnce(s: Sys) {
    forall i, j :: 0 <= i < j < |s.made| && SameReport(s.made[i], s.made[j]) ==> !Links(s, s.made[i].orderID)
  }

  ghost predicate AlreadyMade(s: Sys, q: Request) {
    exists i :: 0 <= i < |s.made| &&
      s.made[i].orderID == q.orderID && q.typeCode == Some(s.made[i].typeCode) && s.made[i].profileID == q.profileID
  }

  lemma {:induction false} SelectMembers(rows: map<int, Report>, keys: seq<int>, e: Report)
    requires forall k :: k in keys ==> k in rows
    ensures e in Select(rows, keys) <==> exists k :: k in keys && rows[k] == e
  {
    if keys != [] {
      SelectMembers(rows, keys[1..], e);
      assert forall k :: k in keys <==> k == keys[0] || k in keys[1..];
      assert Select(rows, keys) == [rows[keys[0]]] + Select(rows, keys[1..]);
    }
  }

  lemma MatchWasMade(c: Config<int, Report>, s: Sys, q: Request, r: Report)
    requires Consistent(c, s) && OwnOrder(s, q) && r in Lookup(s.cache.db.rows, Search(s, q, s.ids)) && Matches(r, q)
    ensures Links(s, q.orderID) && AlreadyMade(s, q)
  {
    var hits := Search(s, q, s.ids);
    SelectMembers(s.cache.db.rows, Distinct(hits), r);
    var id :| id in Distinct(hits) && s.cache.db.rows[id] == r;
    assert id in s.ids;
    var m :| 0 <= m < |s.made| && s.made[m].id == id;
    assert Recorded(s, s.made[m]);
  }

  lemma MadeIsFound(c: Config<int, Report>, s: Sys, q: Request) returns (r: Report)
    requires Consistent(c, s) && OwnOrder(s, q) && Links(s, q.orderID) && AlreadyMade(s, q)
    ensures r in Lookup(s.cache.db.rows, Search(s, q, s.ids)) && Matches(r, q)
  {
    var m :| 0 <= m < |s.made| &&
      s.made[m].orderID == q.orderID && q.typeCode == Some(s.made[m].typeCode) && s.made[m].profileID == q.profileID;
    assert Recorded(s, s.made[m]);
    var id := s.made[m].id;
    r := s.cache.db.rows[id];
    assert SearchHit(s, q, id);
    SelectMembers(s.cache.db.rows, Distinct(Search(s, q, s.ids)), r);
  }

  ghost predicate Found(found: seq<Report>, q: Request) {
    exists i :: 0 <= i < |found| && Matches(found[i], q)
  }

  /** The duplicate check finds a match exactly when the order has a report item and the report was made. */
  lemma CheckFindsDuplicates(c: Config<int, Report>, s: Sys, q: Request)
    requires Consistent(c, s) && OwnOrder(s, q)
    ensures var found := Lookup(s.cache.db.rows, Search(s, q, s.ids));
      Found(found, q) <==> Links(s, q.orderID) && AlreadyMade(s, q)
  {
    var found := Lookup(s.cache.db.rows, Search(s, q, s.ids));
    if Found(found, q) {
      var i :| 0 <= i < |found| && Matches(found[i], q);
      MatchWasMade(c, s, q, found[i]);
    }
    if Links(s, q.orderID) && AlreadyMade(s, q) {
      var r := MadeIsFound(c, s, q);
      var i :| 0 <= i < |found| && found[i] == r;
      assert Matches(found[i], q);
    }
  }

  lemma InsertKeepsCache(c: Config<int, Report>, s: Sys, q: Request, code: string, base: int)
    requires Lawful(c) && (forall e: Report :: c.getKey(e) == e.id) && Consistent(c, s) && q.orderID in s.orders
    ensures var s' := Insert(s, q, code, base);
      && RowsKeyed(c, s'.cache.db.rows) && NewID(s.ids, base) !in s.ids
      && Coherent(c, s'.cache.db.rows, s'.cache.server.store) && KnownOnly(c, s'.cache.db.rows, s'.cache.server.store)
  {
    var s' := Insert(s, q, code, base);
    forall k | c.Key(k) in s.cache.server.store
      ensures s.cache.server.store[c.Key(k)] == c.Cell(s'.cache.db.rows, k)
    {
      assert k in s.cache.db.rows && k in s.ids;
    }
  }

  lemma InsertKeepsRecords(c: Config<int, Report>, s: Sys, q: Request, code: string, base: int)
    requires Consistent(c, s) && OwnOrder(s, q) && NewID(s.ids, base) !in s.ids
    ensures var s' := Insert(s, q, code, base);
      && (forall i :: 0 <= i < |s'.made| ==> Recorded(s', s'.made[i]))
      && (forall id :: id in s'.ids ==> exists i :: 0 <= i < |s'.made| && s'.made[i].id == id)
  {
    var s', id := Insert(s, q, code, base), NewID(s.ids, base);
    forall i | 0 <= i < |s'.made|
      ensures Recorded(s', s'.made[i])
    {
      if i < |s.made| {
        assert s'.made[i] == s.made[i] && Recorded(s, s.made[i]);
      }
    }
    forall x | x in s'.ids
      ensures exists i :: 0 <= i < |s'.made| && s'.made[i].id == x
    {
      if x == id {
        assert s'.made[|s.made|].id == id;
      } else {
        var i :| 0 <= i < |s.made| && s.made[i].id == x;
        assert s'.made[i].id == x;
      }
    }
  }

  lemma InsertKeepsOnce(s: Sys, q: Request, code: string, base: int)
    requires AtMostOnce(s) && q.orderID in s.orders && q.typeCode == Some(code)
    requires !(Links(s, q.orderID) && AlreadyMade(s, q))
    ensures AtMostOnce(Insert(s, q, code, base))
  {
    var s' := Insert(s, q, code, base);
    forall i, j | 0 <= i < j < |s'.made| && SameReport(s'.made[i], s'.made[j])
      ensures !Links(s', s'.made[i].orderID)
    {
      assert s'.made[i] == s.made[i];
      assert j < |s.made| ==> s'.made[j] == s.made[j];
    }
  }

  lemma InsertKeeps(c: Config<int, Report>, s: Sys, q: Request, code: string, base: int)
    requires Lawful(c) && (forall e: Report :: c.getKey(e) == e.id) && Consistent(c, s) && AtMostOnce(s)
    requires OwnOrder(s, q) && q.typeCode == Some(code) && !(Links(s, q.orderID) && AlreadyMade(s, q))
    ensures Consistent(c, Insert(s, q, code, base)) && AtMostOnce(Insert(s, q, code, base))
  {
    InsertKeepsCache(c, s, q, code, base);
    InsertKeepsRecords(c, s, q, code, base);
    InsertKeepsOnce(s, q, code, base);
  }

  /** Nothing but an existing linked report stops a request of this kind. */
  ghost predicate Plausible(s: Sys, q: Request) {
    OwnOrder(s, q) && q.typeCode.Some? && q.typeCode.value in s.types && q.queryID in s.queries
  }

  /** What the checks establish: only the cache has changed, and no linked report exists if they pass. */
  ghost predicate Checked(c: Config<int, Report>, s: Sys, q: Request, code: Result<string, Error>, s1: Sys) {
    && Consistent(c, s1) && AtMostOnce(s1) && s1 == s.(cache := s1.cache)
    && (AlreadyMade(s1, q) <==> AlreadyMade(s, q))
    && (code.Success? ==> OwnOrder(s, q) && !(Links(s, q.orderID) && AlreadyMade(s, q)))
    && (code.Success? && q.typeCode.Some? ==> code.value == q.typeCode.value)
    && (Plausible(s, q) ==> (code.Success? <==> !(Links(s, q.orderID) && AlreadyMade(s, q))))
  }

  lemma JudgeCode(s: Sys, q: Request, found: seq<Report>)
    requires q.orderID in s.orders
    ensures var code := Judge(s, q, Success(found));
      && (code.Success? ==> !Found(found, q))
      && (code.Success? && q.typeCode.Some? ==> code.value == q.typeCode.value)
      && (Plausible(s, q) ==> (code.Success? <==> !Found(found, q)))
  {
  }

  lemma JudgeMeaning(c: Config<int, Report>, s: Sys, q: Request, st: State<int, Report>)
    requires Consistent(c, s) && AtMostOnce(s) && OwnOrder(s, q)
    requires st.db.rows == s.cache.db.rows && st.db.Healthy()
    requires Coherent(c, st.db.rows, st.server.store) && KnownOnly(c, st.db.rows, st.server.store)
    ensures Checked(c, s, q, Judge(s, q, Success(Lookup(s.cache.db.rows, Search(s, q, s.ids)))), s.(cache := st))
  {
    var found := Lookup(s.cache.db.rows, Search(s, q, s.ids));
    CheckFindsDuplicates(c, s, q);
    JudgeCode(s, q, found);
    SameDataConsistent(c, s, st);
  }

  lemma CheckMeaning(c: Config<int, Report>, s: Sys, q: Request)
    requires Lawful(c) && Pointwise(c) && Consistent(c, s) && AtMostOnce(s)
    ensures Checked(c, s, q, Check(c, s, q).0, Check(c, s, q).1)
  {
    if OwnOrder(s, q) {
      GetKnown(c, s.cache, Search(s, q, s.ids));
      JudgeMeaning(c, s, q, GetMany(c, s.cache, Search(s, q, s.ids), false).1);
    }
  }

  lemma ProduceKeeps(c: Config<int, Report>, s: Sys, q: Request, code: string, env: Env)
    requires Lawful(c) && Pointwise(c) && (forall e: Report :: c.getKey(e) == e.id) && Consistent(c, s) && AtMostOnce(s)
    requires OwnOrder(s, q) && (q.typeCode.Some? ==> q.typeCode.value == code)
    requires !(Links(s, q.orderID) && AlreadyMade(s, q))
    ensures var (r, s') := Produce(c, s, q, code, env);
      && Consistent(c, s') && AtMostOnce(s')
      && (if q.typeCode.None? || !env.renderOk then s' == s else Added(s, s', q, code, env.base))
      && (r.Success? <==> q.typeCode.Some? && env.renderOk && env.fulfilOk)
      && Returned(c, s, s', q, code, r)
  {
    if q.typeCode.Some? {
      InsertKeeps(c, s, q, code, env.base);
      FinishKeeps(c, Insert(s, q, code, env.base), env.fulfilOk);
      FinishReturns(c, Insert(s, q, code, env.base), env.fulfilOk);
      InsertKeepsCache(c, s, q, code, env.base);
    }
  }

  /**
   * The report returned is the one just made: its ID is new, and the row under it is of the request's user,
   * profile and type. If the server answers, the report is cached.
   */
  ghost predicate Returned(c: Config<int, Report>, s: Sys, s': Sys, q: Request, code: string, r: Result<int, Error>) {
    r.Success? ==>
      && r.value !in s.ids && s'.ids == s.ids + [r.value] && r.value in s'.cache.db.rows
      && s'.cache.db.rows == s.cache.db.rows[r.value := s'.cache.db.rows[r.value]]
      && (var row := s'.cache.db.rows[r.value];
          && row.id == r.value && row.userID == q.user && row.profileID == q.profileID && row.typeCode == code
          && row.orderID == (if Links(s, q.orderID) then Some(q.orderID) else None))
      && s'.made == s.made + [Made(r.value, q.orderID, code, q.profileID)]
      && (s.cache.server.Healthy() ==> c.Key(r.value) in s'.cache.server.store)
  }

  lemma FinishReturns(c: Config<int, Report>, s: Sys, fulfilOk: bool)
    requires Lawful(c) && Pointwise(c) && Consistent(c, s) && s.ids != []
    ensures var (r, s') := Finish(c, s, fulfilOk); var id := s.ids[|s.ids| - 1];
      && (r.Success? <==> fulfilOk) && (r.Success? ==> r.value == id)
      && (r.Success? && s.cache.server.Healthy() ==> c.Key(id) in s'.cache.server.store)
  {
    PointwiseImpliesOnOne(c);
    GetOneShows(c, s.cache, s.cache.db.rows, {}, s.ids[|s.ids| - 1], false);
  }

  /** Exactly one report is added, under a new ID; but for it only the cache has changed. */
  ghost predicate Added(s: Sys, s': Sys, q: Request, code: string, base: int) {
    var id := NewID(s.ids, base);
    && id !in s.ids && id in s'.cache.db.rows
    && s' == s.(cache := s'.cache, ids := s.ids + [id], made := s.made + [Made(id, q.orderID, code, q.profileID)])
  }

  /** At most one report per call, none without a type code, and at most two profile look-ups. */
  lemma CreateKeeps(c: Config<int, Report>, s: Sys, q: Request, env: Env, retry: bool)
    requires Lawful(c) && Pointwise(c) && (forall e: Report :: c.getKey(e) == e.id)
    requires Consistent(c, s) && AtMostOnce(s)
    ensures var (r, s', lookups) := Create(c, s, q, env, retry);
      && Consistent(c, s') && AtMostOnce(s')
      && lookups <= (if retry then 1 else 2)
      && s.made <= s'.made && |s'.made| <= |s.made| + 1
      && (q.typeCode.None? ==> s'.made == s.made && r.Failure?)
    decreases !retry
  {
    CheckMeaning(c, s, q);
    var (code, s1) := Check(c, s, q);
    if code.Success? {
      ProduceKeeps(c, s1, q, code.value, env);
      if !retry {
        CreateKeeps(c, s1, q, env, true);
      }
    }
  }

  lemma SameDataConsistent(c: Config<int, Report>, s: Sys, st: State<int, Report>)
    requires Consistent(c, s) && AtMostOnce(s)
    requires st.db.rows == s.cache.db.rows && st.db.Healthy()
    requires Coherent(c, st.db.rows, st.server.store) && KnownOnly(c, st.db.rows, st.server.store)
    ensures Consistent(c, s.(cache := st)) && AtMostOnce(s.(cache := st))
    ensures forall q :: AlreadyMade(s, q) <==> AlreadyMade(s.(cache := st), q)
  {
    assert forall m :: Recorded(s, m) ==> Recorded(s.(cache := st), m);
  }

  lemma FinishKeeps(c: Config<int, Report>, s: Sys, fulfilOk: bool)
    requires Lawful(c) && Pointwise(c) && Consistent(c, s) && AtMostOnce(s) && s.ids != []
    ensures var (r, s') := Finish(c, s, fulfilOk);
      Consistent(c, s') && AtMostOnce(s') && s' == s.(cache := s'.cache) && s'.cache.db.rows == s.cache.db.rows
  {
    var id := s.ids[|s.ids| - 1];
    assert id in s.ids;
    GetKnown(c, s.cache, [id]);
    SameDataConsistent(c, s, GetMany(c, s.cache, [id], false).1);
  }

  datatype Call = Call(q: Request, env: Env)

  function Run(c: Config<int, Report>, s: Sys, calls: seq<Call>): Sys
    requires c.Sized()
    decreases calls
  {
    if calls == [] then s else Run(c, Create(c, s, calls[0].q, calls[0].env, false).1, calls[1..])
  }

  /**
   * Over every run of `Create`, by any users, for any orders and however the outside calls go, no
   * order that has a report item gets two reports of one type for one profile. The cache may fail
   * at will; database loads succeed.
   */
  lemma {:induction false} RunKeepsAtMostOnce(c: Config<int, Report>, s: Sys, calls: seq<Call>)
    requires Lawful(c) && Pointwise(c) && (forall e: Report :: c.getKey(e) == e.id)
    requires Consistent(c, s) && AtMostOnce(s)
    ensures Consistent(c, Run(c, s, calls)) && AtMostOnce(Run(c, s, calls))
    decreases calls
  {
    if calls != [] {
      CreateKeeps(c, s, calls[0].q, calls[0].env, false);
      RunKeepsAtMostOnce(c, Create(c, s, calls[0].q, calls[0].env, false).1, calls[1..]);
    }
  }

  /** A request that nothing but an existing report can stop. */
  ghost predicate WellFormed(s: Sys, q: Request, env: Env) {
    && Plausible(s, q)
    && (env.firstFound || env.secondFound) && env.renderOk && env.fulfilOk
  }

  /**
   * The exact condition. A well-formed request adds its report if and only if it is not the case that
   * the order has a report item and the report was made before; otherwise nothing but the cache changes.
   * For an order without a report item, such as a subscription's, the row is not linked to the order
   * and a repeat is not noticed.
   */
  lemma MadeExactlyWhenNotNoticed(c: Config<int, Report>, s: Sys, q: Request, env: Env)
    requires Lawful(c) && Pointwise(c) && (forall e: Report :: c.getKey(e) == e.id)
    requires Consistent(c, s) && AtMostOnce(s) && WellFormed(s, q, env)
    ensures var (r, s', _) := Create(c, s, q, env, false);
      && (r.Success? <==> !(Links(s, q.orderID) && AlreadyMade(s, q)))
      && (if Links(s, q.orderID) && AlreadyMade(s, q) then s' == s.(cache := s'.cache)
          else Added(s, s', q, q.typeCode.value, env.base) && Returned(c, s, s', q, q.typeCode.value, r))
  {
    CreateOutcome(c, s, q, env);
    CheckMeaning(c, s, q);
    var (code, s1) := Check(c, s, q);
    if code.Success? {
      if env.firstFound {
        ProduceKeeps(c, s1, q, code.value, env);
      } else {
        MadeOnRetry(c, s1, q, env);
      }
    }
  }

  /** The type of the report: the one requested, or else the one the order names. */
  function TypeFor(s: Sys, q: Request): Option<string>
    requires q.orderID in s.orders
  {
    if q.typeCode.Some? then q.typeCode else ExpectedType(s.orders[q.orderID].items)
  }

  /** What the checks object to, if anything, in the order in which they are made. */
  ghost function Objection(s: Sys, q: Request): Option<Error> {
    if !OwnOrder(s, q) then Some(OrderNotFound)
    else if Links(s, q.orderID) && AlreadyMade(s, q) then Some(AlreadyFulfilled)
    else if TypeFor(s, q).None? then Some(TypeCodeRequired)
    else if TypeFor(s, q).value !in s.types || q.queryID !in s.queries then Some(NullReference)
    else None
  }

  /** Only the cache may differ, and it is up if it was. */
  ghost predicate SameButCache(s: Sys, s': Sys) {
    s' == s.(cache := s'.cache) && s'.cache.db.rows == s.cache.db.rows && (s.cache.server.Healthy() ==> s'.cache.server.Healthy())
  }

  lemma GetKeepsHealth(c: Config<int, Report>, st: State<int, Report>, keys: seq<int>)
    requires Lawful(c) && Pointwise(c) && RowsKeyed(c, st.db.rows) && Coherent(c, st.db.rows, st.server.store)
    ensures var st' := GetMany(c, st, keys, false).1;
      st'.db.rows == st.db.rows && (st.server.Healthy() ==> st'.server.Healthy())
  {
    if |keys| == 1 {
      PointwiseImpliesOnOne(c);
      GetOneForm(c, st, keys[0], false);
    } else {
      GetGeneralShows(c, st, st.db.rows, {}, keys, false);
    }
  }

  lemma CheckObjects(c: Config<int, Report>, s: Sys, q: Request)
    requires Lawful(c) && Pointwise(c) && Consistent(c, s)
    ensures var (code, s1) := Check(c, s, q);
      && SameButCache(s, s1)
      && (match Objection(s, q)
          case Some(e) => code == Failure(e)
          case None => TypeFor(s, q).Some? && code == Success(TypeFor(s, q).value))
  {
    if OwnOrder(s, q) {
      GetKnown(c, s.cache, Search(s, q, s.ids));
      GetKeepsHealth(c, s.cache, Search(s, q, s.ids));
      CheckFindsDuplicates(c, s, q);
      JudgeObjects(s, q, Lookup(s.cache.db.rows, Search(s, q, s.ids)));
    }
  }

  lemma JudgeObjects(s: Sys, q: Request, found: seq<Report>)
    requires OwnOrder(s, q) && (Found(found, q) <==> Links(s, q.orderID) && AlreadyMade(s, q))
    ensures Judge(s, q, Success(found)) ==
      match Objection(s, q)
      case Some(e) => Failure(e)
      case None => Success(TypeFor(s, q).value)
  {
    assert Found(found, q) <==> exists i | 0 <= i < |found| :: Matches(found[i], q);
  }

  /** What may still go wrong once the profile is found. */
  function LateError(q: Request, env: Env): Option<Error> {
    if q.typeCode.None? then Some(NullReference)
    else if !env.renderOk then Some(RenderThrew)
    else if !env.fulfilOk then Some(FulfilmentThrew)
    else None
  }

  lemma ReturnedFrame(c: Config<int, Report>, s: Sys, s1: Sys, s': Sys, q: Request, code: string, r: Result<int, Error>)
    requires SameButCache(s, s1) && Returned(c, s1, s', q, code, r)
    ensures Returned(c, s, s', q, code, r)
  {
  }

  lemma ProduceOutcome(c: Config<int, Report>, s: Sys, q: Request, code: string, env: Env)
    requires Lawful(c) && Pointwise(c) && (forall e: Report :: c.getKey(e) == e.id) && Consistent(c, s) && AtMostOnce(s)
    requires Objection(s, q).None? && TypeFor(s, q) == Some(code)
    ensures var (r, s') := Produce(c, s, q, code, env);
      && (r.Success? <==> LateError(q, env).None?) && (r.Failure? ==> LateError(q, env) == Some(r.error))
      && Returned(c, s, s', q, code, r)
  {
    ProduceKeeps(c, s, q, code, env);
  }

  /** One pass of `Create`, with its profile look-up found or not. */
  lemma PassOutcome(c: Config<int, Report>, s: Sys, q: Request, env: Env)
    requires Lawful(c) && Pointwise(c) && (forall e: Report :: c.getKey(e) == e.id) && Consistent(c, s) && AtMostOnce(s)
    requires Objection(s, q).None?
    ensures var (code, s1) := Check(c, s, q); var (r, s') := Produce(c, s1, q, TypeFor(s, q).value, env);
      && code == Success(TypeFor(s, q).value) && SameButCache(s, s1) && Consistent(c, s1) && AtMostOnce(s1)
      && Objection(s1, q).None?
      && (r.Success? <==> LateError(q, env).None?) && (r.Failure? ==> LateError(q, env) == Some(r.error))
      && Returned(c, s, s', q, TypeFor(s, q).value, r)
  {
    CheckObjects(c, s, q);
    CheckMeaning(c, s, q);
    var s1 := Check(c, s, q).1;
    ProduceOutcome(c, s1, q, TypeFor(s, q).value, env);
    ReturnedFrame(c, s, s1, Produce(c, s1, q, TypeFor(s, q).value, env).1, q, TypeFor(s, q).value,
                  Produce(c, s1, q, TypeFor(s, q).value, env).0);
  }

  /** How a call ends that the checks let pass, its profile being found or not. */
  ghost predicate Concluded(c: Config<int, Report>, s: Sys, s': Sys, q: Request, env: Env, profileFound: bool, r: Result<int, Error>)
    requires q.orderID in s.orders && TypeFor(s, q).Some?
  {
    && (!profileFound ==> r == Failure(ProfileNotFound))
    && (profileFound ==> match LateError(q, env) case Some(e) => r == Failure(e) case None => r.Success?)
    && Returned(c, s, s', q, TypeFor(s, q).value, r)
  }

  lemma RetryOutcome(c: Config<int, Report>, s: Sys, q: Request, env: Env)
    requires Lawful(c) && Pointwise(c) && (forall e: Report :: c.getKey(e) == e.id) && Consistent(c, s) && AtMostOnce(s)
    requires Objection(s, q).None?
    ensures var (r, s', lookups) := Create(c, s, q, env, true);
      lookups == 1 && Concluded(c, s, s', q, env, env.secondFound, r)
  {
    PassOutcome(c, s, q, env);
  }

  lemma ConcludedFrame(c: Config<int, Report>, s: Sys, s1: Sys, s': Sys, q: Request, env: Env, found: bool, r: Result<int, Error>)
    requires q.orderID in s.orders && TypeFor(s, q).Some? && SameButCache(s, s1) && Concluded(c, s1, s', q, env, found, r)
    ensures Concluded(c, s, s', q, env, found, r)
  {
    ReturnedFrame(c, s, s1, s', q, TypeFor(s, q).value, r);
  }

  lemma PassedOutcome(c: Config<int, Report>, s: Sys, q: Request, env: Env)
    requires Lawful(c) && Pointwise(c) && (forall e: Report :: c.getKey(e) == e.id) && Consistent(c, s) && AtMostOnce(s)
    requires Objection(s, q).None?
    ensures var (r, s', lookups) := Create(c, s, q, env, false);
      lookups == (if env.firstFound then 1 else 2) && Concluded(c, s, s', q, env, env.firstFound || env.secondFound, r)
  {
    PassOutcome(c, s, q, env);
    if !env.firstFound {
      var s1 := Check(c, s, q).1;
      RetryOutcome(c, s1, q, env);
      var (r, s', _) := Create(c, s1, q, env, true);
      ConcludedFrame(c, s, s1, s', q, env, env.secondFound, r);
    }
  }

  /**
   * The whole call, by its result: which error it gives and when, how often it looks for the profile, and
   * that the report it returns is the one it has just made.
   */
  lemma CreateOutcome(c: Config<int, Report>, s: Sys, q: Request, env: Env)
    requires Lawful(c) && Pointwise(c) && (forall e: Report :: c.getKey(e) == e.id) && Consistent(c, s) && AtMostOnce(s)
    ensures var (r, s', lookups) := Create(c, s, q, env, false);
      if Objection(s, q).Some? then r == Failure(Objection(s, q).value) && lookups == 0 && SameButCache(s, s')
      else lookups == (if env.firstFound then 1 else 2) && Concluded(c, s, s', q, env, env.firstFound || env.secondFound, r)
  {
    if Objection(s, q).None? {
      PassedOutcome(c, s, q, env);
    } else {
      CheckObjects(c, s, q);
    }
  }

  lemma MadeOnRetry(c: Config<int, Report>, s: Sys, q: Request, env: Env)
    requires Lawful(c) && Pointwise(c) && (forall e: Report :: c.getKey(e) == e.id)
    requires Consistent(c, s) && AtMostOnce(s) && WellFormed(s, q, env) && env.secondFound
    ensures var (r, s', _) := Create(c, s, q, env, true);
      && (r.Success? <==> !(Links(s, q.orderID) && AlreadyMade(s, q)))
      && (if Links(s, q.orderID) && AlreadyMade(s, q) then s' == s.(cache := s'.cache)
          else Added(s, s', q, q.typeCode.value, env.base))
  {
    CheckMeaning(c, s, q);
    var (code, s1) := Check(c, s, q);
    if code.Success? {
      ProduceKeeps(c, s1, q, code.value, env);
    }
  }

  lemma RunTwo(c: Config<int, Report>, s: Sys, calls: seq<Call>)
    requires c.Sized() && |calls| == 2
    ensures var s1 := Create(c, s, calls[0].q, calls[0].env, false).1;
      Run(c, s, calls) == Create(c, s1, calls[1].q, calls[1].env, false).1
  {
    var s1 := Create(c, s, calls[0].q, calls[0].env, false).1;
    var s2 := Create(c, s1, calls[1].q, calls[1].env, false).1;
    assert calls[1..][0] == calls[1] && calls[1..][1..] == [];
    assert Run(c, s1, calls[1..]) == Run(c, s2, []);
  }

  /** The run adds two reports, which are the same but for their IDs. */
  ghost predicate ReportedTwice(c: Config<int, Report>, s: Sys, calls: seq<Call>)
    requires c.Sized()
  {
    var made, n := Run(c, s, calls).made, |s.made|;
    |made| == n + 2 && SameReport(made[n], made[n + 1]) && made[n].id != made[n + 1].id
  }

  /** For an order without a report item the same request makes the same report twice, under two IDs. */
  lemma RepeatIsNotNoticed(c: Config<int, Report>, s: Sys, q: Request, env: Env, env': Env, calls: seq<Call>)
    requires Lawful(c) && Pointwise(c) && (forall e: Report :: c.getKey(e) == e.id)
    requires Consistent(c, s) && AtMostOnce(s) && WellFormed(s, q, env) && WellFormed(s, q, env') && !Links(s, q.orderID)
    requires calls == [Call(q, env), Call(q, env')]
    ensures ReportedTwice(c, s, calls)
  {
    RunTwo(c, s, calls);
    var s1 := Create(c, s, q, env, false).1;
    MadeUnlinked(c, s, q, env);
    MadeUnlinked(c, s1, q, env');
    TwiceAdded(s, s1, Create(c, s1, q, env', false).1, q, q.typeCode.value, env.base, env'.base);
  }

  lemma MadeUnlinked(c: Config<int, Report>, s: Sys, q: Request, env: Env)
    requires Lawful(c) && Pointwise(c) && (forall e: Report :: c.getKey(e) == e.id)
    requires Consistent(c, s) && AtMostOnce(s) && WellFormed(s, q, env) && !Links(s, q.orderID)
    ensures var s' := Create(c, s, q, env, false).1;
      && Added(s, s', q, q.typeCode.value, env.base) && Consistent(c, s') && AtMostOnce(s')
      && s'.orders == s.orders && s'.types == s.types && s'.queries == s.queries
  {
    MadeExactlyWhenNotNoticed(c, s, q, env);
    CreateKeeps(c, s, q, env, false);
  }

  lemma TwiceAdded(s: Sys, s1: Sys, s2: Sys, q: Request, code: string, base: int, base': int)
    requires Added(s, s1, q, code, base) && Added(s1, s2, q, code, base')
    ensures var n := |s.made|;
      |s2.made| == n + 2 && SameReport(s2.made[n], s2.made[n + 1]) && s2.made[n].id != s2.made[n + 1].id
  {
    assert s1.ids[|s.ids|] in s1.ids;
  }

  /** One user's subscription order, which has no report item, and nothing made or cached yet. */
  function SubscriptionOnly(): Sys {
    Sys(State(Server(map[], true, []), Database(map[], [])), [], [], map[1 := Order(7, [OrderItem(None)])], {"PL"}, {5})
  }

  lemma SubscriptionOnlyConsistent(c: Config<int, Report>, q: Request, env: Env)
    requires q == Request(7, false, Some("PL"), 1, 5, "P") && env == Env(true, true, true, 0, true)
    ensures Consistent(c, SubscriptionOnly()) && AtMostOnce(SubscriptionOnly()) && SubscriptionOnly().made == []
    ensures WellFormed(SubscriptionOnly(), q, env) && !Links(SubscriptionOnly(), q.orderID)
  {
  }

  /** There the same request, sent twice, makes the same report twice. */
  lemma SubscriptionOrderReportedTwice(c: Config<int, Report>, s: Sys, q: Request, env: Env, calls: seq<Call>)
    requires Lawful(c) && Pointwise(c) && (forall e: Report :: c.getKey(e) == e.id)
    requires s == SubscriptionOnly() && calls == [Call(q, env), Call(q, env)]
    requires q == Request(7, false, Some("PL"), 1, 5, "P") && env == Env(true, true, true, 0, true)
    ensures ReportedTwice(c, s, calls) && s.made == []
  {
    SubscriptionOnlyConsistent(c, q, env);
    RepeatIsNotNoticed(c, s, q, env, env, calls);
  }
}
