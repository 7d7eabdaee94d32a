/**
 * The read-through entity cache (`EntityCacheBase`) as functions on the server and
 * database values. `EntityCacheClass` runs them in place; `EntityCacheTheorems` and
 * `CacheRuns` say what they achieve.
 */
module EntityCache {
  import opened Collections
  import opened RedisCache

  /** JSON of the empty string: "looked up, not in the database". */
  const NOT_IN_DB: string := "\"\""

  /**
   * What a subclass and its region supply: the hooks `GetFromDB` and `GetKey`, the key's
   * text, the JSON serialiser, the key prefix and the two block sizes (50 and 100 in the
   * source).
   */
  datatype Config<!K(==), !E> = Config(
    load: (map<K, E>, seq<K>) -> seq<E>,
    getKey: E -> K,
    keyText: K -> string,
    serialize: E -> string,
    deserialize: string -> E,
    prefix: string,
    readBlock: nat,
    loadBlock: nat)
  {
    function Key(k: K): string {
      prefix + keyText(k)
    }

    predicate Sized() {
      readBlock > 0 && loadBlock > 0
    }

    /** What a correct cache may hold for `k`. */
    function Cell(rows: map<K, E>, k: K): string {
      if k in rows then serialize(rows[k]) else NOT_IN_DB
    }
  }

  /** The keys' texts are distinct, and JSON round-trips and never yields the marker. */
  ghost predicate Lawful<K(!new), E(!new)>(c: Config<K, E>) {
    && c.Sized()
    && (forall k, k' :: c.keyText(k) == c.keyText(k') ==> k == k')
    && (forall e :: c.deserialize(c.serialize(e)) == e && c.serialize(e) != NOT_IN_DB)
  }

  /** Each row carries the key it is stored under. */
  ghost predicate RowsKeyed<K, E>(c: Config<K, E>, rows: map<K, E>) {
    forall k :: k in rows ==> c.getKey(rows[k]) == k
  }

  /** `es` holds the rows of `keys`, each once, in any order, and nothing else. */
  ghost predicate Answers<K, E>(c: Config<K, E>, rows: map<K, E>, keys: seq<K>, es: seq<E>) {
    && (forall i :: 0 <= i < |es| ==>
          c.getKey(es[i]) in keys && c.getKey(es[i]) in rows && es[i] == rows[c.getKey(es[i])])
    && (forall k :: k in keys && k in rows ==> rows[k] in es)
    && (forall i, j :: 0 <= i < j < |es| ==> c.getKey(es[i]) != c.getKey(es[j]))
  }

  /** The loader answers every duplicate-free key list. */
  ghost predicate Pointwise<K(!new), E(!new)>(c: Config<K, E>) {
    forall rows, keys :: RowsKeyed(c, rows) && NoDuplicates(keys) ==>
      Answers(c, rows, keys, c.load(rows, keys))
  }

  /** The loader answers every one-key list (all that `QueryCache` and `VisitCache` promise). */
  ghost predicate PointwiseOnOne<K(!new), E(!new)>(c: Config<K, E>) {
    forall rows, k :: RowsKeyed(c, rows) ==> Answers(c, rows, [k], c.load(rows, [k]))
  }

  /** The database: its rows, and a script of the loads that will throw. */
  datatype Database<K(==), E> = Database(rows: map<K, E>, faults: seq<bool>) {
    predicate Failing() {
      faults != [] && faults[0]
    }

    function Next(): Database<K, E> {
      if faults == [] then this else this.(faults := faults[1..])
    }

    ghost predicate Healthy() {
      forall i :: 0 <= i < |faults| ==> !faults[i]
    }
  }

  function Load<K, E>(c: Config<K, E>, db: Database<K, E>, keys: seq<K>): Option<seq<E>> {
    if db.Failing() then None else Some(c.load(db.rows, keys))
  }

  /** Load in blocks of `max`; one throwing block loses the whole load. */
  function LoadBlocks<K, E>(c: Config<K, E>, db: Database<K, E>, keys: seq<K>, max: nat)
    : (Option<seq<E>>, Database<K, E>)
    requires max > 0
    decreases |keys|
  {
    if |keys| <= max then (Load(c, db, keys), db.Next())
    else
      match Load(c, db, keys[..max])
      case None => (None, db.Next())
      case Some(es) =>
        var (rest, db') := LoadBlocks(c, db.Next(), keys[max..], max);
        (if rest.None? then None else Some(es + rest.value), db')
  }

  /** Read the cells of `keys` in blocks; each block is one server call. */
  function ReadBlocks(s: Server, keys: seq<string>, block: nat): (r: (seq<Option<string>>, Server))
    requires block > 0
    ensures |r.0| == |keys|
    decreases |keys|
  {
    if keys == [] then ([], s)
    else
      var n := if |keys| < block then |keys| else block;
      var (tail, s') := ReadBlocks(s.Next(), keys[n..], block);
      (s.ReadMany(keys[..n]) + tail, s')
  }

  function RedisKeys<K, E>(c: Config<K, E>, keys: seq<K>): (r: seq<string>)
    ensures |r| == |keys| && forall i :: 0 <= i < |keys| ==> r[i] == c.Key(keys[i])
  {
    seq(|keys|, i requires 0 <= i < |keys| => c.Key(keys[i]))
  }

  /** The keys whose cell was null. */
  function Needed<K>(keys: seq<K>, cells: seq<Option<string>>): (r: seq<K>)
    requires |keys| == |cells|
    ensures forall k :: k in r ==> k in keys
  {
    if keys == [] then []
    else (if cells[0].None? then [keys[0]] else []) + Needed(keys[1..], cells[1..])
  }

  /** `dict` extended by the entities found in the cells, markers skipped. */
  function Hits<K(==), E>(c: Config<K, E>, dict: map<K, E>, keys: seq<K>, cells: seq<Option<string>>): map<K, E>
    requires |keys| == |cells|
    decreases keys
  {
    if keys == [] then dict
    else
      var dict' := match cells[0]
        case None => dict
        case Some(v) => if v == NOT_IN_DB then dict else dict[keys[0] := c.deserialize(v)];
      Hits(c, dict', keys[1..], cells[1..])
  }

  function PutRows<K, E>(c: Config<K, E>, s: Server, es: seq<E>): Server
    decreases es
  {
    if es == [] then s
    else PutRows(c, s.Write(c.Key(c.getKey(es[0])), c.serialize(es[0])), es[1..])
  }

  function Index<K, E>(c: Config<K, E>, dict: map<K, E>, es: seq<E>): map<K, E>
    decreases es
  {
    if es == [] then dict else Index(c, dict[c.getKey(es[0]) := es[0]], es[1..])
  }

  function PutMarkers<K, E>(c: Config<K, E>, s: Server, dict: map<K, E>, needed: seq<K>): Server
    decreases needed
  {
    if needed == [] then s
    else
      PutMarkers(c, if needed[0] in dict then s else s.Write(c.Key(needed[0]), NOT_IN_DB), dict, needed[1..])
  }

  /** The entries of `dict` in the order of `keys`. */
  function Select<K, E>(dict: map<K, E>, keys: seq<K>): seq<E> {
    if keys == [] then []
    else (if keys[0] in dict then [dict[keys[0]]] else []) + Select(dict, keys[1..])
  }

  /** The reference: one row per distinct key that has one, in request order. */
  function Lookup<K(!new), E>(rows: map<K, E>, keys: seq<K>): seq<E> {
    Select(rows, Distinct(keys))
  }

  /** How many of the keys have a row, a repeated key counting once. */
  function FoundAmong<K(==), E>(rows: map<K, E>, keys: seq<K>): nat {
    if keys == [] then 0
    else
      var n := |keys| - 1;
      FoundAmong(rows, keys[..n]) + (if keys[n] in rows && keys[n] !in keys[..n] then 1 else 0)
  }

  /** The row of the key first requested at `i` stands behind those of the keys requested before it. */
  ghost predicate StandsAt<K, E>(es: seq<E>, rows: map<K, E>, keys: seq<K>, i: nat)
    requires i < |keys| && keys[i] in rows
  {
    var rank := FoundAmong(rows, keys[..i]);
    rank < |es| && es[rank] == rows[keys[i]]
  }

  /** One row per key that has one, in the order in which the keys were first requested. */
  ghost predicate RequestOrder<K, E>(es: seq<E>, rows: map<K, E>, keys: seq<K>) {
    && |es| == FoundAmong(rows, keys)
    && forall i: nat :: i < |keys| && keys[i] in rows && keys[i] !in keys[..i] ==> StandsAt(es, rows, keys, i)
  }

  /** The state shared by all requests. */
  datatype State<K(==), E> = State(server: Server, db: Database<K, E>)

  function RemoveMany<K(!new), E>(c: Config<K, E>, s: Server, keys: seq<K>): Server {
    if keys == [] then s else s.Delete(set k | k in keys :: c.Key(k))
  }

  /** From the cells read so far to the answer: load what is missing, cache it, order it. */
  function Complete<K, E>(c: Config<K, E>, st: State<K, E>, keys: seq<K>, hits: map<K, E>, needed: seq<K>)
    : (seq<E>, State<K, E>)
    requires c.Sized()
  {
    if needed == [] then (Select(hits, keys), st)
    else
      var (loaded, db) := LoadBlocks(c, st.db, needed, c.loadBlock);
      match loaded
      case None => (Select(hits, keys), State(st.server, db))
      case Some(es) =>
        var dict := Index(c, hits, es);
        var s := PutRows(c, st.server, es);
        var s' := if |es| != |needed| then PutMarkers(c, s, dict, needed) else s;
        (Select(dict, keys), State(s', db))
  }

  /** The general path of the batch `Get`, for any number of keys. */
  function GetGeneral<K(!new), E>(c: Config<K, E>, st: State<K, E>, keys: seq<K>, force: bool)
    : (seq<E>, State<K, E>)
    requires c.Sized()
  {
    var ks := Distinct(keys);
    if force then Complete(c, st.(server := RemoveMany(c, st.server, keys)), ks, map[], ks)
    else
      var (cells, s) := ReadBlocks(st.server, RedisKeys(c, ks), c.readBlock);
      Complete(c, st.(server := s), ks, Hits(c, map[], ks, cells), Needed(ks, cells))
  }

  datatype LoadError = LoadThrew

  /** The single-key `Get`; a throwing load reaches the caller. */
  function GetOne<K, E>(c: Config<K, E>, st: State<K, E>, key: K, force: bool)
    : (Result<Option<E>, LoadError>, State<K, E>)
  {
    var value := if force then None else st.server.Read(c.Key(key));
    var s := if force then st.server.Delete({c.Key(key)}) else st.server.Next();
    match value
    case Some(v) =>
      (Success(if v == NOT_IN_DB then None else Some(c.deserialize(v))), st.(server := s))
    case None =>
      match Load(c, st.db, [key])
      case None => (Failure(LoadThrew), State(s, st.db.Next()))
      case Some(es) =>
        if es == [] then
          (Success(None), State(s.Write(c.Key(key), NOT_IN_DB), st.db.Next()))
        else
          (Success(Some(es[0])), State(s.Write(c.Key(key), c.serialize(es[0])), st.db.Next()))
  }

  /** The batch `Get`: nothing, the one-key shortcut, or the general path. */
  function GetMany<K(!new), E>(c: Config<K, E>, st: State<K, E>, keys: seq<K>, force: bool)
    : (Result<seq<E>, LoadError>, State<K, E>)
    requires c.Sized()
  {
    if keys == [] then (Success([]), st)
    else if |keys| == 1 then
      var (r, st') := GetOne(c, st, keys[0], force);
      (match r
       case Failure(e) => Failure(e)
       case Success(None) => Success([])
       case Success(Some(e)) => Success([e]),
       st')
    else
      var (es, st') := GetGeneral(c, st, keys, force);
      (Success(es), st')
  }

  function Set<K, E>(c: Config<K, E>, s: Server, e: E): Server {
    s.Write(c.Key(c.getKey(e)), c.serialize(e))
  }

  function Remove<K, E>(c: Config<K, E>, s: Server, key: K): Server {
    s.Delete({c.Key(key)})
  }
}
