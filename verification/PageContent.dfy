/** `Page.GetContent`: the template cache in front of the substitution that overwrites templates. */
module PageContent {
  import opened Collections
  import opened RedisCache
  import opened Placeholders
  import opened ContentBlock

  /** The surroundings: stored procedure, serialiser, lower-casing, formatter, prefix and switch. */
  datatype Config = Config(
    content: (Option<string>, Option<string>) -> Option<seq<Template>>,
    serialize: seq<Template> -> string,
    deserialize: string -> seq<Template>,
    lower: string -> string,
    format: Formatter,
    prefix: string,
    cacheEnabled: bool)

  datatype PageError = InvalidWhereClause | DatabaseThrew | BadFormat(error: FormatError)

  datatype Request = Request(page: Option<string>, where': Option<string>, pairs: Option<seq<Pair>>)

  const FORBIDDEN: seq<string> :=
    ["select", "insert", "update", "delete", "drop", "create", "alter", "exec", "dbcc", "truncate"]

  predicate Contains(s: string, word: string) {
    exists i | 0 <= i <= |s| :: word <= s[i..]
  }

  predicate Rejected(whereLower: Option<string>) {
    whereLower.Some? && exists i | 0 <= i < |FORBIDDEN| :: Contains(whereLower.value, FORBIDDEN[i])
  }

  function Lowered(c: Config, w: Option<string>): Option<string> {
    if w.None? then None else Some(c.lower(w.value))
  }

  function Blank(t: Option<string>): string {
    if t.None? then "" else t.value
  }

  function CacheKey(page: Option<string>, w: Option<string>): string {
    "ST::" + Blank(page) + "|" + Blank(w)
  }

  function Rendered(c: Config, ts: seq<Template>, pairs: Option<seq<Pair>>): Result<seq<Block>, PageError> {
    match Content(ts, pairs, c.format)
    case Failure(e) => Failure(BadFormat(e))
    case Success(blocks) => Success(blocks)
  }

  /** The answer of a service without a cache. */
  function Uncached(c: Config, r: Request): Result<seq<Block>, PageError> {
    var w := Lowered(c, r.where');
    if Rejected(w) then Failure(InvalidWhereClause)
    else match c.content(r.page, w)
      case None => Failure(DatabaseThrew)
      case Some(ts) => Rendered(c, ts, r.pairs)
  }

  function GetContent(c: Config, s: Server, r: Request): (Result<seq<Block>, PageError>, Server) {
    var w := Lowered(c, r.where');
    if Rejected(w) then (Failure(InvalidWhereClause), s)
    else
      var key := c.prefix + CacheKey(r.page, w);
      var cell := if c.cacheEnabled then s.Read(key) else None;
      var s1 := if c.cacheEnabled then s.Next() else s;
      match cell
      case Some(v) => (Rendered(c, c.deserialize(v), r.pairs), s1)
      case None =>
        match c.content(r.page, w)
        case None => (Failure(DatabaseThrew), s1)
        case Some(ts) => (Rendered(c, ts, r.pairs), if c.cacheEnabled then s1.Write(key, c.serialize(ts)) else s1)
  }

  class Pages {
    const c: Config
    const client: CacheClient

    constructor (c: Config, redis: Redis)
      ensures this.c == c && client.redis == redis && client.prefix == c.prefix
    {
      this.c := c;
      this.client := new CacheClient(redis, c.prefix);
    }

    /** Fresh objects with the given contents, as reading rows or deserialising makes them. */
    method Materialise(ts: seq<Template>) returns (objects: seq<SectionTemplate>)
      ensures NoDuplicates(objects) && |objects| == |ts|
      ensures forall i :: 0 <= i < |ts| ==> fresh(objects[i]) && objects[i].Value() == ts[i]
    {
      objects := [];
      for i := 0 to |ts|
        invariant |objects| == i && NoDuplicates(objects)
        invariant forall j :: 0 <= j < i ==> fresh(objects[j]) && objects[j].Value() == ts[j]
      {
        var o := new SectionTemplate(ts[i]);
        objects := objects + [o];
      }
    }

    /**
     * The cache is filled with a serialised copy before `ToClient` overwrites the objects, and a
     * hit is deserialised into fresh ones, so what is stored never sees the request's values.
     */
    method Get(r: Request) returns (answer: Result<seq<Block>, PageError>)
      requires client.prefix == c.prefix
      modifies client.redis
      ensures (answer, client.redis.server) == GetContent(c, old(client.redis.server), r)
    {
      var w := Lowered(c, r.where');
      if Rejected(w) {
        return Failure(InvalidWhereClause);
      }
      var cell: Option<string> := None;
      if c.cacheEnabled {
        cell := client.Get(CacheKey(r.page, w));
      }
      var objects: seq<SectionTemplate>;
      ghost var ts: seq<Template>;
      if cell.Some? {
        ts := c.deserialize(cell.value);
        objects := Materialise(c.deserialize(cell.value));
      } else {
        var loaded := c.content(r.page, w);
        if loaded.None? {
          return Failure(DatabaseThrew);
        }
        ts := loaded.value;
        objects := Materialise(loaded.value);
        assert Values(objects) == ts;
        if c.cacheEnabled {
          client.Put(CacheKey(r.page, w), c.serialize(Values(objects)));
        }
      }
      assert Values(objects) == ts;
      var blocks := ToClient(objects, r.pairs, c.format);
      match blocks
      case Failure(e) => answer := Failure(BadFormat(e));
      case Success(bs) => answer := Success(bs);
    }
  }

  // ---------- the cache key ----------

  /** For page codes free of '|', equal keys mean equal pages and equal where clauses, up to null and "". */
  lemma EqualKeysEqualArguments(page: Option<string>, w: Option<string>, page': Option<string>, w': Option<string>)
    requires '|' !in Blank(page) && '|' !in Blank(page')
    ensures CacheKey(page, w) == CacheKey(page', w') <==> Blank(page) == Blank(page') && Blank(w) == Blank(w')
  {
    var a, b, a', b' := Blank(page), Blank(w), Blank(page'), Blank(w');
    var x, y := a + "|" + b, a' + "|" + b';
    assert CacheKey(page, w) == "ST::" + x && CacheKey(page', w') == "ST::" + y;
    assert CacheKey(page, w)[4..] == x && CacheKey(page', w')[4..] == y;
    if x == y {
      assert forall i :: 0 <= i < |a| ==> x[i] == a[i] != '|';
      assert forall i :: 0 <= i < |a'| ==> y[i] == a'[i] != '|';
      assert x[|a|] == '|' && y[|a'|] == '|' && x[|a'|] == '|' && y[|a|] == '|';
      assert a == x[..|a|] && a' == y[..|a'|] && b == x[|a| + 1..] && b' == y[|a'| + 1..];
    }
  }

  /** Every page code that holds a '|' shares each of its keys with a query for another page, and null shares with "". */
  lemma KeysCollideOtherwise(p: string, w: string) returns (p': string, w': string)
    requires '|' in p
    ensures p' != p && CacheKey(Some(p), Some(w)) == CacheKey(Some(p'), Some(w'))
    ensures CacheKey(None, Some(w)) == CacheKey(Some(""), Some(w))
  {
    var i :| 0 <= i < |p| && p[i] == '|';
    p', w' := p[..i], p[i + 1..] + "|" + w;
    assert p == p' + "|" + p[i + 1..];
    assert "ST::" + p + "|" + w == "ST::" + p' + "|" + w';
  }

  /** Two pages can share a key exactly when one code extends the other by a '|'. */
  lemma PagesShareKey(p: string, p': string)
    requires p != p'
    ensures (exists w, w' :: CacheKey(Some(p), Some(w)) == CacheKey(Some(p'), Some(w'))) <==>
      p + "|" <= p' || p' + "|" <= p
  {
    if w, w' :| CacheKey(Some(p), Some(w)) == CacheKey(Some(p'), Some(w')) {
      SharedKeyExtends(p, w, p', w');
    }
    if p + "|" <= p' {
      var w := ExtensionShares(p, p');
    }
    if p' + "|" <= p {
      var w := ExtensionShares(p', p);
    }
  }

  lemma ExtensionShares(p: string, p': string) returns (w: string)
    requires p + "|" <= p'
    ensures CacheKey(Some(p), Some(w)) == CacheKey(Some(p'), Some(""))
  {
    w := p'[|p| + 1..] + "|";
    assert p' == p + "|" + p'[|p| + 1..];
    assert "ST::" + p + "|" + w == "ST::" + p' + "|" + "";
  }

  lemma SharedKeyExtends(p: string, w: string, p': string, w': string)
    requires p != p' && CacheKey(Some(p), Some(w)) == CacheKey(Some(p'), Some(w'))
    ensures p + "|" <= p' || p' + "|" <= p
  {
    var x, y := p + "|" + w, p' + "|" + w';
    assert CacheKey(Some(p), Some(w)) == "ST::" + x && CacheKey(Some(p'), Some(w')) == "ST::" + y;
    assert x == ("ST::" + x)[4..] && y == ("ST::" + y)[4..];
    assert p + "|" == x[..|p| + 1] && p' + "|" == y[..|p'| + 1];
    assert p == x[..|p|] && p' == y[..|p'|];
    if |p| < |p'| {
      assert p + "|" == p'[..|p| + 1];
    } else if |p'| < |p| {
      assert p' + "|" == p[..|p'| + 1];
    }
  }

  // ---------- runs ----------

  /** The serialiser round-trips, and the stored procedure reads a null where clause as a blank one. */
  ghost predicate Lawful(c: Config) {
    && (forall ts :: c.deserialize(c.serialize(ts)) == ts)
    && (forall p :: c.content(Some(p), None) == c.content(Some(p), Some("")))
  }

  /** Each cached entry of a proper page is the database's content for it. */
  ghost predicate Truthful(c: Config, store: map<string, string>) {
    forall p, w :: '|' !in p && c.prefix + CacheKey(Some(p), Some(w)) in store ==>
      var ts := c.content(Some(p), Some(w));
      ts.Some? && store[c.prefix + CacheKey(Some(p), Some(w))] == c.serialize(ts.value)
  }

  predicate Proper(r: Request) {
    r.page.Some? && '|' !in r.page.value
  }

  /** One proper request: answered as without a cache, whatever fails, and the cache stays truthful. */
  lemma RequestAsUncached(c: Config, s: Server, r: Request)
    requires Lawful(c) && Truthful(c, s.store) && Proper(r)
    ensures GetContent(c, s, r).0 == Uncached(c, r)
    ensures Truthful(c, GetContent(c, s, r).1.store)
  {
    var w := Lowered(c, r.where');
    SameQuery(c, r.page.value, w);
    var ts := c.content(r.page, w);
    if ts.Some? {
      TruthfulWrite(c, s.Next(), r.page.value, Blank(w), ts.value);
    }
    var key := CacheKey(Some(r.page.value), Some(Blank(w)));
    assert c.prefix + key in s.store ==> ts.Some? && s.store[c.prefix + key] == c.serialize(ts.value);
  }

  lemma SameQuery(c: Config, p: string, w: Option<string>)
    requires Lawful(c)
    ensures CacheKey(Some(p), w) == CacheKey(Some(p), Some(Blank(w)))
    ensures c.content(Some(p), w) == c.content(Some(p), Some(Blank(w)))
  {
  }

  lemma TruthfulWrite(c: Config, s: Server, p: string, w: string, ts: seq<Template>)
    requires Truthful(c, s.store) && '|' !in p && c.content(Some(p), Some(w)) == Some(ts)
    ensures Truthful(c, s.store[c.prefix + CacheKey(Some(p), Some(w)) := c.serialize(ts)])
    ensures Truthful(c, s.Write(c.prefix + CacheKey(Some(p), Some(w)), c.serialize(ts)).store)
  {
    var key := c.prefix + CacheKey(Some(p), Some(w));
    var store := s.store[key := c.serialize(ts)];
    forall p', w' | '|' !in p' && c.prefix + CacheKey(Some(p'), Some(w')) in store
      ensures var ts' := c.content(Some(p'), Some(w'));
        ts'.Some? && store[c.prefix + CacheKey(Some(p'), Some(w'))] == c.serialize(ts'.value)
    {
      var key' := c.prefix + CacheKey(Some(p'), Some(w'));
      if key' == key {
        assert CacheKey(Some(p'), Some(w')) == key'[|c.prefix|..] == key[|c.prefix|..] == CacheKey(Some(p), Some(w));
        EqualKeysEqualArguments(Some(p'), Some(w'), Some(p), Some(w));
      }
    }
  }

  /** The word stands somewhere in the text. */
  ghost predicate Holds(text: string, word: string) {
    exists before, after :: text == before + word + after
  }

  lemma ContainsIsHolds(text: string, word: string)
    ensures Contains(text, word) <==> Holds(text, word)
  {
    if i :| 0 <= i <= |text| && word <= text[i..] {
      var rest := text[i..];
      assert rest == word + rest[|word|..];
      assert text == text[..i] + word + rest[|word|..];
    }
    if before, after :| text == before + word + after {
      assert text[|before|..] == word + after;
      assert word <= text[|before|..];
    }
  }

  /** One of the ten statements that a where clause must not name. */
  predicate Forbidden(word: string) {
    || word == "select" || word == "insert" || word == "update" || word == "delete" || word == "drop"
    || word == "create" || word == "alter" || word == "exec" || word == "dbcc" || word == "truncate"
  }

  lemma ForbiddenList(word: string)
    ensures Forbidden(word) <==> exists i :: 0 <= i < |FORBIDDEN| && FORBIDDEN[i] == word
  {
    var f := FORBIDDEN;
    assert f[0] == "select" && f[1] == "insert" && f[2] == "update" && f[3] == "delete" && f[4] == "drop";
    assert f[5] == "create" && f[6] == "alter" && f[7] == "exec" && f[8] == "dbcc" && f[9] == "truncate";
  }

  /** A request is refused exactly if its lower-cased where clause names a forbidden statement, and then nothing is read or written. */
  lemma RefusedExactly(c: Config, s: Server, r: Request)
    ensures Rejected(Lowered(c, r.where')) <==>
      r.where'.Some? && exists word :: Forbidden(word) && Holds(c.lower(r.where'.value), word)
    ensures Rejected(Lowered(c, r.where')) ==> GetContent(c, s, r) == (Failure(InvalidWhereClause), s)
    ensures GetContent(c, s, r).0 == Failure(InvalidWhereClause) ==> Rejected(Lowered(c, r.where'))
  {
    if r.where'.Some? {
      var text := c.lower(r.where'.value);
      if i :| 0 <= i < |FORBIDDEN| && Contains(text, FORBIDDEN[i]) {
        ContainsIsHolds(text, FORBIDDEN[i]);
        ForbiddenList(FORBIDDEN[i]);
      }
      if word :| Forbidden(word) && Holds(text, word) {
        ContainsIsHolds(text, word);
        ForbiddenList(word);
      }
    }
  }

  /**
   * The answer to a proper request that is not refused: the contents that the stored procedure gives for the
   * page and the lower-cased where clause, rendered with the request's own pairs.
   */
  lemma AnswerExactly(c: Config, s: Server, r: Request)
    requires Lawful(c) && Truthful(c, s.store) && Proper(r) && !Rejected(Lowered(c, r.where'))
    ensures var answer := GetContent(c, s, r).0;
      match c.content(r.page, if r.where'.None? then None else Some(c.lower(r.where'.value)))
      case None => answer == Failure(DatabaseThrew)
      case Some(ts) =>
        match Content(ts, r.pairs, c.format)
        case Failure(e) => answer == Failure(BadFormat(e))
        case Success(blocks) => answer == Success(blocks)
  {
    RequestAsUncached(c, s, r);
  }

  /**
   * What a request that is not refused leaves in the cache. A miss whose calls go through stores the contents
   * under the request's key; a hit, a lost write and a disabled cache change nothing.
   */
  lemma StoresContents(c: Config, s: Server, r: Request)
    requires !Rejected(Lowered(c, r.where'))
    ensures var key := c.prefix + CacheKey(r.page, Lowered(c, r.where')); var store := GetContent(c, s, r).1.store;
      var ts := c.content(r.page, Lowered(c, r.where'));
      if c.cacheEnabled && s.Read(key).None? && ts.Some? && !s.Next().Failing() then store == s.store[key := c.serialize(ts.value)]
      else store == s.store
  {
  }

  /** A hit does not ask the database: the answer is the same whatever the database would say. */
  lemma HitAsksNobody(c: Config, c': Config, s: Server, r: Request)
    requires c.cacheEnabled && c' == c.(content := c'.content)
    requires s.Read(c.prefix + CacheKey(r.page, Lowered(c, r.where'))).Some?
    ensures GetContent(c', s, r) == GetContent(c, s, r)
  {
    assert Lowered(c', r.where') == Lowered(c, r.where');
  }

  function Run(c: Config, s: Server, requests: seq<Request>): seq<Result<seq<Block>, PageError>>
    decreases requests
  {
    if requests == [] then []
    else
      var (answer, s') := GetContent(c, s, requests[0]);
      [answer] + Run(c, s', requests[1..])
  }

  /**
   * In every run of proper requests each answer depends on its own request alone: no earlier
   * request's substituted values, and no cache failure, ever shows.
   */
  lemma {:induction false} RunAsUncached(c: Config, s: Server, requests: seq<Request>)
    requires Lawful(c) && Truthful(c, s.store)
    requires forall i :: 0 <= i < |requests| ==> Proper(requests[i])
    ensures |Run(c, s, requests)| == |requests|
    ensures forall i :: 0 <= i < |requests| ==> Run(c, s, requests)[i] == Uncached(c, requests[i])
    decreases requests
  {
    if requests != [] {
      RequestAsUncached(c, s, requests[0]);
      var s' := GetContent(c, s, requests[0]).1;
      RunAsUncached(c, s', requests[1..]);
      forall i | 0 <= i < |requests|
        ensures Run(c, s, requests)[i] == Uncached(c, requests[i])
      {
        if i > 0 {
          assert Run(c, s, requests)[i] == Run(c, s', requests[1..])[i - 1];
          assert requests[i] == requests[1..][i - 1];
        }
      }
    }
  }
}
