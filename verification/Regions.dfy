/** Region names, key prefixes, and why regions of one Redis server do not disturb each other. */
module Regions {
  import opened Collections
  import opened RedisCache
  import opened EntityCache
  import opened EntityCacheTheorems
  import opened CacheRuns
  import Decimal

  /** A plain region, or the region of one site (`SiteEntityCacheBase`). */
  datatype Region = Plain(name: string) | Site(id: nat, name: string) {
    function Text(): string {
      match this
      case Plain(n) => n
      case Site(id, n) => SiteName(id) + ":" + n
    }
  }

  function SiteName(id: nat): string {
    "Site_" + Decimal.Digits(id)
  }

  /** The family of regions in use: names without the delimiter. */
  predicate InFamily(r: Region) {
    ':' !in r.name
  }

  function KeyPrefix(cacheName: string, region: string): string {
    cacheName + ":" + region + ":"
  }

  function PrefixOf(cacheName: string, r: Region): string {
    KeyPrefix(cacheName, r.Text())
  }

  lemma FirstColon(a: string, x: string, b: string, y: string)
    requires ':' !in a && ':' !in b && a + ":" + x <= b + ":" + y
    ensures a == b && x <= y
  {
    var s, t := a + ":" + x, b + ":" + y;
    assert forall i :: 0 <= i < |a| ==> s[i] == a[i] != ':';
    assert forall i :: 0 <= i < |b| ==> t[i] == b[i] != ':';
    assert s[|a|] == ':' && t[|a|] == s[|a|] && t[|b|] == ':';
    assert a == s[..|a|] && b == t[..|b|];
    assert x == s[|a| + 1..] && y == t[|b| + 1..];
  }

  lemma SiteNameHasNoColon(id: nat)
    ensures ':' !in SiteName(id)
  {
    var d := Decimal.Digits(id);
    forall i | 0 <= i < |SiteName(id)|
      ensures SiteName(id)[i] != ':'
    {
      if i >= 5 {
        assert SiteName(id)[i] == d[i - 5];
      }
    }
  }

  lemma SiteNameInjective(id: nat, id': nat)
    requires SiteName(id) == SiteName(id')
    ensures id == id'
  {
    assert SiteName(id)[5..] == Decimal.Digits(id) && SiteName(id')[5..] == Decimal.Digits(id');
    Decimal.DigitsRoundTrip(id);
    Decimal.DigitsRoundTrip(id');
  }

  /** The one clash: a plain region named like a site, against that site's regions. */
  predicate Swallows(a: Region, b: Region) {
    a.Plain? && b.Site? && a.name == SiteName(b.id)
  }

  lemma PrefixCancels(head: string, x: string, y: string)
    ensures head + x <= head + y <==> x <= y
  {
    assert (head + x)[|head|..] == x && (head + y)[|head|..] == y;
    if x <= y {
      assert head + y == (head + x) + y[|x|..];
    }
    if head + x <= head + y {
      assert x == (head + y)[..|head + x|][|head|..] == y[..|x|];
    }
  }

  /** Within the family, one prefix extends another exactly for equal regions and that clash. */
  lemma PrefixesNest(cacheName: string, a: Region, b: Region)
    requires InFamily(a) && InFamily(b)
    ensures PrefixOf(cacheName, a) <= PrefixOf(cacheName, b) <==> a == b || Swallows(a, b)
  {
    PrefixCancels(cacheName + ":", a.Text() + ":", b.Text() + ":");
    assert PrefixOf(cacheName, a) == (cacheName + ":") + (a.Text() + ":");
    assert PrefixOf(cacheName, b) == (cacheName + ":") + (b.Text() + ":");
    TextsNest(a, b);
  }

  lemma TextsNest(a: Region, b: Region)
    requires InFamily(a) && InFamily(b)
    ensures a.Text() + ":" <= b.Text() + ":" <==> a == b || Swallows(a, b)
  {
    if a.Site? { SiteNameHasNoColon(a.id); }
    if b.Site? { SiteNameHasNoColon(b.id); }
    var p, q := a.Text() + ":", b.Text() + ":";
    var a1, a2 := if a.Site? then SiteName(a.id) else a.name, if a.Site? then a.name + ":" else [];
    var b1, b2 := if b.Site? then SiteName(b.id) else b.name, if b.Site? then b.name + ":" else [];
    assert p == a1 + ":" + a2 && q == b1 + ":" + b2;
    if p <= q {
      FirstColon(a1, a2, b1, b2);
      if a.Site? && b.Site? {
        SiteNameInjective(a.id, b.id);
        assert a2 == a.name + ":" + [] && b2 == b.name + ":" + [];
        FirstColon(a.name, [], b.name, []);
      }
    }
    if Swallows(a, b) {
      assert q == p + b2;
    }
  }

  ghost predicate Separate(a: Region, b: Region) {
    InFamily(a) && InFamily(b) && a != b && !Swallows(a, b) && !Swallows(b, a)
  }

  /** No two separate regions share a Redis key, for any key strings. */
  lemma RegionsShareNoKey(cacheName: string, a: Region, b: Region, x: string, y: string)
    requires Separate(a, b)
    ensures PrefixOf(cacheName, a) + x != PrefixOf(cacheName, b) + y
    ensures !(PrefixOf(cacheName, a) <= PrefixOf(cacheName, b) + y)
  {
    PrefixesNest(cacheName, a, b);
    PrefixesNest(cacheName, b, a);
    var p, q := PrefixOf(cacheName, a), PrefixOf(cacheName, b);
    if p <= q + y {
      PrefixesOfOneString(p, q, q + y);
    }
    assert p <= p + x;
  }

  lemma PrefixesOfOneString(p: string, q: string, z: string)
    requires p <= z && q <= z
    ensures p <= q || q <= p
  {
    if |p| <= |q| {
      assert p == z[..|p|] == q[..|p|];
    } else {
      assert q == z[..|q|] == p[..|q|];
    }
  }

  /** A flush that reaches the server empties its own region and touches no separate one. */
  lemma FlushIsExact(s: Server, cacheName: string, a: Region)
    requires s.Healthy() && InFamily(a)
    ensures var (ok, s') := FlushRegion(s, PrefixOf(cacheName, a));
      && ok
      && (forall x :: PrefixOf(cacheName, a) + x !in s'.store)
      && (forall b, y :: Separate(a, b) ==>
            var k := PrefixOf(cacheName, b) + y;
            (k in s.store <==> k in s'.store) && (k in s.store ==> s'.store[k] == s.store[k]))
  {
    var p := PrefixOf(cacheName, a);
    var s' := FlushRegion(s, p).1;
    assert s'.store == s.store - s.KeysWith(p);
    forall x
      ensures p + x !in s'.store
    {
      assert p <= p + x;
    }
    forall b, y | Separate(a, b)
      ensures var k := PrefixOf(cacheName, b) + y;
        (k in s.store <==> k in s'.store) && (k in s.store ==> s'.store[k] == s.store[k])
    {
      RegionsShareNoKey(cacheName, a, b, [], y);
    }
  }

  // ---------- isolation of whole caches ----------

  lemma {:induction false} PutRowsFrame<K(!new), E(!new)>(c: Config<K, E>, s: Server, es: seq<E>)
    ensures SameOutside(c.prefix, s.store, PutRows(c, s, es).store)
    decreases es
  {
    if es != [] {
      assert c.prefix <= c.Key(c.getKey(es[0]));
      PutRowsFrame(c, s.Write(c.Key(c.getKey(es[0])), c.serialize(es[0])), es[1..]);
    }
  }

  lemma {:induction false} PutMarkersFrame<K(!new), E(!new)>(c: Config<K, E>, s: Server, dict: map<K, E>, needed: seq<K>)
    ensures SameOutside(c.prefix, s.store, PutMarkers(c, s, dict, needed).store)
    decreases needed
  {
    if needed != [] {
      assert c.prefix <= c.Key(needed[0]);
      PutMarkersFrame(c, if needed[0] in dict then s else s.Write(c.Key(needed[0]), NOT_IN_DB), dict, needed[1..]);
    }
  }

  lemma CompleteFrame<K(!new), E(!new)>(c: Config<K, E>, st: State<K, E>, keys: seq<K>, hits: map<K, E>, needed: seq<K>)
    requires c.Sized()
    ensures SameOutside(c.prefix, st.server.store, Complete(c, st, keys, hits, needed).1.server.store)
  {
    var loaded := LoadBlocks(c, st.db, needed, c.loadBlock).0;
    if loaded.Some? {
      var es := loaded.value;
      PutRowsFrame(c, st.server, es);
      PutMarkersFrame(c, PutRows(c, st.server, es), Index(c, hits, es), needed);
    }
  }

  /** Whatever its loader and serialiser do, a cache writes and removes only keys of its own prefix. */
  lemma StepFrame<K(!new), E(!new)>(c: Config<K, E>, st: State<K, E>, op: Op<K, E>)
    requires c.Sized() && !op.Expire?
    ensures SameOutside(c.prefix, st.server.store, Step(c, st, op).1.server.store)
  {
    assert forall k :: c.prefix <= c.Key(k);
    match op
    case One(k, force) =>
      OneFrame(c, st, k, force);
    case Many(keys, force) =>
      if |keys| == 1 {
        OneFrame(c, st, keys[0], force);
      } else if keys != [] {
        GeneralFrame(c, st, keys, force);
      }
    case _ =>
  }

  lemma OneFrame<K(!new), E(!new)>(c: Config<K, E>, st: State<K, E>, k: K, force: bool)
    ensures SameOutside(c.prefix, st.server.store, GetOne(c, st, k, force).1.server.store)
  {
    assert c.prefix <= c.Key(k);
  }

  lemma GeneralFrame<K(!new), E(!new)>(c: Config<K, E>, st: State<K, E>, keys: seq<K>, force: bool)
    requires c.Sized()
    ensures SameOutside(c.prefix, st.server.store, GetGeneral(c, st, keys, force).1.server.store)
  {
    var ks := Distinct(keys);
    if force {
      assert forall k :: k in keys ==> c.prefix <= c.Key(k);
      CompleteFrame(c, st.(server := RemoveMany(c, st.server, keys)), ks, map[], ks);
    } else {
      ReadBlocksCells(st.server, RedisKeys(c, ks), c.readBlock);
      var (cells, s) := ReadBlocks(st.server, RedisKeys(c, ks), c.readBlock);
      CompleteFrame(c, st.(server := s), ks, Hits(c, map[], ks, cells), Needed(ks, cells));
    }
  }

  /** Two caches of separate regions, of any key and entity types: one's operations keep the other coherent. */
  lemma RegionsAreIsolated<K(!new), E(!new), K'(!new), E'(!new)>(
      cacheName: string, a: Region, b: Region,
      c: Config<K, E>, st: State<K, E>, op: Op<K, E>,
      c': Config<K', E'>, rows': map<K', E'>)
    requires Separate(a, b) && c.Sized() && !op.Expire?
    requires c.prefix == PrefixOf(cacheName, a) && c'.prefix == PrefixOf(cacheName, b)
    requires Coherent(c', rows', st.server.store)
    ensures Coherent(c', rows', Step(c, st, op).1.server.store)
  {
    StepFrame(c, st, op);
    forall k
      ensures !(c.prefix <= c'.Key(k))
    {
      RegionsShareNoKey(cacheName, a, b, [], c'.keyText(k));
    }
  }

  // ---------- recovering the region from a statistics key ----------

  /** `String.Split` on the delimiter. */
  function Split(s: string): (parts: seq<string>)
    ensures parts != []
  {
    if s == [] then [[]]
    else
      var rest := Split(s[1..]);
      if s[0] == ':' then [[]] + rest else [[s[0]] + rest[0]] + rest[1..]
  }

  lemma {:induction false} SplitFirst(a: string, x: string)
    requires ':' !in a
    ensures Split(a + ":" + x) == [a] + Split(x)
  {
    var s := a + ":" + x;
    if a == [] {
      assert s[1..] == x;
    } else {
      assert s[1..] == a[1..] + ":" + x;
      SplitFirst(a[1..], x);
      assert [a[0]] + a[1..] == a;
    }
  }

  /** The text before the first delimiter and the text after it. */
  lemma {:induction false} AtFirstColon(s: string) returns (a: string, x: string)
    requires ':' in s
    ensures ':' !in a && s == a + ":" + x
  {
    if s[0] == ':' {
      a, x := [], s[1..];
    } else {
      a, x := AtFirstColon(s[1..]);
      assert s == [s[0]] + s[1..];
      a := [s[0]] + a;
    }
  }

  /** `AllStats` splits the key and takes part 1: right exactly for delimiter-free regions. */
  lemma StatsKeyRegion(cacheName: string, region: string)
    requires ':' !in cacheName
    ensures var parts := Split(KeyPrefix(cacheName, region) + "Stats");
      |parts| >= 2 && parts[0] == cacheName && (parts[1] == region <==> ':' !in region)
  {
    var key := KeyPrefix(cacheName, region) + "Stats";
    assert key == cacheName + ":" + (region + ":" + "Stats");
    SplitFirst(cacheName, region + ":" + "Stats");
    if ':' in region {
      var a, x := AtFirstColon(region);
      assert region + ":" + "Stats" == a + ":" + (x + ":" + "Stats");
      SplitFirst(a, x + ":" + "Stats");
      assert |a| < |region|;
    } else {
      SplitFirst(region, "Stats");
    }
  }

  /** So the statistics of every site region are attributed to another region. */
  lemma SiteRegionIsMisread(cacheName: string, id: nat, name: string)
    requires ':' !in cacheName
    ensures var parts := Split(KeyPrefix(cacheName, Site(id, name).Text()) + "Stats");
      |parts| >= 2 && parts[1] != Site(id, name).Text()
  {
    var region := Site(id, name).Text();
    assert region[|SiteName(id)|] == ':';
    StatsKeyRegion(cacheName, region);
  }
}
