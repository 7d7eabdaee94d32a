/**
 * The directory walker: `WalkCity` descends a trie of last-name prefixes, each node of which
 * lists some top names and the next letters of all other names, and below each complete last
 * name a second trie of first-name prefixes.
 */
module DirectoryWalk {
  import opened Collections

  datatype Node = Node(nextLetters: string, top: seq<string>)

  /** A null first name asks for a last-name prefix; otherwise the last name is complete. */
  datatype Query = Query(last: string, first: Option<string>)

  /** One city: its last names, their first names, and the server's answers. */
  datatype City = City(names: set<string>, firsts: map<string, set<string>>, node: Query -> Node) {
    function Firsts(last: string): set<string> {
      if last in firsts then firsts[last] else {}
    }

    function Last(p: string): Node { node(Query(p, None)) }
    function First(l: string, f: string): Node { node(Query(l, Some(f))) }
  }

  /**
   * What a node for `prefix` holds: top names that extend the prefix, each once, and the next
   * letters, each once, of all longer names that are not among them.
   */
  ghost predicate NodeContract(names: set<string>, prefix: string, n: Node) {
    && NoDuplicates(n.top) && (forall x :: x in n.top ==> x in names && prefix <= x)
    && NoDuplicates(n.nextLetters)
    && (forall ch :: ch in n.nextLetters <==> HasNext(names, prefix, n, ch))
  }

  ghost predicate HasNext(names: set<string>, prefix: string, n: Node, ch: char) {
    exists x :: x in names && x !in n.top && prefix + [ch] <= x
  }

  /** A name equal to the prefix, having no next letter, must be among the top names. */
  ghost predicate KeepsExact(names: set<string>, prefix: string, n: Node) {
    prefix in names ==> prefix in n.top
  }

  ghost predicate Contract(c: City) {
    && (forall p :: NodeContract(c.names, p, c.Last(p)))
    && (forall l, f :: l in c.names ==> NodeContract(c.Firsts(l), f, c.First(l, f)))
  }

  ghost function MaxLength(names: set<string>): (n: nat)
    ensures forall x :: x in names ==> |x| <= n
  {
    if names == {} then 0
    else
      var x :| x in names;
      var m := MaxLength(names - {x});
      assert forall y :: y in names ==> y == x || y in names - {x};
      if |x| < m then m else |x|
  }

  lemma LetterBound(names: set<string>, prefix: string, n: Node, ch: char)
    requires NodeContract(names, prefix, n) && ch in n.nextLetters
    ensures |prefix| + 1 <= MaxLength(names)
  {
    var x :| x in names && x !in n.top && prefix + [ch] <= x;
  }

  // ---------- the calls a walk makes, in order ----------

  ghost function WalkFirst(c: City, l: string, f: string): seq<Query>
    requires Contract(c) && l in c.names
    decreases MaxLength(c.Firsts(l)) - |f|, 1, 0
  {
    [Query(l, Some(f))] + WalkFirstLetters(c, l, f, c.First(l, f).nextLetters)
  }

  ghost function WalkFirstLetters(c: City, l: string, f: string, letters: string): seq<Query>
    requires Contract(c) && l in c.names
    requires forall ch :: ch in letters ==> ch in c.First(l, f).nextLetters
    decreases MaxLength(c.Firsts(l)) - |f|, 0, |letters|
  {
    if letters == [] then []
    else
      LetterBound(c.Firsts(l), f, c.First(l, f), letters[0]);
      WalkFirst(c, l, f + [letters[0]]) + WalkFirstLetters(c, l, f, letters[1..])
  }

  ghost function WalkNames(c: City, top: seq<string>): seq<Query>
    requires Contract(c) && forall x :: x in top ==> x in c.names
  {
    if top == [] then [] else WalkFirst(c, top[0], "") + WalkNames(c, top[1..])
  }

  ghost function WalkLast(c: City, p: string): seq<Query>
    requires Contract(c)
    decreases MaxLength(c.names) - |p|, 1, 0
  {
    [Query(p, None)] + WalkLetters(c, p, c.Last(p).nextLetters) + WalkNames(c, c.Last(p).top)
  }

  ghost function WalkLetters(c: City, p: string, letters: string): seq<Query>
    requires Contract(c)
    requires forall ch :: ch in letters ==> ch in c.Last(p).nextLetters
    decreases MaxLength(c.names) - |p|, 0, |letters|
  {
    if letters == [] then []
    else
      LetterBound(c.names, p, c.Last(p), letters[0]);
      WalkLast(c, p + [letters[0]]) + WalkLetters(c, p, letters[1..])
  }

  lemma ConcatAssociates(a: seq<Query>, b: seq<Query>, c: seq<Query>)
    ensures a + (b + c) == a + b + c
  {
  }

  lemma LettersStep(c: City, p: string, letters: string, i: nat)
    requires Contract(c) && i < |letters| && forall ch :: ch in letters ==> ch in c.Last(p).nextLetters
    ensures |p| + 1 <= MaxLength(c.names)
    ensures WalkLetters(c, p, letters[i..]) == WalkLast(c, p + [letters[i]]) + WalkLetters(c, p, letters[i + 1..])
  {
    assert letters[i..][1..] == letters[i + 1..];
    LetterBound(c.names, p, c.Last(p), letters[i]);
  }

  lemma FirstLettersStep(c: City, l: string, f: string, letters: string, i: nat)
    requires Contract(c) && l in c.names && i < |letters|
    requires forall ch :: ch in letters ==> ch in c.First(l, f).nextLetters
    ensures |f| + 1 <= MaxLength(c.Firsts(l))
    ensures WalkFirstLetters(c, l, f, letters[i..]) ==
      WalkFirst(c, l, f + [letters[i]]) + WalkFirstLetters(c, l, f, letters[i + 1..])
  {
    assert letters[i..][1..] == letters[i + 1..];
    LetterBound(c.Firsts(l), f, c.First(l, f), letters[i]);
  }

  lemma NamesStep(c: City, top: seq<string>, i: nat)
    requires Contract(c) && i < |top| && forall x :: x in top ==> x in c.names
    ensures WalkNames(c, top[i..]) == WalkFirst(c, top[i], "") + WalkNames(c, top[i + 1..])
  {
    assert top[i..][1..] == top[i + 1..];
  }

  // ---------- the walker as it runs ----------

  class Walker {
    const city: City
    var started: nat
    var completed: nat
    ghost var trace: seq<Query>

    constructor (city: City)
      ensures this.city == city && started == completed == 0 && trace == []
    {
      this.city := city;
      started, completed, trace := 0, 0, [];
    }

    /** The shared counters and the trace move together. */
    twostate predicate Logged(calls: seq<Query>)
      reads this
    {
      && trace == old(trace) + calls
      && started == old(started) + |calls|
      && completed == old(completed) + |calls|
    }

    method GetNode(last: string, first: Option<string>) returns (n: Node)
      modifies this
      ensures n == city.node(Query(last, first)) && Logged([Query(last, first)])
    {
      started := started + 1;
      n := city.node(Query(last, first));
      trace := trace + [Query(last, first)];
      completed := completed + 1;
    }

    method WalkFirstName(last: string, first: string)
      requires Contract(city) && last in city.names
      modifies this
      ensures Logged(WalkFirst(city, last, first))
      decreases MaxLength(city.Firsts(last)) - |first|
    {
      var n := GetNode(last, Some(first));
      ghost var done: seq<Query> := [Query(last, Some(first))];
      for i := 0 to |n.nextLetters|
        invariant done + WalkFirstLetters(city, last, first, n.nextLetters[i..]) == WalkFirst(city, last, first)
        invariant Logged(done)
      {
        FirstLettersStep(city, last, first, n.nextLetters, i);
        ghost var more := WalkFirst(city, last, first + [n.nextLetters[i]]);
        ConcatAssociates(done, more, WalkFirstLetters(city, last, first, n.nextLetters[i + 1..]));
        ConcatAssociates(old(trace), done, more);
        WalkFirstName(last, first + [n.nextLetters[i]]);
        done := done + more;
      }
      assert done + [] == done;
    }

    method WalkNextLetters(last: string, letters: string)
      requires Contract(city) && letters == city.Last(last).nextLetters
      modifies this
      ensures Logged(WalkLetters(city, last, letters))
      decreases MaxLength(city.names) - |last|, 0
    {
      ghost var done: seq<Query> := [];
      assert letters[0..] == letters;
      assert trace == old(trace) + done;
      for i := 0 to |letters|
        invariant done + WalkLetters(city, last, letters[i..]) == WalkLetters(city, last, letters)
        invariant Logged(done)
      {
        LettersStep(city, last, letters, i);
        ghost var more := WalkLast(city, last + [letters[i]]);
        ConcatAssociates(done, more, WalkLetters(city, last, letters[i + 1..]));
        ConcatAssociates(old(trace), done, more);
        WalkLastName(last + [letters[i]]);
        done := done + more;
      }
      assert done + [] == done;
    }

    method WalkTopNames(top: seq<string>)
      requires Contract(city) && forall x :: x in top ==> x in city.names
      modifies this
      ensures Logged(WalkNames(city, top))
    {
      ghost var done: seq<Query> := [];
      assert top[0..] == top;
      assert trace == old(trace) + done;
      for i := 0 to |top|
        invariant done + WalkNames(city, top[i..]) == WalkNames(city, top)
        invariant Logged(done)
      {
        NamesStep(city, top, i);
        ghost var more := WalkFirst(city, top[i], "");
        ConcatAssociates(done, more, WalkNames(city, top[i + 1..]));
        ConcatAssociates(old(trace), done, more);
        WalkFirstName(top[i], "");
        done := done + more;
      }
      assert done + [] == done;
    }

    method WalkLastName(last: string)
      requires Contract(city)
      modifies this
      ensures Logged(WalkLast(city, last))
      decreases MaxLength(city.names) - |last|, 1
    {
      var n := GetNode(last, None);
      assert n == city.Last(last) && NodeContract(city.names, last, n);
      WalkNextLetters(last, n.nextLetters);
      WalkTopNames(n.top);
      ghost var a, b, d := [Query(last, None)], WalkLetters(city, last, n.nextLetters), WalkNames(city, n.top);
      assert old(trace) + a + b + d == old(trace) + (a + b + d);
    }

    /** `WalkCity` itself: the first name says which trie the walk is in. */
    method WalkCity(last: string, first: Option<string>)
      requires Contract(city) && (first.Some? ==> last in city.names)
      modifies this
      ensures Logged(if first.Some? then WalkFirst(city, last, first.value) else WalkLast(city, last))
    {
      if first.None? {
        WalkLastName(last);
      } else {
        WalkFirstName(last, first.value);
      }
    }
  }

  // ---------- how often a node is visited ----------

  /** First-name nodes below one complete last name: each prefix at most once, and none of other names. */
  lemma {:induction false} FirstVisits(c: City, l: string, f: string, q: Query)
    requires Contract(c) && l in c.names
    ensures Count(WalkFirst(c, l, f), q) <= (if q.last == l && q.first.Some? && f <= q.first.value then 1 else 0)
    ensures q == Query(l, Some(f)) ==> Count(WalkFirst(c, l, f), q) == 1
    decreases MaxLength(c.Firsts(l)) - |f|, 1, 0
  {
    var letters := c.First(l, f).nextLetters;
    CountConcat([Query(l, Some(f))], WalkFirstLetters(c, l, f, letters), q);
    CountOne(Query(l, Some(f)), q);
    FirstLetterVisits(c, l, f, letters, q);
  }

  lemma CountOne(x: Query, q: Query)
    ensures Count([x], q) == if x == q then 1 else 0
  {
    assert [x][1..] == [];
  }

  lemma {:induction false} FirstLetterVisits(c: City, l: string, f: string, letters: string, q: Query)
    requires Contract(c) && l in c.names && NoDuplicates(letters)
    requires forall ch :: ch in letters ==> ch in c.First(l, f).nextLetters
    ensures Count(WalkFirstLetters(c, l, f, letters), q) <=
      if q.last == l && q.first.Some? && Below(f, q.first.value, letters) then 1 else 0
    decreases MaxLength(c.Firsts(l)) - |f|, 0, |letters|
  {
    if letters != [] {
      LetterBound(c.Firsts(l), f, c.First(l, f), letters[0]);
      CountConcat(WalkFirst(c, l, f + [letters[0]]), WalkFirstLetters(c, l, f, letters[1..]), q);
      FirstVisits(c, l, f + [letters[0]], q);
      FirstLetterVisits(c, l, f, letters[1..], q);
      if q.first.Some? {
        BelowSplit(f, q.first.value, letters);
      }
    }
  }

  /** `s` extends `prefix` by at least one letter, and that letter is one of `letters`. */
  predicate Below(prefix: string, s: string, letters: string) {
    prefix < s && s[|prefix|] in letters
  }

  lemma BelowSplit(prefix: string, s: string, letters: string)
    requires letters != [] && NoDuplicates(letters)
    ensures Below(prefix, s, letters) <==> prefix + [letters[0]] <= s || Below(prefix, s, letters[1..])
    ensures !(prefix + [letters[0]] <= s && Below(prefix, s, letters[1..]))
  {
    assert letters == [letters[0]] + letters[1..];
    assert letters[0] !in letters[1..];
    if prefix + [letters[0]] <= s {
      assert s[|prefix|] == (prefix + [letters[0]])[|prefix|];
      assert prefix == s[..|prefix|];
    }
    if prefix < s && s[|prefix|] == letters[0] {
      assert s[..|prefix| + 1] == prefix + [letters[0]];
    }
  }

  lemma {:induction false} NameVisits(c: City, top: seq<string>, q: Query)
    requires Contract(c) && (forall x :: x in top ==> x in c.names) && NoDuplicates(top)
    ensures q.first.None? ==> Count(WalkNames(c, top), q) == 0
    ensures q.first == Some("") ==> Count(WalkNames(c, top), q) == if q.last in top then 1 else 0
  {
    if top != [] {
      CountConcat(WalkFirst(c, top[0], ""), WalkNames(c, top[1..]), q);
      FirstVisits(c, top[0], "", q);
      NameVisits(c, top[1..], q);
      assert top == [top[0]] + top[1..];
      assert top[0] !in top[1..];
    }
  }

  /** How often a walk from `p` may visit `q`: a prefix node once, a complete name once per prefix. */
  ghost function Allowance(p: string, q: Query): nat {
    if !(p <= q.last) then 0 else if q.first.None? then 1 else |q.last| - |p| + 1
  }

  lemma {:induction false} LastVisits(c: City, p: string, q: Query)
    requires Contract(c) && (q.first.None? || q.first == Some(""))
    ensures Count(WalkLast(c, p), q) <= Allowance(p, q)
    decreases MaxLength(c.names) - |p|, 1, 0
  {
    var n := c.Last(p);
    var letters, names := WalkLetters(c, p, n.nextLetters), WalkNames(c, n.top);
    CountConcat([Query(p, None)] + letters, names, q);
    CountConcat([Query(p, None)], letters, q);
    CountOne(Query(p, None), q);
    LastLetterVisits(c, p, n.nextLetters, q);
    NameVisits(c, n.top, q);
  }

  lemma {:induction false} LastLetterVisits(c: City, p: string, letters: string, q: Query)
    requires Contract(c) && (q.first.None? || q.first == Some("")) && NoDuplicates(letters)
    requires forall ch :: ch in letters ==> ch in c.Last(p).nextLetters
    ensures Count(WalkLetters(c, p, letters), q) <=
      if !Below(p, q.last, letters) then 0 else if q.first.None? then 1 else |q.last| - |p|
    decreases MaxLength(c.names) - |p|, 0, |letters|
  {
    if letters != [] {
      LetterBound(c.names, p, c.Last(p), letters[0]);
      CountConcat(WalkLast(c, p + [letters[0]]), WalkLetters(c, p, letters[1..]), q);
      LastVisits(c, p + [letters[0]], q);
      LastLetterVisits(c, p, letters[1..], q);
      BelowSplit(p, q.last, letters);
    }
  }

  // ---------- in which order ----------

  /** Alphabetical order, a prefix before what extends it. */
  ghost predicate Earlier(a: string, b: string) {
    a < b || exists i :: DiffersAt(a, b, i)
  }

  ghost predicate DiffersAt(a: string, b: string, i: nat) {
    i < |a| && i < |b| && a[..i] == b[..i] && a[i] < b[i]
  }

  /** The text a node is asked for in one of the two tries, if the query is of that trie. */
  function Asked(q: Query, last: bool): Option<string> {
    if last then (if q.first.None? then Some(q.last) else None) else q.first
  }

  /** The nodes of that trie are asked for in alphabetical order. */
  ghost predicate Alphabetical(calls: seq<Query>, last: bool) {
    forall i, j :: 0 <= i < j < |calls| && Asked(calls[i], last).Some? && Asked(calls[j], last).Some? ==>
      Earlier(Asked(calls[i], last).value, Asked(calls[j], last).value)
  }

  ghost predicate Sorted(letters: string) {
    forall i, j :: 0 <= i < j < |letters| ==> letters[i] < letters[j]
  }

  lemma AlphabeticalConcat(a: seq<Query>, b: seq<Query>, last: bool)
    requires Alphabetical(a, last) && Alphabetical(b, last)
    requires forall x, y :: x in a && y in b && Asked(x, last).Some? && Asked(y, last).Some? ==>
      Earlier(Asked(x, last).value, Asked(y, last).value)
    ensures Alphabetical(a + b, last)
  {
    forall i, j | 0 <= i < j < |a + b| && Asked((a + b)[i], last).Some? && Asked((a + b)[j], last).Some?
      ensures Earlier(Asked((a + b)[i], last).value, Asked((a + b)[j], last).value)
    {
      if i < |a| <= j {
        assert (a + b)[i] in a && (a + b)[j] in b;
      }
    }
  }

  /** What lies below an earlier letter comes before what lies below later ones. */
  lemma EarlierLetter(p: string, ch: char, letters: string, x: string, y: string)
    requires p + [ch] <= x && Below(p, y, letters) && forall k :: 0 <= k < |letters| ==> ch < letters[k]
    ensures Earlier(x, y)
  {
    var n := |p|;
    assert x[..n] == (p + [ch])[..n] == p && x[n] == (p + [ch])[n] == ch;
    assert y[..n] == p;
    assert DiffersAt(x, y, n);
  }

  lemma InWalk(c: City, p: string, q: Query)
    requires Contract(c) && q in WalkLast(c, p) && q.first.None?
    ensures p <= q.last
  {
    CountMembership(WalkLast(c, p), q);
    LastVisits(c, p, q);
  }

  lemma InLetters(c: City, p: string, letters: string, q: Query)
    requires Contract(c) && NoDuplicates(letters) && forall ch :: ch in letters ==> ch in c.Last(p).nextLetters
    requires q in WalkLetters(c, p, letters) && q.first.None?
    ensures Below(p, q.last, letters)
  {
    CountMembership(WalkLetters(c, p, letters), q);
    LastLetterVisits(c, p, letters, q);
  }

  lemma NoPrefixInNames(c: City, top: seq<string>, q: Query)
    requires Contract(c) && (forall x :: x in top ==> x in c.names) && NoDuplicates(top) && q in WalkNames(c, top)
    ensures q.first.Some?
  {
    if q.first.None? {
      CountMembership(WalkNames(c, top), q);
      NameVisits(c, top, q);
    }
  }

  /** If each node lists its next letters in order, the prefixes are walked in alphabetical order. */
  lemma {:induction false} PrefixesInOrder(c: City, p: string)
    requires Contract(c) && forall x :: Sorted(c.Last(x).nextLetters)
    ensures Alphabetical(WalkLast(c, p), true)
    decreases MaxLength(c.names) - |p|, 1, 0
  {
    var n, first := c.Last(p), [Query(p, None)];
    var letters, names := WalkLetters(c, p, n.nextLetters), WalkNames(c, n.top);
    LettersInOrder(c, p, n.nextLetters);
    forall x, y | x in first && y in letters && Asked(y, true).Some?
      ensures Earlier(Asked(x, true).value, Asked(y, true).value)
    {
      InLetters(c, p, n.nextLetters, y);
    }
    AlphabeticalConcat(first, letters, true);
    forall y | y in names
      ensures Asked(y, true).None?
    {
      NoPrefixInNames(c, n.top, y);
    }
    AlphabeticalConcat(first + letters, names, true);
  }

  lemma {:induction false} LettersInOrder(c: City, p: string, letters: string)
    requires Contract(c) && (forall x :: Sorted(c.Last(x).nextLetters)) && Sorted(letters)
    requires forall ch :: ch in letters ==> ch in c.Last(p).nextLetters
    ensures Alphabetical(WalkLetters(c, p, letters), true)
    decreases MaxLength(c.names) - |p|, 0, |letters|
  {
    if letters != [] {
      LetterBound(c.names, p, c.Last(p), letters[0]);
      var p', rest := p + [letters[0]], letters[1..];
      PrefixesInOrder(c, p');
      LettersInOrder(c, p, rest);
      forall x, y | x in WalkLast(c, p') && y in WalkLetters(c, p, rest) && Asked(x, true).Some? && Asked(y, true).Some?
        ensures Earlier(Asked(x, true).value, Asked(y, true).value)
      {
        InWalk(c, p', x);
        InLetters(c, p, rest, y);
        EarlierLetter(p, letters[0], rest, x.last, y.last);
      }
      AlphabeticalConcat(WalkLast(c, p'), WalkLetters(c, p, rest), true);
    }
  }

  lemma InFirstWalk(c: City, l: string, f: string, q: Query)
    requires Contract(c) && l in c.names && q in WalkFirst(c, l, f)
    ensures q.first.Some? && f <= q.first.value
  {
    CountMembership(WalkFirst(c, l, f), q);
    FirstVisits(c, l, f, q);
  }

  lemma InFirstLetters(c: City, l: string, f: string, letters: string, q: Query)
    requires Contract(c) && l in c.names && NoDuplicates(letters)
    requires forall ch :: ch in letters ==> ch in c.First(l, f).nextLetters
    requires q in WalkFirstLetters(c, l, f, letters)
    ensures q.first.Some? && Below(f, q.first.value, letters)
  {
    CountMembership(WalkFirstLetters(c, l, f, letters), q);
    FirstLetterVisits(c, l, f, letters, q);
  }

  /** The same for the first names below a complete last name. */
  lemma {:induction false} FirstNamesInOrder(c: City, l: string, f: string)
    requires Contract(c) && l in c.names && forall x :: Sorted(c.First(l, x).nextLetters)
    ensures Alphabetical(WalkFirst(c, l, f), false)
    decreases MaxLength(c.Firsts(l)) - |f|, 1, 0
  {
    var letters, first := c.First(l, f).nextLetters, [Query(l, Some(f))];
    FirstLettersInOrder(c, l, f, letters);
    forall x, y | x in first && y in WalkFirstLetters(c, l, f, letters)
      ensures Asked(y, false).Some? && Earlier(Asked(x, false).value, Asked(y, false).value)
    {
      InFirstLetters(c, l, f, letters, y);
    }
    AlphabeticalConcat(first, WalkFirstLetters(c, l, f, letters), false);
  }

  lemma {:induction false} FirstLettersInOrder(c: City, l: string, f: string, letters: string)
    requires Contract(c) && l in c.names && (forall x :: Sorted(c.First(l, x).nextLetters)) && Sorted(letters)
    requires forall ch :: ch in letters ==> ch in c.First(l, f).nextLetters
    ensures Alphabetical(WalkFirstLetters(c, l, f, letters), false)
    decreases MaxLength(c.Firsts(l)) - |f|, 0, |letters|
  {
    if letters != [] {
      LetterBound(c.Firsts(l), f, c.First(l, f), letters[0]);
      var f', rest := f + [letters[0]], letters[1..];
      FirstNamesInOrder(c, l, f');
      FirstLettersInOrder(c, l, f, rest);
      forall x, y | x in WalkFirst(c, l, f') && y in WalkFirstLetters(c, l, f, rest)
        ensures Asked(x, false).Some? && Asked(y, false).Some? && Earlier(Asked(x, false).value, Asked(y, false).value)
      {
        InFirstWalk(c, l, f', x);
        InFirstLetters(c, l, f, rest, y);
        EarlierLetter(f, letters[0], rest, x.first.value, y.first.value);
      }
      AlphabeticalConcat(WalkFirst(c, l, f'), WalkFirstLetters(c, l, f, rest), false);
    }
  }

  /** The complete names whose walks begin among the calls, in order. */
  function NamesBegun(calls: seq<Query>): seq<string> {
    if calls == [] then []
    else (if calls[0].first == Some("") then [calls[0].last] else []) + NamesBegun(calls[1..])
  }

  lemma {:induction false} NamesBegunConcat(a: seq<Query>, b: seq<Query>)
    ensures NamesBegun(a + b) == NamesBegun(a) + NamesBegun(b)
  {
    if a == [] {
      assert a + b == b;
    } else {
      assert (a + b)[1..] == a[1..] + b;
      NamesBegunConcat(a[1..], b);
    }
  }

  lemma {:induction false} NoNameBegun(calls: seq<Query>)
    requires forall i :: 0 <= i < |calls| ==> calls[i].first != Some("")
    ensures NamesBegun(calls) == []
  {
    if calls != [] {
      NoNameBegun(calls[1..]);
    }
  }

  lemma OneNameBegun(c: City, l: string)
    requires Contract(c) && l in c.names
    ensures NamesBegun(WalkFirst(c, l, "")) == [l]
  {
    var letters := c.First(l, "").nextLetters;
    var rest := WalkFirstLetters(c, l, "", letters);
    forall i | 0 <= i < |rest|
      ensures rest[i].first != Some("")
    {
      InFirstLetters(c, l, "", letters, rest[i]);
    }
    NoNameBegun(rest);
    assert WalkFirst(c, l, "")[1..] == rest;
  }

  lemma {:induction false} TopNamesBegun(c: City, top: seq<string>)
    requires Contract(c) && forall x :: x in top ==> x in c.names
    ensures NamesBegun(WalkNames(c, top)) == top
  {
    if top != [] {
      OneNameBegun(c, top[0]);
      TopNamesBegun(c, top[1..]);
      NamesBegunConcat(WalkFirst(c, top[0], ""), WalkNames(c, top[1..]));
    }
  }

  /** After the last prefix below it, a node's own top names are walked, in the order in which it lists them. */
  lemma NamesComeLast(c: City, p: string)
    requires Contract(c)
    ensures exists k :: 0 < k <= |WalkLast(c, p)| && SplitsAt(WalkLast(c, p), k, c.Last(p).top)
  {
    var n, w := c.Last(p), WalkLast(c, p);
    var names := WalkNames(c, n.top);
    var k := |w| - |names|;
    TopNamesBegun(c, n.top);
    assert w[k..] == names;
    forall i | k <= i < |w|
      ensures w[i].first.Some?
    {
      assert w[i] == names[i - k] && names[i - k] in names;
      NoPrefixInNames(c, n.top, names[i - k]);
    }
    assert SplitsAt(w, k, n.top);
  }

  /** From the k-th call on no prefix is asked for, and the walks of exactly these names begin. */
  ghost predicate SplitsAt(calls: seq<Query>, k: nat, names: seq<string>)
    requires k <= |calls|
  {
    (forall i :: k <= i < |calls| ==> calls[i].first.Some?) && NamesBegun(calls[k..]) == names
  }

  // ---------- which names are walked ----------

  /** Some prefix of `x`, of length at least `from`, lists `x` among its top names. */
  ghost predicate Listed(c: City, x: string, from: nat) {
    exists i :: from <= i <= |x| && x in c.Last(x[..i]).top
  }

  lemma {:induction false} InWalkNames(c: City, top: seq<string>, x: string)
    requires Contract(c) && (forall y :: y in top ==> y in c.names) && x in top
    ensures Query(x, Some("")) in WalkNames(c, top)
  {
    if x != top[0] {
      InWalkNames(c, top[1..], x);
    }
  }

  lemma {:induction false} InWalkLetters(c: City, p: string, letters: string, ch: char, q: Query)
    requires Contract(c) && ch in letters
    requires forall x :: x in letters ==> x in c.Last(p).nextLetters
    requires q in WalkLast(c, p + [ch])
    ensures q in WalkLetters(c, p, letters)
    decreases |letters|
  {
    if ch != letters[0] {
      InWalkLetters(c, p, letters[1..], ch, q);
    }
  }

  /** A listed name is reached: until its node it is not a top name, so its letter leads on. */
  lemma {:induction false} ListedIsWalked(c: City, p: string, x: string)
    requires Contract(c) && x in c.names && p <= x && Listed(c, x, |p|)
    ensures Query(x, Some("")) in WalkLast(c, p)
    decreases |x| - |p|
  {
    var n := c.Last(p);
    assert p == x[..|p|];
    if x in n.top {
      InWalkNames(c, n.top, x);
    } else {
      var i :| |p| <= i <= |x| && x in c.Last(x[..i]).top;
      assert i > |p|;
      var ch := x[|p|];
      assert p + [ch] == x[..|p| + 1] <= x;
      assert HasNext(c.names, p, n, ch);
      assert Listed(c, x, |p + [ch]|);
      ListedIsWalked(c, p + [ch], x);
      InWalkLetters(c, p, n.nextLetters, ch, Query(x, Some("")));
    }
  }

  /** Conversely only listed names are walked. */
  lemma {:induction false} WalkedIsListed(c: City, p: string, x: string)
    requires Contract(c) && Query(x, Some("")) in WalkLast(c, p)
    ensures x in c.names && p <= x && Listed(c, x, |p|)
    decreases MaxLength(c.names) - |p|, 1, 0
  {
    var n, q := c.Last(p), Query(x, Some(""));
    if q in WalkNames(c, n.top) {
      CountMembership(WalkNames(c, n.top), q);
      NameVisits(c, n.top, q);
      assert p == x[..|p|];
    } else {
      assert q in WalkLetters(c, p, n.nextLetters);
      WalkedInLetters(c, p, n.nextLetters, x);
    }
  }

  lemma {:induction false} WalkedInLetters(c: City, p: string, letters: string, x: string)
    requires Contract(c) && forall ch :: ch in letters ==> ch in c.Last(p).nextLetters
    requires Query(x, Some("")) in WalkLetters(c, p, letters)
    ensures x in c.names && p <= x && Listed(c, x, |p|)
    decreases MaxLength(c.names) - |p|, 0, |letters|
  {
    LetterBound(c.names, p, c.Last(p), letters[0]);
    var p' := p + [letters[0]];
    if Query(x, Some("")) in WalkLast(c, p') {
      WalkedIsListed(c, p', x);
      var i :| |p'| <= i <= |x| && x in c.Last(x[..i]).top;
      assert p == p'[..|p|] == x[..|p|];
    } else {
      WalkedInLetters(c, p, letters[1..], x);
    }
  }

  /**
   * The walk of a city. Each last-name prefix node is visited at most once; a name of length n is
   * walked as a complete name at most n + 1 times; and it is walked at all if and only if some
   * node on its path lists it.
   */
  lemma WalkOfCity(c: City, x: string)
    requires Contract(c)
    ensures Count(WalkLast(c, ""), Query(x, None)) <= 1
    ensures Count(WalkLast(c, ""), Query(x, Some(""))) <= |x| + 1
    ensures Query(x, Some("")) in WalkLast(c, "") <==> x in c.names && Listed(c, x, 0)
  {
    LastVisits(c, "", Query(x, None));
    LastVisits(c, "", Query(x, Some("")));
    if x in c.names && Listed(c, x, 0) {
      ListedIsWalked(c, "", x);
    }
    if Query(x, Some("")) in WalkLast(c, "") {
      WalkedIsListed(c, "", x);
    }
  }

  /** Under the documented contract, where a node keeps the name equal to its prefix, every name is walked. */
  lemma EveryNameIsWalked(c: City, x: string)
    requires Contract(c) && KeepsExact(c.names, x, c.Last(x))
    ensures x in c.names <==> Query(x, Some("")) in WalkLast(c, "")
  {
    WalkOfCity(c, x);
    assert x[..|x|] == x;
  }

  // ---------- which first names are shown ----------

  /** Some node visited below the last name `l`, from the prefix `f` on, shows the first name. */
  ghost predicate Shown(c: City, l: string, f: string, g: string)
    requires Contract(c) && l in c.names
  {
    exists h :: Query(l, Some(h)) in WalkFirst(c, l, f) && g in c.First(l, h).top
  }

  ghost predicate ListedFirst(c: City, l: string, g: string, from: nat) {
    exists i :: from <= i <= |g| && g in c.First(l, g[..i]).top
  }

  lemma {:induction false} ListedIsShown(c: City, l: string, f: string, g: string)
    requires Contract(c) && l in c.names && g in c.Firsts(l) && f <= g && ListedFirst(c, l, g, |f|)
    ensures Shown(c, l, f, g)
    decreases |g| - |f|
  {
    var n := c.First(l, f);
    assert f == g[..|f|];
    if g in n.top {
      assert Query(l, Some(f)) in WalkFirst(c, l, f);
    } else {
      var i :| |f| <= i <= |g| && g in c.First(l, g[..i]).top;
      assert i > |f|;
      var ch := g[|f|];
      assert f + [ch] == g[..|f| + 1] <= g;
      assert HasNext(c.Firsts(l), f, n, ch);
      assert ListedFirst(c, l, g, |f + [ch]|);
      ListedIsShown(c, l, f + [ch], g);
      var h :| Query(l, Some(h)) in WalkFirst(c, l, f + [ch]) && g in c.First(l, h).top;
      InWalkFirstLetters(c, l, f, n.nextLetters, ch, Query(l, Some(h)));
    }
  }

  lemma {:induction false} InWalkFirstLetters(c: City, l: string, f: string, letters: string, ch: char, q: Query)
    requires Contract(c) && l in c.names && ch in letters
    requires forall x :: x in letters ==> x in c.First(l, f).nextLetters
    requires q in WalkFirst(c, l, f + [ch])
    ensures q in WalkFirstLetters(c, l, f, letters)
    decreases |letters|
  {
    if ch != letters[0] {
      InWalkFirstLetters(c, l, f, letters[1..], ch, q);
    }
  }

  /** A first name of a walked last name is shown if and only if some node on its path lists it. */
  lemma FirstNameShownExactly(c: City, l: string, g: string)
    requires Contract(c) && l in c.names
    ensures Shown(c, l, "", g) <==> g in c.Firsts(l) && ListedFirst(c, l, g, 0)
  {
    if g in c.Firsts(l) && ListedFirst(c, l, g, 0) {
      ListedIsShown(c, l, "", g);
    }
    if Shown(c, l, "", g) {
      var h :| Query(l, Some(h)) in WalkFirst(c, l, "") && g in c.First(l, h).top;
      assert NodeContract(c.Firsts(l), h, c.First(l, h));
      assert h == g[..|h|];
    }
  }

  /** Under the documented contract every first name of a walked last name is shown. */
  lemma FirstNameIsShown(c: City, l: string, g: string)
    requires Contract(c) && l in c.names && KeepsExact(c.Firsts(l), g, c.First(l, g))
    ensures g in c.Firsts(l) <==> Shown(c, l, "", g)
  {
    FirstNameShownExactly(c, l, g);
    assert g[..|g|] == g;
  }

  // ---------- the top names are the heaviest ones ----------

  /** The names below `prefix` that are borne by more persons than `x`. */
  ghost function Heavier(names: set<string>, prefix: string, x: string, weight: string -> int): set<string> {
    set y | y in names && prefix <= y && weight(y) > weight(x)
  }

  /** The other names below `prefix` that are borne by at least as many. */
  ghost function Rivals(names: set<string>, prefix: string, x: string, weight: string -> int): set<string> {
    set y | y in names && prefix <= y && y != x && weight(y) >= weight(x)
  }

  /** The server lists the `limit` heaviest names below the prefix, ties broken in any way at each node. */
  ghost predicate TopAt(names: set<string>, prefix: string, n: Node, limit: nat, weight: string -> int, x: string) {
    && (x in n.top ==> |Heavier(names, prefix, x, weight)| < limit)
    && (x in names && prefix <= x && |Rivals(names, prefix, x, weight)| < limit ==> x in n.top)
  }

  ghost predicate Top(names: set<string>, prefix: string, n: Node, limit: nat, weight: string -> int) {
    forall x :: TopAt(names, prefix, n, limit, weight, x)
  }

  ghost predicate Untied(names: set<string>, x: string, weight: string -> int) {
    forall y :: y in names && weight(y) == weight(x) ==> y == x
  }

  lemma DeeperHasFewer(names: set<string>, p: string, x: string, weight: string -> int)
    requires p <= x
    ensures |Heavier(names, x, x, weight)| <= |Heavier(names, p, x, weight)|
  {
    forall y | y in Heavier(names, x, x, weight)
      ensures y in Heavier(names, p, x, weight)
    {
      assert p == x[..|p|] == y[..|p|];
    }
    SubsetCardinality(Heavier(names, x, x, weight), Heavier(names, p, x, weight));
  }

  lemma UntiedRivals(names: set<string>, p: string, x: string, weight: string -> int)
    requires Untied(names, x, weight)
    ensures Rivals(names, p, x, weight) == Heavier(names, p, x, weight)
  {
  }

  /**
   * With nodes of the `limit` heaviest names, a name is walked if fewer than `limit` other names extending it
   * are borne by at least as many persons, and only if fewer than `limit` are borne by more; without
   * ties that is an equivalence.
   */
  lemma WalkOfRankedCity(c: City, limit: nat, weight: string -> int, x: string)
    requires Contract(c) && forall p :: Top(c.names, p, c.Last(p), limit, weight)
    ensures Query(x, Some("")) in WalkLast(c, "") ==> x in c.names && |Heavier(c.names, x, x, weight)| < limit
    ensures x in c.names && |Rivals(c.names, x, x, weight)| < limit ==> Query(x, Some("")) in WalkLast(c, "")
    ensures Untied(c.names, x, weight) ==>
      (Query(x, Some("")) in WalkLast(c, "") <==> x in c.names && |Heavier(c.names, x, x, weight)| < limit)
  {
    WalkOfCity(c, x);
    if Listed(c, x, 0) {
      var i :| 0 <= i <= |x| && x in c.Last(x[..i]).top;
      assert TopAt(c.names, x[..i], c.Last(x[..i]), limit, weight, x);
      DeeperHasFewer(c.names, x[..i], x, weight);
    }
    assert TopAt(c.names, x, c.Last(x), limit, weight, x);
    assert x[..|x|] == x;
    if Untied(c.names, x, weight) {
      UntiedRivals(c.names, x, x, weight);
    }
  }

  /** The same for the first names shown below a walked last name. */
  lemma ShownOfRankedCity(c: City, l: string, limit: nat, weight: string -> int, g: string)
    requires Contract(c) && l in c.names && forall f :: Top(c.Firsts(l), f, c.First(l, f), limit, weight)
    ensures Shown(c, l, "", g) ==> g in c.Firsts(l) && |Heavier(c.Firsts(l), g, g, weight)| < limit
    ensures g in c.Firsts(l) && |Rivals(c.Firsts(l), g, g, weight)| < limit ==> Shown(c, l, "", g)
    ensures Untied(c.Firsts(l), g, weight) ==>
      (Shown(c, l, "", g) <==> g in c.Firsts(l) && |Heavier(c.Firsts(l), g, g, weight)| < limit)
  {
    FirstNameShownExactly(c, l, g);
    if ListedFirst(c, l, g, 0) {
      var i :| 0 <= i <= |g| && g in c.First(l, g[..i]).top;
      assert TopAt(c.Firsts(l), g[..i], c.First(l, g[..i]), limit, weight, g);
      DeeperHasFewer(c.Firsts(l), g[..i], g, weight);
    }
    assert TopAt(c.Firsts(l), g, c.First(l, g), limit, weight, g);
    assert g[..|g|] == g;
    if Untied(c.Firsts(l), g, weight) {
      UntiedRivals(c.Firsts(l), g, g, weight);
    }
  }

  // ---------- cities of the prefixes of one string ----------

  /** The prefixes of `t` of the lengths from `a` up to but not including `b`. */
  function Prefixes(t: string, a: nat, b: nat): (r: seq<string>)
    requires b <= |t| + 1
    ensures forall x :: x in r <==> x <= t && a <= |x| < b
    ensures NoDuplicates(r)
    decreases b - a
  {
    if a >= b then [] else
      var r := Prefixes(t, a + 1, b);
      assert forall x :: x <= t && |x| == a ==> x == t[..a];
      [t[..a]] + r
  }

  function Length(x: string): int { |x| }

  function Shortness(x: string): int { -|x| }

  lemma {:induction false} PrefixesLength(t: string, a: nat, b: nat)
    requires a <= b <= |t| + 1
    ensures |Prefixes(t, a, b)| == b - a
    decreases b - a
  {
    if a < b {
      PrefixesLength(t, a + 1, b);
    }
  }

  lemma PrefixCount(t: string, a: nat, b: nat, s: set<string>)
    requires a <= b <= |t| + 1
    requires forall x :: x in s <==> x <= t && a <= |x| < b
    ensures |s| == b - a
  {
    PrefixesLength(t, a, b);
    NoDuplicatesCardinality(Prefixes(t, a, b));
    assert s == ToSet(Prefixes(t, a, b));
  }

  lemma PrefixesNest(p: string, x: string, t: string)
    requires p <= t && x <= t
    ensures p <= x <==> |p| <= |x|
  {
    assert p == t[..|p|] && x == t[..|x|];
  }

  /**
   * A city whose names are the non-empty prefixes of `t`, the longer the heavier, with one place less
   * on each node than there are names.
   */
  function Chain(t: string): City
    requires t != ""
  {
    City(ToNames(t, 1), map[],
         (q: Query) =>
           if q.first.None? && q.last <= t
           then Node(if q.last == "" then [t[0]] else "", Prefixes(t, if |q.last| < 2 then 2 else |q.last|, |t| + 1))
           else Node("", []))
  }

  function ToNames(t: string, from: nat): (names: set<string>)
    ensures forall x :: x in names <==> x <= t && from <= |x|
  {
    var r := Prefixes(t, from, |t| + 1);
    set x | x in r
  }

  lemma ChainNode(t: string, p: string)
    requires t != ""
    ensures NodeContract(Chain(t).names, p, Chain(t).Last(p))
  {
    var c := Chain(t);
    var n := c.Last(p);
    forall x | x in n.top
      ensures x in c.names && p <= x
    {
      PrefixesNest(p, x, t);
    }
    forall ch
      ensures ch in n.nextLetters <==> HasNext(c.names, p, n, ch)
    {
      ChainLetter(t, p, ch);
    }
  }

  lemma ChainLetter(t: string, p: string, ch: char)
    requires t != ""
    ensures var c := Chain(t); ch in c.Last(p).nextLetters <==> HasNext(c.names, p, c.Last(p), ch)
  {
    var c := Chain(t);
    var n := c.Last(p);
    if ch in n.nextLetters {
      assert p == "" && ch == t[0];
      assert p + [ch] == t[..1] && t[..1] in c.names && t[..1] !in n.top;
    }
    if HasNext(c.names, p, n, ch) {
      var x :| x in c.names && x !in n.top && p + [ch] <= x;
      assert p == (p + [ch])[..|p|] == x[..|p|] == t[..|p|];
      assert |x| == 1 && x == t[..1] == p + [ch];
    }
  }

  lemma ChainTop(t: string, p: string, x: string)
    requires t != ""
    ensures TopAt(Chain(t).names, p, Chain(t).Last(p), |t| - 1, Length, x)
  {
    var c, weight := Chain(t), Length;
    var n := c.Last(p);
    if x in n.top {
      assert x in c.names && |x| >= 2 && |x| >= |p|;
      forall y
        ensures y in Heavier(c.names, p, x, weight) <==> y <= t && |x| + 1 <= |y| < |t| + 1
      {
        if y <= t {
          PrefixesNest(p, y, t);
        }
      }
      PrefixCount(t, |x| + 1, |t| + 1, Heavier(c.names, p, x, weight));
    } else if x in c.names && p <= x {
      assert p == x[..|p|] == t[..|p|] && |x| == 1;
      forall y
        ensures y in Rivals(c.names, p, x, weight) <==> y <= t && 2 <= |y| < |t| + 1
      {
        if y <= t {
          PrefixesNest(p, y, t);
          assert |y| == 1 ==> y == t[..1] == x;
        }
      }
      PrefixCount(t, 2, |t| + 1, Rivals(c.names, p, x, weight));
    }
  }

  lemma ChainTops(t: string, limit: nat)
    requires limit == |t| - 1
    ensures Contract(Chain(t)) && forall p :: Top(Chain(t).names, p, Chain(t).Last(p), limit, Length)
  {
    var c := Chain(t);
    forall p
      ensures NodeContract(c.names, p, c.Last(p))
    {
      ChainNode(t, p);
    }
    forall p, x
      ensures TopAt(c.names, p, c.Last(p), limit, Length, x)
    {
      ChainTop(t, p, x);
    }
  }

  /**
   * For every limit a city of one name more: it meets the contract, its nodes list the heaviest names, and
   * its shortest name, with all others below it, is never walked.
   */
  lemma UnlistedNameIsMissed(t: string, limit: nat)
    requires limit == |t| - 1
    ensures var c := Chain(t);
      && Contract(c) && |c.names| == limit + 1 && (forall p :: Top(c.names, p, c.Last(p), limit, Length))
      && t[..1] in c.names && Query(t[..1], Some("")) !in WalkLast(c, "")
  {
    var c, x := Chain(t), t[..1];
    ChainTops(t, limit);
    PrefixCount(t, 1, |t| + 1, c.names);
    WalkOfRankedCity(c, limit, Length, x);
    forall y
      ensures y in Heavier(c.names, x, x, Length) <==> y <= t && 2 <= |y| < |t| + 1
    {
      if y <= t {
        PrefixesNest(x, y, t);
      }
    }
    PrefixCount(t, 2, |t| + 1, Heavier(c.names, x, x, Length));
  }

  /**
   * A city whose names are the prefixes of `t` of length at least `m`, the shorter the heavier, with one
   * place less on each node than there are names: all nodes on the path of the shortest list it.
   */
  function Crowded(t: string, m: nat): City
    requires m < |t|
  {
    City(ToNames(t, m), map[],
         (q: Query) =>
           if q.first.None? && q.last <= t
           then if |q.last| <= m then Node([t[|q.last|]], Prefixes(t, m, |t|))
                else Node("", Prefixes(t, |q.last|, |t| + 1))
           else Node("", []))
  }

  lemma PrefixExtends(p: string, ch: char, x: string, t: string)
    requires p + [ch] <= x && x <= t
    ensures p <= t && |p| < |x| && ch == t[|p|]
  {
    assert p == (p + [ch])[..|p|] == x[..|p|] == t[..|p|];
    assert ch == (p + [ch])[|p|] == x[|p|] == t[|p|];
  }

  lemma NextPrefix(p: string, t: string)
    requires p < t
    ensures p + [t[|p|]] <= t
  {
    assert p + [t[|p|]] == t[..|p| + 1];
  }

  lemma CrowdedLeads(t: string, m: nat, p: string, ch: char)
    requires m < |t|
    ensures var c := Crowded(t, m); ch in c.Last(p).nextLetters ==> HasNext(c.names, p, c.Last(p), ch)
  {
    var c := Crowded(t, m);
    if p <= t && |p| <= m && ch == t[|p|] {
      NextPrefix(p, t);
      assert c.Last(p).top == Prefixes(t, m, |t|);
      assert t in c.names && t !in c.Last(p).top;
    }
  }

  lemma CrowdedLetter(t: string, m: nat, p: string, ch: char)
    requires m < |t|
    ensures var c := Crowded(t, m); ch in c.Last(p).nextLetters <==> HasNext(c.names, p, c.Last(p), ch)
  {
    var c := Crowded(t, m);
    CrowdedLeads(t, m, p, ch);
    if HasNext(c.names, p, c.Last(p), ch) {
      var x :| x in c.names && x !in c.Last(p).top && p + [ch] <= x;
      PrefixExtends(p, ch, x, t);
      assert |p| <= m;
    }
  }

  lemma CrowdedNode(t: string, m: nat, p: string)
    requires m < |t|
    ensures NodeContract(Crowded(t, m).names, p, Crowded(t, m).Last(p))
  {
    var c := Crowded(t, m);
    var n := c.Last(p);
    forall x | x in n.top
      ensures x in c.names && p <= x
    {
      PrefixesNest(p, x, t);
    }
    forall ch
      ensures ch in n.nextLetters <==> HasNext(c.names, p, n, ch)
    {
      CrowdedLetter(t, m, p, ch);
    }
  }

  lemma CrowdedTop(t: string, m: nat, p: string, x: string)
    requires m < |t|
    ensures TopAt(Crowded(t, m).names, p, Crowded(t, m).Last(p), |t| - m, Shortness, x)
  {
    var c, weight := Crowded(t, m), Shortness;
    var n := c.Last(p);
    var from := if |p| <= m then m else |p|;
    if x in n.top {
      forall y
        ensures y in Heavier(c.names, p, x, weight) <==> y <= t && from <= |y| < |x|
      {
        if y <= t {
          PrefixesNest(p, y, t);
        }
      }
      PrefixCount(t, from, |x|, Heavier(c.names, p, x, weight));
    } else if x in c.names && p <= x {
      assert p == x[..|p|] == t[..|p|] && |x| == |t| && |p| <= m;
      forall y
        ensures y in Rivals(c.names, p, x, weight) <==> y <= t && m <= |y| < |t|
      {
        if y <= t {
          PrefixesNest(p, y, t);
        }
      }
      PrefixCount(t, m, |t|, Rivals(c.names, p, x, weight));
    }
  }

  /** A walk from a node with one letter: the node itself, the walk along the letter, the top names. */
  lemma OneLetter(c: City, p: string, ch: char, q: Query)
    requires Contract(c) && c.Last(p).nextLetters == [ch] && q.first == Some("")
    ensures Count(WalkLast(c, p), q) == Count(WalkLast(c, p + [ch]), q) + (if q.last in c.Last(p).top then 1 else 0)
  {
    var letters, top := [ch], c.Last(p).top;
    CountConcat([Query(p, None)] + WalkLetters(c, p, letters), WalkNames(c, top), q);
    CountConcat([Query(p, None)], WalkLetters(c, p, letters), q);
    CountOne(Query(p, None), q);
    NameVisits(c, top, q);
    assert letters[1..] == [] && WalkLetters(c, p, letters) == WalkLast(c, p + [ch]) + WalkLetters(c, p, letters[1..]);
    assert WalkLast(c, p + [ch]) + [] == WalkLast(c, p + [ch]);
  }

  /** The node of the first `i` letters of `t` lists `t[..m]` and leads on to the next letter of `t` only. */
  ghost predicate OnPath(c: City, t: string, m: nat, i: nat)
    requires m <= |t|
  {
    i < |t| && c.Last(t[..i]).nextLetters == [t[i]] && t[..m] in c.Last(t[..i]).top
  }

  lemma {:induction false} PathWalk(c: City, t: string, m: nat, i: nat)
    requires Contract(c) && i <= m < |t| && forall j: nat :: j <= m ==> OnPath(c, t, m, j)
    ensures Count(WalkLast(c, t[..i]), Query(t[..m], Some(""))) == m - i + 1
    decreases m - i
  {
    var q := Query(t[..m], Some(""));
    assert OnPath(c, t, m, i);
    OneLetter(c, t[..i], t[i], q);
    assert t[..i] + [t[i]] == t[..i + 1];
    if i == m {
      LastVisits(c, t[..i + 1], q);
    } else {
      PathWalk(c, t, m, i + 1);
    }
  }

  lemma CrowdedPath(t: string, m: nat, i: nat)
    requires i <= m < |t|
    ensures OnPath(Crowded(t, m), t, m, i)
  {
    assert t[..i] <= t && |t[..i]| == i && t[..m] <= t;
  }

  lemma CrowdedTops(t: string, m: nat, limit: nat)
    requires m < |t| && limit == |t| - m
    ensures Contract(Crowded(t, m)) && forall p :: Top(Crowded(t, m).names, p, Crowded(t, m).Last(p), limit, Shortness)
  {
    var c := Crowded(t, m);
    forall p
      ensures NodeContract(c.names, p, c.Last(p))
    {
      CrowdedNode(t, m, p);
    }
    forall p, x
      ensures TopAt(c.names, p, c.Last(p), limit, Shortness, x)
    {
      CrowdedTop(t, m, p, x);
    }
  }

  /**
   * The bound is attained, for every name `t[..m]` and every limit, by a city whose nodes list the heaviest
   * names: its walk walks the name once for each of its prefixes.
   */
  lemma BoundIsAttained(t: string, m: nat, limit: nat)
    requires m < |t| && limit == |t| - m
    ensures var c := Crowded(t, m);
      && Contract(c) && (forall p :: Top(c.names, p, c.Last(p), limit, Shortness))
      && Count(WalkLast(c, ""), Query(t[..m], Some(""))) == m + 1
  {
    var c := Crowded(t, m);
    CrowdedTops(t, m, limit);
    forall j: nat | j <= m
      ensures OnPath(c, t, m, j)
    {
      CrowdedPath(t, m, j);
    }
    PathWalk(c, t, m, 0);
    assert t[..0] == "";
  }
}
