/**
 * Placeholder substitution: the loop of one-key-at-a-time `String.Replace` calls against
 * simultaneous substitution of all `{name}` placeholders in one pass.
 */
module Placeholders {

  /** `String.Replace`: all non-overlapping occurrences, leftmost first. */
  function Replace(s: string, pattern: string, value: string): string
    requires pattern != []
    decreases |s|
  {
    if |s| < |pattern| then s
    else if pattern <= s then value + Replace(s[|pattern|..], pattern, value)
    else [s[0]] + Replace(s[1..], pattern, value)
  }

  type Pair = (string, string)

  /** The placeholder of a name. */
  function Hole(name: string): string {
    "{" + name + "}"
  }

  /** The source's loop: each pair in turn rewrites the whole text. */
  function Sequential(s: string, pairs: seq<Pair>): string
    decreases pairs
  {
    if pairs == [] then s
    else Sequential(Replace(s, Hole(pairs[0].0), pairs[0].1), pairs[1..])
  }

  /** Index of the first `c` in `s`, or the length when there is none. */
  function FirstAt(s: string, c: char): (i: nat)
    ensures i <= |s| && c !in s[..i]
    ensures i < |s| ==> s[i] == c
    ensures i == |s| <==> c !in s
  {
    if s == [] then 0
    else if s[0] == c then 0
    else
      assert s == [s[0]] + s[1..];
      var i := FirstAt(s[1..], c);
      assert s[..i + 1] == [s[0]] + s[1..][..i];
      i + 1
  }

  /** One pass: each `{name}` whose name is in `m` becomes its value. */
  function Substitute(s: string, m: map<string, string>): string
    decreases |s|
  {
    if s == [] then []
    else if s[0] == '{' then
      var j := FirstAt(s, '}');
      if j < |s| && s[1..j] in m then m[s[1..j]] + Substitute(s[j + 1..], m)
      else [s[0]] + Substitute(s[1..], m)
    else [s[0]] + Substitute(s[1..], m)
  }

  predicate BraceFree(s: string) {
    '{' !in s && '}' !in s
  }

  /** No opening brace inside a placeholder. */
  predicate NoNesting(s: string) {
    s == [] ||
    (&& NoNesting(s[1..])
     && (s[0] == '{' ==> var j := FirstAt(s, '}'); j < |s| ==> '{' !in s[1..j]))
  }

  /** The pairs as a map; of several pairs with one key the first counts. */
  function FirstWins(pairs: seq<Pair>): map<string, string> {
    if pairs == [] then map[] else FirstWins(pairs[1..])[pairs[0].0 := pairs[0].1]
  }

  // ---------- one replacement is a one-key substitution ----------

  lemma FirstAtIs(s: string, c: char, i: nat)
    requires i < |s| && s[i] == c && c !in s[..i]
    ensures FirstAt(s, c) == i
  {
    var j := FirstAt(s, c);
    assert c in s;
    assert forall x :: 0 <= x < i ==> s[x] == s[..i][x] != c;
    assert forall x :: 0 <= x < j ==> s[x] == s[..j][x] != c;
  }

  lemma HoleThere(s: string, key: string)
    requires '}' !in key && Hole(key) <= s
    ensures var j := |key| + 1; j < |s| && s[0] == '{' && FirstAt(s, '}') == j && s[1..j] == key
  {
    var j := |key| + 1;
    assert s[..j] == "{" + key && s[j] == Hole(key)[j] == '}';
    FirstAtIs(s, '}', j);
  }

  lemma NameThere(s: string, j: nat)
    requires 0 < j < |s| && s[0] == '{' && s[j] == '}'
    ensures Hole(s[1..j]) <= s && |Hole(s[1..j])| == j + 1
  {
    assert s == [s[0]] + s[1..j] + [s[j]] + s[j + 1..];
  }

  /** At an opening brace, the key's pattern is there exactly when the key is the placeholder's name. */
  lemma PatternIsName(s: string, key: string)
    requires s != [] && '}' !in key
    ensures Hole(key) <= s <==> s[0] == '{' && FirstAt(s, '}') < |s| && s[1..FirstAt(s, '}')] == key
    ensures Hole(key) <= s ==> FirstAt(s, '}') == |key| + 1
  {
    if Hole(key) <= s {
      HoleThere(s, key);
    }
    if s[0] == '{' && FirstAt(s, '}') < |s| {
      NameThere(s, FirstAt(s, '}'));
    }
  }

  /** One step of the one-key substitution, in terms of the pattern. */
  lemma SubstituteStep(s: string, key: string, value: string)
    requires s != [] && '}' !in key
    ensures var m := map[key := value]; var p := Hole(key);
      Substitute(s, m) == if p <= s then value + Substitute(s[|p|..], m) else [s[0]] + Substitute(s[1..], m)
  {
    PatternIsName(s, key);
  }

  lemma {:induction false} ReplaceIsSubstitute(s: string, key: string, value: string)
    requires '}' !in key
    ensures Replace(s, Hole(key), value) == Substitute(s, map[key := value])
    decreases |s|
  {
    if |s| < |Hole(key)| {
      TooShort(s, key, value);
    } else {
      SubstituteStep(s, key, value);
      if Hole(key) <= s {
        ReplaceIsSubstitute(s[|Hole(key)|..], key, value);
      } else {
        ReplaceIsSubstitute(s[1..], key, value);
      }
    }
  }

  lemma {:induction false} TooShort(s: string, key: string, value: string)
    requires '}' !in key && |s| < |Hole(key)|
    ensures Substitute(s, map[key := value]) == s
    decreases |s|
  {
    if s != [] {
      SubstituteStep(s, key, value);
      TooShort(s[1..], key, value);
    }
  }

  // ---------- composing substitutions ----------

  lemma {:induction false} SubstituteAfterText(v: string, t: string, m: map<string, string>)
    requires '{' !in v
    ensures Substitute(v + t, m) == v + Substitute(t, m)
    decreases |v|
  {
    if v == [] {
      assert v + t == t;
    } else {
      assert (v + t)[1..] == v[1..] + t;
      SubstituteAfterText(v[1..], t, m);
      assert v + Substitute(t, m) == [v[0]] + (v[1..] + Substitute(t, m));
    }
  }

  lemma {:induction false} SubstituteUnclosed(s: string, m: map<string, string>)
    requires '}' !in s
    ensures Substitute(s, m) == s
    decreases |s|
  {
    if s != [] {
      SubstituteUnclosed(s[1..], m);
    }
  }

  lemma HoleParts(name: string, t: string)
    requires BraceFree(name)
    ensures var s := Hole(name) + t; var j := |name| + 1;
      && s[0] == '{' && FirstAt(s, '}') == j < |s|
      && s[1..j] == name && s[j + 1..] == t && s[1..] == (name + "}") + t
  {
    var s := Hole(name) + t;
    var j := |name| + 1;
    assert s[..j] == "{" + name && s[j] == '}';
    FirstAtIs(s, '}', j);
  }

  lemma SubstituteAtBrace(s: string, j: nat, m: map<string, string>)
    requires 0 < j < |s| && s[0] == '{' && FirstAt(s, '}') == j
    ensures Substitute(s, m) ==
      if s[1..j] in m then m[s[1..j]] + Substitute(s[j + 1..], m) else "{" + Substitute(s[1..], m)
  {
  }

  /** A closed placeholder in front of `t`. */
  lemma SubstituteHole(name: string, t: string, m: map<string, string>)
    requires BraceFree(name)
    ensures Substitute(Hole(name) + t, m) == (if name in m then m[name] else Hole(name)) + Substitute(t, m)
  {
    HoleParts(name, t);
    SubstituteAtBrace(Hole(name) + t, |name| + 1, m);
    if name !in m {
      SubstituteAfterText(name + "}", t, m);
      Wrap(name, Substitute(t, m));
    }
  }

  lemma Wrap(name: string, r: string)
    ensures "{" + (name + "}" + r) == Hole(name) + r
  {
  }

  /** Either `s` does not start a closed placeholder, or it splits into one and a rest. */
  lemma SplitHole(s: string) returns (name: string, t: string)
    requires NoNesting(s) && s != [] && s[0] == '{' && '}' in s
    ensures BraceFree(name) && s == Hole(name) + t && |t| < |s| && NoNesting(t)
  {
    var j := FirstAt(s, '}');
    name, t := s[1..j], s[j + 1..];
    assert '}' !in name by {
      assert forall i :: 0 <= i < |name| ==> name[i] == s[..j][i + 1];
    }
    assert s == [s[0]] + name + [s[j]] + t;
    NoNestingSuffix(s, j + 1);
  }

  lemma {:induction false} NoNestingSuffix(s: string, n: nat)
    requires NoNesting(s) && n <= |s|
    ensures NoNesting(s[n..])
    decreases n
  {
    if n == 0 {
      assert s[0..] == s;
    } else {
      NoNestingSuffix(s[1..], n - 1);
      assert s[1..][n - 1..] == s[n..];
    }
  }

  /** Substituting one key and then others is substituting all at once. */
  lemma {:induction false} SubstituteTwice(s: string, key: string, value: string, m: map<string, string>)
    requires NoNesting(s) && '{' !in value
    ensures Substitute(Substitute(s, map[key := value]), m) == Substitute(s, m[key := value])
    decreases |s|
  {
    var one, all := map[key := value], m[key := value];
    if s == [] {
    } else if s[0] != '{' {
      SubstituteTwice(s[1..], key, value, m);
      assert ([s[0]] + Substitute(s[1..], one))[1..] == Substitute(s[1..], one);
    } else if '}' !in s {
      SubstituteUnclosed(s, one);
      SubstituteUnclosed(s, m);
      SubstituteUnclosed(s, all);
    } else {
      var name, t := SplitHole(s);
      SubstituteHole(name, t, one);
      SubstituteHole(name, t, all);
      SubstituteTwice(t, key, value, m);
      if name == key {
        SubstituteAfterText(value, Substitute(t, one), m);
      } else {
        SubstituteHole(name, Substitute(t, one), m);
      }
    }
  }

  lemma {:induction false} NoNestingAfterText(v: string, t: string)
    requires '{' !in v && NoNesting(t)
    ensures NoNesting(v + t)
    decreases |v|
  {
    if v == [] {
      assert v + t == t;
    } else {
      assert (v + t)[1..] == v[1..] + t;
      NoNestingAfterText(v[1..], t);
    }
  }

  lemma NoNestingHole(name: string, t: string)
    requires BraceFree(name) && NoNesting(t)
    ensures NoNesting(Hole(name) + t)
  {
    HoleParts(name, t);
    NoNestingAfterText(name + "}", t);
  }

  lemma {:induction false} SubstituteKeepsNoNesting(s: string, key: string, value: string)
    requires NoNesting(s) && '{' !in value
    ensures NoNesting(Substitute(s, map[key := value]))
    decreases |s|
  {
    var one := map[key := value];
    if s == [] {
    } else if s[0] != '{' {
      SubstituteKeepsNoNesting(s[1..], key, value);
      NoNestingAfterText([s[0]], Substitute(s[1..], one));
    } else if '}' !in s {
      SubstituteUnclosed(s, one);
    } else {
      var name, t := SplitHole(s);
      SubstituteHole(name, t, one);
      SubstituteKeepsNoNesting(t, key, value);
      if name == key {
        NoNestingAfterText(value, Substitute(t, one));
      } else {
        NoNestingHole(name, Substitute(t, one));
      }
    }
  }

  // ---------- keys that no unnested template can hold ----------

  /** A key is clean if it has no closing brace, or if its own placeholder is nested. */
  predicate CleanKey(key: string) {
    '}' !in key || !NoNesting(Hole(key))
  }

  ghost predicate CleanPairs(pairs: seq<Pair>) {
    forall i :: 0 <= i < |pairs| ==> CleanKey(pairs[i].0) && '{' !in pairs[i].1
  }

  lemma {:induction false} NoNestingPrefix(s: string, n: nat)
    requires NoNesting(s) && n <= |s|
    ensures NoNesting(s[..n])
    decreases n
  {
    if n > 0 {
      var t := s[..n];
      NoNestingPrefix(s[1..], n - 1);
      assert t[1..] == s[1..][..n - 1];
      var j := FirstAt(t, '}');
      if t[0] == '{' && j < |t| {
        assert s[..j] == t[..j];
        FirstAtIs(s, '}', j);
        assert t[1..j] == s[1..j];
      }
    }
  }

  ghost predicate Occurs(pattern: string, s: string) {
    exists i :: 0 <= i <= |s| && pattern <= s[i..]
  }

  lemma {:induction false} ReplaceAbsent(s: string, pattern: string, value: string)
    requires pattern != [] && !Occurs(pattern, s)
    ensures Replace(s, pattern, value) == s
    decreases |s|
  {
    if |s| >= |pattern| {
      assert s[0..] == s;
      forall i | 0 <= i <= |s[1..]|
        ensures !(pattern <= s[1..][i..])
      {
        assert s[1..][i..] == s[i + 1..];
      }
      ReplaceAbsent(s[1..], pattern, value);
    }
  }

  lemma PartNoNesting(s: string, i: nat, part: string)
    requires NoNesting(s) && i <= |s| && part <= s[i..]
    ensures NoNesting(part)
  {
    NoNestingSuffix(s, i);
    NoNestingPrefix(s[i..], |part|);
    assert s[i..][..|part|] == part;
  }

  /** A nested placeholder occurs in no unnested template. */
  lemma NestedKeyAbsent(s: string, key: string)
    requires NoNesting(s) && !NoNesting(Hole(key))
    ensures !Occurs(Hole(key), s)
  {
    forall i | 0 <= i <= |s|
      ensures !(Hole(key) <= s[i..])
    {
      if Hole(key) <= s[i..] {
        PartNoNesting(s, i, Hole(key));
      }
    }
  }

  /** Unnested templates name only brace-free keys, so other entries do not count. */
  lemma {:induction false} BracedKeyIgnored(s: string, m: map<string, string>, key: string, value: string)
    requires NoNesting(s) && !BraceFree(key)
    ensures Substitute(s, m[key := value]) == Substitute(s, m)
    decreases |s|
  {
    if s == [] {
    } else if s[0] == '{' && '}' in s {
      var name, t := SplitHole(s);
      SubstituteHole(name, t, m);
      SubstituteHole(name, t, m[key := value]);
      BracedKeyIgnored(t, m, key, value);
    } else {
      BracedKeyIgnored(s[1..], m, key, value);
    }
  }

  lemma BraceFreeHole(key: string)
    requires BraceFree(key)
    ensures NoNesting(Hole(key))
  {
    NoNestingHole(key, "");
    assert Hole(key) + "" == Hole(key);
  }

  /**
   * The loop equals simultaneous substitution, for templates without nested braces, clean keys and
   * values without an opening brace. Repeated keys are allowed; the first one counts.
   */
  lemma {:induction false} SequentialIsSimultaneous(s: string, pairs: seq<Pair>)
    requires NoNesting(s) && CleanPairs(pairs)
    ensures Sequential(s, pairs) == Substitute(s, FirstWins(pairs))
    decreases pairs
  {
    if pairs == [] {
      SubstituteNothing(s);
    } else {
      var (key, value) := pairs[0];
      if NoNesting(Hole(key)) {
        ReplaceIsSubstitute(s, key, value);
        SubstituteKeepsNoNesting(s, key, value);
        SequentialIsSimultaneous(Substitute(s, map[key := value]), pairs[1..]);
        SubstituteTwice(s, key, value, FirstWins(pairs[1..]));
      } else {
        NestedKeyAbsent(s, key);
        ReplaceAbsent(s, Hole(key), value);
        SequentialIsSimultaneous(s, pairs[1..]);
        assert !BraceFree(key) by {
          if BraceFree(key) {
            BraceFreeHole(key);
          }
        }
        BracedKeyIgnored(s, FirstWins(pairs[1..]), key, value);
      }
    }
  }

  lemma {:induction false} SubstituteNothing(s: string)
    ensures Substitute(s, map[]) == s
    decreases |s|
  {
    if s != [] {
      SubstituteNothing(s[1..]);
    }
  }

  ghost predicate DistinctKeys(pairs: seq<Pair>) {
    forall i, j :: 0 <= i < j < |pairs| ==> pairs[i].0 != pairs[j].0
  }

  lemma {:induction false} FirstWinsMeaning(pairs: seq<Pair>, key: string)
    requires DistinctKeys(pairs)
    ensures key in FirstWins(pairs) <==> exists v :: (key, v) in pairs
    ensures forall v :: (key, v) in pairs ==> key in FirstWins(pairs) && FirstWins(pairs)[key] == v
  {
    if pairs != [] {
      FirstWinsMeaning(pairs[1..], key);
      assert pairs == [pairs[0]] + pairs[1..];
      if key == pairs[0].0 {
        assert (key, pairs[0].1) in pairs;
        forall v | (key, v) in pairs
          ensures v == pairs[0].1
        {
          var i :| 0 <= i < |pairs| && pairs[i] == (key, v);
        }
      } else {
        assert forall v :: (key, v) in pairs <==> (key, v) in pairs[1..];
      }
    }
  }

  /** The same pairs in two orders, no key twice. */
  ghost predicate Reordered(p: seq<Pair>, q: seq<Pair>) {
    DistinctKeys(p) && DistinctKeys(q) && multiset(p) == multiset(q)
  }

  /** With distinct keys the order of the pairs does not matter. */
  lemma OrderDoesNotMatter(s: string, p: seq<Pair>, q: seq<Pair>)
    requires NoNesting(s) && CleanPairs(p) && Reordered(p, q)
    ensures Sequential(s, p) == Sequential(s, q)
  {
    assert forall x :: x in p <==> x in multiset(p);
    assert forall x :: x in q <==> x in multiset(q);
    assert CleanPairs(q) by {
      forall i | 0 <= i < |q|
        ensures CleanKey(q[i].0) && '{' !in q[i].1
      {
        assert q[i] in p;
      }
    }
    forall key
      ensures key in FirstWins(p) <==> key in FirstWins(q)
      ensures key in FirstWins(p) ==> FirstWins(p)[key] == FirstWins(q)[key]
    {
      FirstWinsMeaning(p, key);
      FirstWinsMeaning(q, key);
    }
    assert FirstWins(p) == FirstWins(q);
    SequentialIsSimultaneous(s, p);
    SequentialIsSimultaneous(s, q);
  }

  // ---------- the conditions are exact ----------

  /** A text of `n` letters, without braces. */
  function Letters(n: nat): (s: string)
    ensures |s| == n && BraceFree(s)
    ensures forall i :: 0 <= i < n ==> s[i] == 'c'
  {
    seq(n, i => 'c')
  }

  lemma TwoOrders(s: string, p: Pair, q: Pair)
    requires p.0 != q.0
    requires |Replace(Replace(s, Hole(p.0), p.1), Hole(q.0), q.1)| != |Replace(Replace(s, Hole(q.0), q.1), Hole(p.0), p.1)|
    ensures Reordered([p, q], [q, p]) && Sequential(s, [p, q]) != Sequential(s, [q, p])
  {
    Loop2(s, p, q);
    Loop2(s, q, p);
    assert multiset([p, q]) == multiset{p, q} == multiset([q, p]);
  }

  lemma {:induction false} ReplaceLength(s: string, pattern: string, value: string)
    requires pattern != []
    ensures |value| == |pattern| ==> |Replace(s, pattern, value)| == |s|
    ensures |value| >= |pattern| ==> |Replace(s, pattern, value)| >= |s|
    ensures |value| <= |pattern| ==> |Replace(s, pattern, value)| <= |s|
    decreases |s|
  {
    if |s| < |pattern| {
    } else if pattern <= s {
      ReplaceLength(s[|pattern|..], pattern, value);
    } else {
      ReplaceLength(s[1..], pattern, value);
    }
  }

  lemma {:induction false} ReplacePresent(s: string, pattern: string, value: string)
    requires pattern != [] && Occurs(pattern, s)
    ensures |value| > |pattern| ==> |Replace(s, pattern, value)| > |s|
    ensures |value| < |pattern| ==> |Replace(s, pattern, value)| < |s|
    decreases |s|
  {
    var i :| 0 <= i <= |s| && pattern <= s[i..];
    if pattern <= s {
      ReplaceLength(s[|pattern|..], pattern, value);
    } else {
      assert s[0..] == s;
      assert s[1..][i - 1..] == s[i..];
      ReplacePresent(s[1..], pattern, value);
    }
  }

  /** A text that ends in a closing brace and is short enough cannot come from the letters put in. */
  lemma {:induction false} PrefixWasThere(w: string, t: string, pattern: string, n: nat)
    requires pattern != [] && w != [] && w[|w| - 1] == '}' && |w| <= n
    requires w <= Replace(t, pattern, Letters(n))
    ensures w <= t
    decreases |t|
  {
    var r := Replace(t, pattern, Letters(n));
    if |t| < |pattern| {
    } else if pattern <= t {
    } else {
      assert r[1..] == Replace(t[1..], pattern, Letters(n));
      if |w| > 1 {
        assert w[1..] <= r[1..];
        PrefixWasThere(w[1..], t[1..], pattern, n);
        assert w == [w[0]] + w[1..] && t == [t[0]] + t[1..];
      } else {
        assert w == [t[0]];
      }
    }
  }

  lemma PrefixTail(a: string, b: string)
    requires a != [] && a <= b
    ensures a[0] == b[0] && a[1..] <= b[1..]
  {
    assert b == a + b[|a|..];
    assert b[1..] == a[1..] + b[|a|..];
  }

  lemma HoleWasThere(s: string, key: string, n: nat)
    requires s != [] && n > |key| && Hole(key) <= [s[0]] + Replace(s[1..], Hole(key), Letters(n))
    ensures Hole(key) <= s
  {
    var rest := Replace(s[1..], Hole(key), Letters(n));
    PrefixTail(Hole(key), [s[0]] + rest);
    assert Hole(key)[1..] == key + "}" && ([s[0]] + rest)[1..] == rest;
    PrefixWasThere(key + "}", s[1..], Hole(key), n);
    assert s == [s[0]] + s[1..] && Hole(key) == [s[0]] + (key + "}");
  }

  lemma OccursAfterText(pattern: string, text: string, rest: string)
    requires pattern != [] && pattern[0] == '{' && '{' !in text && Occurs(pattern, text + rest)
    ensures Occurs(pattern, rest)
  {
    var s := text + rest;
    var i :| 0 <= i <= |s| && pattern <= s[i..];
    assert s[i] == pattern[0];
    assert s[i..] == rest[i - |text|..];
  }

  lemma OccursAfterOne(pattern: string, s: string)
    requires s != [] && Occurs(pattern, s) && !(pattern <= s)
    ensures Occurs(pattern, s[1..])
  {
    var i :| 0 <= i <= |s| && pattern <= s[i..];
    assert s[0..] == s;
    assert s[i..] == s[1..][i - 1..];
  }

  /** Replacing a placeholder by letters leaves no such placeholder, not even by accident. */
  lemma {:induction false} ReplaceRemovesAll(s: string, key: string, n: nat)
    requires n > |key|
    ensures !Occurs(Hole(key), Replace(s, Hole(key), Letters(n)))
    decreases |s|
  {
    var pattern := Hole(key);
    var r := Replace(s, pattern, Letters(n));
    if |s| < |pattern| {
    } else if pattern <= s {
      ReplaceRemovesAll(s[|pattern|..], key, n);
      if Occurs(pattern, r) {
        OccursAfterText(pattern, Letters(n), Replace(s[|pattern|..], pattern, Letters(n)));
      }
    } else {
      ReplaceRemovesAll(s[1..], key, n);
      if Occurs(pattern, r) {
        if pattern <= r {
          HoleWasThere(s, key, n);
        } else {
          OccursAfterOne(pattern, r);
        }
      }
    }
  }

  /** Where a template is nested: a placeholder whose name has an opening brace. */
  lemma {:induction false} NestedSpot(s: string) returns (i: nat, key: string)
    requires !NoNesting(s)
    ensures i <= |s| && Hole(key) <= s[i..] && '}' !in key && '{' in key
    decreases |s|
  {
    if !NoNesting(s[1..]) {
      i, key := NestedSpot(s[1..]);
      assert s[1..][i..] == s[i + 1..];
      i := i + 1;
    } else {
      var j := FirstAt(s, '}');
      i, key := 0, s[1..j];
      NameThere(s, j);
      assert s[0..] == s;
      assert forall x :: 0 <= x < |key| ==> key[x] == s[..j][x + 1];
    }
  }

  lemma InnerOccurs(outer: string, inner: string, before: string, s: string)
    requires outer == before + inner && Occurs(outer, s)
    ensures Occurs(inner, s)
  {
    var i :| 0 <= i <= |s| && outer <= s[i..];
    assert s[i + |before|..] == s[i..][|before|..];
    assert inner == outer[|before|..];
  }

  /** In a nested template the inner placeholder's key and the outer one's do not commute. */
  lemma NestingShows(s: string) returns (p: seq<Pair>, q: seq<Pair>)
    requires !NoNesting(s)
    ensures CleanPairs(p) && Reordered(p, q) && Sequential(s, p) != Sequential(s, q)
  {
    var i, key := NestedSpot(s);
    var b := FirstAt(key, '{');
    var inner := key[b + 1..];
    assert '}' !in inner by {
      assert forall x :: 0 <= x < |inner| ==> inner[x] == key[x + b + 1];
    }
    var one: Pair, two: Pair := (inner, Letters(|inner| + 2)), (key, Letters(|key| + 3));
    assert Occurs(Hole(key), s);

    var s1 := Replace(s, Hole(inner), one.1);
    ReplaceLength(s, Hole(inner), one.1);
    ReplaceRemovesAll(s, inner, |inner| + 2);
    assert Hole(key) == ("{" + key[..b]) + Hole(inner) by {
      assert key == key[..b] + "{" + inner;
    }
    if Occurs(Hole(key), s1) {
      InnerOccurs(Hole(key), Hole(inner), "{" + key[..b], s1);
    }
    ReplaceAbsent(s1, Hole(key), two.1);

    ReplacePresent(s, Hole(key), two.1);
    ReplaceLength(Replace(s, Hole(key), two.1), Hole(inner), one.1);
    TwoOrders(s, one, two);
    p, q := [one, two], [two, one];
  }

  /** The templates for which the order of clean pairs never matters are exactly the unnested ones. */
  lemma TemplateExactly(s: string)
    ensures NoNesting(s) <==> forall p, q :: CleanPairs(p) && Reordered(p, q) ==> Sequential(s, p) == Sequential(s, q)
  {
    if NoNesting(s) {
      forall p, q | CleanPairs(p) && Reordered(p, q)
        ensures Sequential(s, p) == Sequential(s, q)
      {
        OrderDoesNotMatter(s, p, q);
      }
    } else {
      var p, q := NestingShows(s);
    }
  }

  /** Clean pairs, but that the value `v` is let through. */
  ghost predicate CleanButValue(pairs: seq<Pair>, v: string) {
    forall i :: 0 <= i < |pairs| ==> CleanKey(pairs[i].0) && ('{' !in pairs[i].1 || pairs[i].1 == v)
  }

  /** With a closing brace behind it, a value with an opening brace holds the placeholder of some key. */
  lemma ValueHole(v: string) returns (y: string)
    requires '{' in v
    ensures '}' !in y && Occurs(Hole(y), v + "}")
  {
    var b := FirstAt(v, '{');
    var t := (v + "}")[b..];
    assert t[|t| - 1] == '}' && t[0] == '{';
    var j := FirstAt(t, '}');
    y := t[1..j];
    NameThere(t, j);
    assert forall x :: 0 <= x < |y| ==> y[x] == t[..j][x + 1];
  }

  lemma ShorterKeyAbsent(k: string, y: string)
    requires BraceFree(k) && |y| < |k|
    ensures !Occurs(Hole(y), Hole(k) + "}")
  {
    var s := Hole(k) + "}";
    assert s[|y| + 1] == k[|y|] && Hole(y)[|y| + 1] == '}';
    forall i | 0 <= i <= |s|
      ensures !(Hole(y) <= s[i..])
    {
      assert s[0..] == s;
      if 0 < i < |s| {
        assert s[i..][0] == s[i] != '{' == Hole(y)[0];
      }
    }
  }

  /** A value with an opening brace can bring a placeholder in, which another pair fills or not. */
  lemma BracedValueShows(v: string) returns (s: string, p: seq<Pair>, q: seq<Pair>)
    requires '{' in v
    ensures NoNesting(s) && CleanButValue(p, v) && Reordered(p, q) && Sequential(s, p) != Sequential(s, q)
  {
    var y := ValueHole(v);
    var k := Letters(|y| + 1);
    s := Hole(k) + "}";
    UnnestedBefore(k);
    ReplaceHoleBefore(k, v);
    ReplacePresent(v + "}", Hole(y), "");
    ShorterKeyAbsent(k, y);
    ReplaceAbsent(s, Hole(y), "");
    TwoOrders(s, (k, v), (y, ""));
    p, q := [(k, v), (y, "")], [(y, ""), (k, v)];
  }

  lemma UnnestedBefore(k: string)
    requires BraceFree(k)
    ensures NoNesting(Hole(k) + "}")
  {
    NoNestingAfterText("}", "");
    assert "}" + "" == "}";
    NoNestingHole(k, "}");
  }

  lemma ReplaceHoleBefore(k: string, v: string)
    ensures Replace(Hole(k) + "}", Hole(k), v) == v + "}"
  {
    var s := Hole(k) + "}";
    assert Hole(k) <= s && s[|Hole(k)|..] == "}";
  }

  /** The values that never make the order matter are exactly those without an opening brace. */
  lemma ValueExactly(v: string)
    ensures '{' !in v <==>
      forall s, p, q :: NoNesting(s) && CleanButValue(p, v) && Reordered(p, q) ==> Sequential(s, p) == Sequential(s, q)
  {
    if '{' !in v {
      forall s, p, q | NoNesting(s) && CleanButValue(p, v) && Reordered(p, q)
        ensures Sequential(s, p) == Sequential(s, q)
      {
        OrderDoesNotMatter(s, p, q);
      }
    } else {
      var s, p, q := BracedValueShows(v);
    }
  }

  /** Clean pairs, but that the key `k` is let through. */
  ghost predicate CleanButKey(pairs: seq<Pair>, k: string) {
    forall i :: 0 <= i < |pairs| ==> (CleanKey(pairs[i].0) || pairs[i].0 == k) && '{' !in pairs[i].1
  }

  lemma {:induction false} ReplaceAfterText(v: string, t: string, pattern: string, value: string)
    requires pattern != [] && pattern[0] == '{' && '{' !in v
    ensures Replace(v + t, pattern, value) == v + Replace(t, pattern, value)
    decreases |v|
  {
    if v == [] {
      assert v + t == t;
    } else {
      assert (v + t)[1..] == v[1..] + t;
      ReplaceAfterText(v[1..], t, pattern, value);
      if |v + t| >= |pattern| {
        assert v + Replace(t, pattern, value) == [v[0]] + (v[1..] + Replace(t, pattern, value));
      }
    }
  }

  /** A key with a closing brace competes with the key that ends there. */
  lemma ClosedKeyShows(k: string) returns (s: string, p: seq<Pair>, q: seq<Pair>)
    requires !CleanKey(k)
    ensures NoNesting(s) && CleanButKey(p, k) && Reordered(p, q) && Sequential(s, p) != Sequential(s, q)
  {
    s := Hole(k);
    var j := FirstAt(k, '}');
    var u, t := k[..j], k[j + 1..] + "}";
    assert s == Hole(u) + t;
    var one: Pair, two: Pair := (k, ""), (u, "c");

    assert s[|s|..] == "" && Replace(s, s, "") == "" + Replace("", s, "");
    assert Replace("", Hole(u), "c") == "";

    var rest := Replace(t, Hole(u), "c");
    assert Hole(u) <= s && s[|Hole(u)|..] == t;
    assert Replace(s, Hole(u), "c") == "c" + rest;
    ReplaceAfterText("c", rest, Hole(k), "");
    TwoOrders(s, one, two);
    p, q := [one, two], [two, one];
  }

  /** The keys that never make the order matter are exactly the clean ones. */
  lemma KeyExactly(k: string)
    ensures CleanKey(k) <==>
      forall s, p, q :: NoNesting(s) && CleanButKey(p, k) && Reordered(p, q) ==> Sequential(s, p) == Sequential(s, q)
  {
    if CleanKey(k) {
      forall s, p, q | NoNesting(s) && CleanButKey(p, k) && Reordered(p, q)
        ensures Sequential(s, p) == Sequential(s, q)
      {
        OrderDoesNotMatter(s, p, q);
      }
    } else {
      var s, p, q := ClosedKeyShows(k);
    }
  }

  /** A small nested template. */
  lemma NestingBreaksIt()
    ensures Sequential("{a{b}c}", [("b", ""), ("ac", "x")]) != Sequential("{a{b}c}", [("ac", "x"), ("b", "")])
  {
    var s, b, ac := "{a{b}c}", Hole("b"), Hole("ac");
    assert b == "{b}" && ac == "{ac}";
    assert Replace(s, b, "") == "{ac}" by {
      assert s[1..] == "a{b}c}" && s[1..][1..] == "{b}c}" && s[1..][1..][3..] == "c}";
      assert Replace("{b}c}", b, "") == "" + Replace("c}", b, "");
      assert Replace("a{b}c}", b, "") == ['a'] + Replace("{b}c}", b, "");
    }
    assert "{ac}"[4..] == "";
    assert Replace("{ac}", ac, "x") == "x" + Replace("", ac, "x");
    Loop2(s, ("b", ""), ("ac", "x"));
    assert Replace(s, ac, "x") == s by {
      assert s[1..] == "a{b}c}" && s[1..][1..] == "{b}c}" && s[1..][1..][1..] == "b}c}" && s[1..][1..][1..][1..] == "}c}";
      assert Replace("b}c}", ac, "x") == ['b'] + Replace("}c}", ac, "x");
      assert Replace("{b}c}", ac, "x") == ['{'] + Replace("b}c}", ac, "x");
      assert Replace("a{b}c}", ac, "x") == ['a'] + Replace("{b}c}", ac, "x");
    }
    Loop2(s, ("ac", "x"), ("b", ""));
  }

  /** A small value with a placeholder. */
  lemma BracedValuesBreakIt()
    ensures Sequential("{a}", [("a", "{b}"), ("b", "x")]) != Sequential("{a}", [("b", "x"), ("a", "{b}")])
  {
    var t, a, b := "{a}", Hole("a"), Hole("b");
    assert a == t && b == "{b}" && t[3..] == "" && "{b}"[3..] == "";
    assert Replace(t, a, "{b}") == "{b}" + Replace("", a, "{b}");
    assert Replace("{b}", b, "x") == "x" + Replace("", b, "x");
    Loop2(t, ("a", "{b}"), ("b", "x"));
    assert t[1] != b[1];
    assert t[1..] == "a}" && Replace("a}", b, "x") == "a}";
    assert Replace(t, b, "x") == ['{'] + Replace(t[1..], b, "x");
    Loop2(t, ("b", "x"), ("a", "{b}"));
  }

  lemma Loop2(s: string, p: Pair, q: Pair)
    ensures Sequential(s, [p, q]) == Replace(Replace(s, Hole(p.0), p.1), Hole(q.0), q.1)
  {
    assert [p, q][1..] == [q] && [q][1..] == [];
    var x := Replace(s, Hole(p.0), p.1);
    assert Sequential(x, [q]) == Sequential(Replace(x, Hole(q.0), q.1), [q][1..]);
  }

  /** Every opening brace starts a placeholder that has a value. */
  predicate AllFilled(s: string, m: map<string, string>)
    decreases |s|
  {
    s == [] ||
    if s[0] != '{' then AllFilled(s[1..], m)
    else
      var j := FirstAt(s, '}');
      j < |s| && s[1..j] in m && AllFilled(s[j + 1..], m)
  }

  /** An opening brace is left over exactly when some placeholder has no value. */
  lemma {:induction false} LeftoverBrace(s: string, m: map<string, string>)
    requires forall k :: k in m ==> '{' !in m[k]
    ensures '{' in Substitute(s, m) <==> !AllFilled(s, m)
    decreases |s|
  {
    if s != [] {
      var j := FirstAt(s, '}');
      if s[0] == '{' && j < |s| && s[1..j] in m {
        LeftoverBrace(s[j + 1..], m);
      } else if s[0] != '{' {
        LeftoverBrace(s[1..], m);
      }
    }
  }
}
