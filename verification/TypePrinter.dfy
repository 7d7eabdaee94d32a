/** The DAL generator's type printer (`GetTypeName`), and a parser that shows it unambiguous. */
module TypePrinter {
  import opened Collections

  /** Reflected types: a simple name, an array of some rank, a by-ref, or a generic with its arguments. */
  datatype Type =
    | Simple(name: string)
    | Array(element: Type, rank: nat)
    | ByRef(target: Type)
    | Generic(name: string, args: seq<Type>)

  function Keyword(name: string): string {
    match name
    case "Decimal" => "decimal"
    case "Byte" => "byte"
    case "Int16" => "short"
    case "Int32" => "int"
    case "Int64" => "long"
    case "UInt16" => "ushort"
    case "UInt32" => "uint"
    case "UInt64" => "ulong"
    case "Boolean" => "bool"
    case "String" => "string"
    case "Void" => "void"
    case _ => name
  }

  /** The inverse of `Keyword` on what it emits. */
  function Unkeyword(word: string): string {
    match word
    case "decimal" => "Decimal"
    case "byte" => "Byte"
    case "short" => "Int16"
    case "int" => "Int32"
    case "long" => "Int64"
    case "ushort" => "UInt16"
    case "uint" => "UInt32"
    case "ulong" => "UInt64"
    case "bool" => "Boolean"
    case "string" => "String"
    case "void" => "Void"
    case _ => word
  }

  predicate IsNullable(name: string, args: seq<Type>) {
    name == "Nullable" && |args| == 1
  }

  function GetTypeName(t: Type): string
    decreases t, 1
  {
    match t
    case Array(e, _) => GetTypeName(e) + "[]"
    case ByRef(e) => GetTypeName(e)
    case Generic(name, args) =>
      if IsNullable(name, args) then GetTypeName(args[0]) + "?" else name + "<" + ArgNames(args) + ">"
    case Simple(name) => Keyword(name)
  }

  function ArgNames(args: seq<Type>): string
    decreases args, 0
  {
    if args == [] then ""
    else if |args| == 1 then GetTypeName(args[0])
    else GetTypeName(args[0]) + "," + ArgNames(args[1..])
  }

  // ---------- the types in question ----------

  predicate Punctuation(ch: char) {
    ch in "<>,[]?"
  }

  predicate CleanName(name: string) {
    name != [] && forall i | 0 <= i < |name| :: !Punctuation(name[i])
  }

  /** Any nesting of arrays, by-refs and generics over clean names. */
  ghost predicate Printable(t: Type) {
    match t
    case Simple(name) => CleanName(name)
    case Array(e, _) => Printable(e)
    case ByRef(e) => Printable(e)
    case Generic(name, args) => CleanName(name) && forall i :: 0 <= i < |args| ==> Printable(args[i])
  }

  /** What the printed text shows of a type: no by-refs, no array ranks, keywords as their types. */
  function Normal(t: Type): Type
    decreases t, 1
  {
    match t
    case Simple(name) => Simple(Unkeyword(name))
    case Array(e, _) => Array(Normal(e), 1)
    case ByRef(e) => Normal(e)
    case Generic(name, args) => Generic(name, NormalAll(args))
  }

  function NormalAll(args: seq<Type>): (r: seq<Type>)
    ensures |r| == |args|
    decreases args, 0
  {
    if args == [] then [] else [Normal(args[0])] + NormalAll(args[1..])
  }

  // ---------- the parser ----------

  function NameLength(s: string): (n: nat)
    ensures n <= |s|
  {
    if s == [] || Punctuation(s[0]) then 0 else 1 + NameLength(s[1..])
  }

  /** Any number of array and nullable marks after a type. */
  function Suffixes(t: Type, s: string): (r: (Type, string))
    ensures |r.1| <= |s|
    decreases |s|
  {
    if |s| >= 2 && s[0] == '[' && s[1] == ']' then Suffixes(Array(t, 1), s[2..])
    else if |s| >= 1 && s[0] == '?' then Suffixes(Generic("Nullable", [t]), s[1..])
    else (t, s)
  }

  function ParseType(s: string): (r: Option<(Type, string)>)
    ensures r.Some? ==> |r.value.1| < |s|
    decreases |s|, 0
  {
    var n := NameLength(s);
    if n == 0 then None
    else
      var name, rest := s[..n], s[n..];
      if rest == [] || rest[0] != '<' then Some(Suffixes(Simple(Unkeyword(name)), rest))
      else if |rest| > 1 && rest[1] == '>' then Some(Suffixes(Generic(name, []), rest[2..]))
      else
        match ParseArgs(rest[1..])
        case None => None
        case Some((args, after)) => Some(Suffixes(Generic(name, args), after))
  }

  function ParseArgs(s: string): (r: Option<(seq<Type>, string)>)
    ensures r.Some? ==> |r.value.1| < |s|
    decreases |s|, 1
  {
    match ParseType(s)
    case None => None
    case Some((t, rest)) =>
      if rest == [] then None
      else if rest[0] == '>' then Some(([t], rest[1..]))
      else if rest[0] == ',' then
        match ParseArgs(rest[1..])
        case None => None
        case Some((ts, after)) => Some(([t] + ts, after))
      else None
  }

  // ---------- the round trip ----------

  lemma {:induction false} NameLengthIs(name: string, r: string)
    requires (forall i :: 0 <= i < |name| ==> !Punctuation(name[i])) && (r == [] || Punctuation(r[0]))
    ensures NameLength(name + r) == |name|
    ensures (name + r)[..|name|] == name && (name + r)[|name|..] == r
  {
    if name == [] {
      assert name + r == r;
    } else {
      assert (name + r)[1..] == name[1..] + r;
      NameLengthIs(name[1..], r);
    }
  }

  lemma EmittedClean()
    ensures CleanName("decimal") && CleanName("byte") && CleanName("short") && CleanName("int")
    ensures CleanName("long") && CleanName("ushort") && CleanName("uint") && CleanName("ulong")
    ensures CleanName("bool") && CleanName("string") && CleanName("void")
  {
  }

  lemma KeywordClean(name: string)
    requires CleanName(name)
    ensures CleanName(Keyword(name))
  {
    EmittedClean();
  }

  lemma KeywordRoundTrip(name: string)
    ensures Unkeyword(Keyword(name)) == Unkeyword(name)
    ensures Keyword(Unkeyword(name)) == Keyword(name)
  {
  }

  /** What may follow a printed type: nothing, or punctuation other than '<'. */
  predicate Follows(r: string) {
    r == [] || (Punctuation(r[0]) && r[0] != '<')
  }

  lemma {:induction false} StartsWithName(t: Type)
    requires Printable(t)
    ensures GetTypeName(t) != [] && !Punctuation(GetTypeName(t)[0])
    decreases t
  {
    match t
    case Simple(name) => KeywordClean(name);
    case Array(e, _) => StartsWithName(e);
    case ByRef(e) => StartsWithName(e);
    case Generic(name, args) =>
      if IsNullable(name, args) {
        StartsWithName(args[0]);
      } else {
        assert GetTypeName(t)[0] == name[0];
      }
  }

  lemma {:induction false} ParsePrinted(t: Type, r: string)
    requires Printable(t) && Follows(r)
    ensures ParseType(GetTypeName(t) + r) == Some(Suffixes(Normal(t), r))
    decreases t, 1
  {
    match t
    case Simple(name) =>
      KeywordClean(name);
      KeywordRoundTrip(name);
      NameLengthIs(Keyword(name), r);
    case Array(e, _) =>
      ParsePrinted(e, "[]" + r);
      assert GetTypeName(e) + "[]" + r == GetTypeName(e) + ("[]" + r);
      assert ("[]" + r)[2..] == r;
    case ByRef(e) =>
      ParsePrinted(e, r);
    case Generic(name, args) =>
      if IsNullable(name, args) {
        ParsePrinted(args[0], "?" + r);
        assert GetTypeName(args[0]) + "?" + r == GetTypeName(args[0]) + ("?" + r);
        assert ("?" + r)[1..] == r;
        assert args[1..] == [] && NormalAll(args) == [Normal(args[0])];
      } else {
        ParseGeneric(name, args, r);
      }
  }

  lemma {:induction false} ParseGeneric(name: string, args: seq<Type>, r: string)
    requires CleanName(name) && (forall i :: 0 <= i < |args| ==> Printable(args[i]))
    ensures ParseType(name + "<" + ArgNames(args) + ">" + r) == Some(Suffixes(Generic(name, NormalAll(args)), r))
    decreases args, 1
  {
    var rest := "<" + ArgNames(args) + ">" + r;
    Regroup(name, "<", ArgNames(args), ">", r);
    assert rest == "<" + (ArgNames(args) + ">" + r);
    NameLengthIs(name, rest);
    if args == [] {
      assert rest == "<>" + r && rest[2..] == r;
    } else {
      assert rest[1..] == ArgNames(args) + ">" + r;
      StartsWithName(args[0]);
      assert rest[1] == GetTypeName(args[0])[0];
      ParsePrintedArgs(args, r);
    }
  }

  lemma {:induction false} ParsePrintedArgs(args: seq<Type>, r: string)
    requires args != [] && (forall i :: 0 <= i < |args| ==> Printable(args[i]))
    ensures ParseArgs(ArgNames(args) + ">" + r) == Some((NormalAll(args), r))
    decreases args, 0
  {
    var t := args[0];
    if |args| == 1 {
      ParsePrinted(t, ">" + r);
      assert ArgNames(args) + ">" + r == GetTypeName(t) + (">" + r);
      LastArg(GetTypeName(t) + (">" + r), Normal(t), r);
      assert args[1..] == [] && NormalAll(args) == [Normal(t)];
    } else {
      var more := ArgNames(args[1..]) + ">" + r;
      ParsePrinted(t, "," + more);
      Regroup(GetTypeName(t), ",", ArgNames(args[1..]), ">", r);
      ParsePrintedArgs(args[1..], r);
      NextArg(GetTypeName(t) + ("," + more), Normal(t), more, NormalAll(args[1..]), r);
    }
  }

  lemma Regroup(a: string, b: string, c: string, d: string, e: string)
    ensures (a + b + c) + d + e == a + (b + (c + d + e))
  {
  }

  lemma LastArg(s: string, t: Type, r: string)
    requires ParseType(s) == Some((t, ">" + r))
    ensures ParseArgs(s) == Some(([t], r))
  {
    assert (">" + r)[1..] == r;
  }

  lemma NextArg(s: string, t: Type, more: string, ts: seq<Type>, r: string)
    requires ParseType(s) == Some((t, "," + more)) && ParseArgs(more) == Some((ts, r))
    ensures ParseArgs(s) == Some(([t] + ts, r))
  {
    assert ("," + more)[1..] == more;
  }

  /** The parser recovers every printable type from its printed name, up to what the text does not show. */
  lemma PrintParseRoundTrip(t: Type)
    requires Printable(t)
    ensures ParseType(GetTypeName(t)) == Some((Normal(t), ""))
  {
    ParsePrinted(t, "");
    assert GetTypeName(t) + "" == GetTypeName(t);
  }

  lemma {:induction false} NormalPrintsAlike(t: Type)
    ensures GetTypeName(Normal(t)) == GetTypeName(t)
    decreases t, 1
  {
    match t
    case Simple(name) => KeywordRoundTrip(name);
    case Array(e, _) => NormalPrintsAlike(e);
    case ByRef(e) => NormalPrintsAlike(e);
    case Generic(name, args) =>
      if IsNullable(name, args) {
        NormalPrintsAlike(args[0]);
      } else {
        NormalAllPrintsAlike(args);
      }
  }

  lemma {:induction false} NormalAllPrintsAlike(args: seq<Type>)
    ensures ArgNames(NormalAll(args)) == ArgNames(args)
    decreases args, 0
  {
    if args != [] {
      NormalPrintsAlike(args[0]);
      NormalAllPrintsAlike(args[1..]);
      assert NormalAll(args)[1..] == NormalAll(args[1..]);
    }
  }

  /**
   * Two printable types print alike if and only if they differ at most in by-refs, in array ranks
   * and in whether a simple name is a type or the keyword printed for it.
   */
  lemma PrintsAlikeExactly(t: Type, u: Type)
    requires Printable(t) && Printable(u)
    ensures GetTypeName(t) == GetTypeName(u) <==> Normal(t) == Normal(u)
  {
    PrintParseRoundTrip(t);
    PrintParseRoundTrip(u);
    NormalPrintsAlike(t);
    NormalPrintsAlike(u);
  }

  // ---------- the types the generator meets ----------

  /** Rank-one arrays, and simple names that are not keywords the printer emits. */
  ghost predicate WellFormed(t: Type) {
    match t
    case Simple(name) => CleanName(name) && Unkeyword(name) == name
    case Array(e, rank) => rank == 1 && WellFormed(e)
    case ByRef(e) => WellFormed(e)
    case Generic(name, args) => CleanName(name) && forall i :: 0 <= i < |args| ==> WellFormed(args[i])
  }

  /** The type without its by-refs. */
  function Strip(t: Type): Type
    decreases t, 1
  {
    match t
    case Simple(_) => t
    case Array(e, rank) => Array(Strip(e), rank)
    case ByRef(e) => Strip(e)
    case Generic(name, args) => Generic(name, StripAll(args))
  }

  function StripAll(args: seq<Type>): (r: seq<Type>)
    ensures |r| == |args|
    decreases args, 0
  {
    if args == [] then [] else [Strip(args[0])] + StripAll(args[1..])
  }

  lemma {:induction false} WellFormedIsNormal(t: Type)
    requires WellFormed(t)
    ensures Printable(t) && Normal(t) == Strip(t)
    decreases t, 1
  {
    match t
    case Simple(_) =>
    case Array(e, _) => WellFormedIsNormal(e);
    case ByRef(e) => WellFormedIsNormal(e);
    case Generic(_, args) => WellFormedAreNormal(args);
  }

  lemma {:induction false} WellFormedAreNormal(args: seq<Type>)
    requires forall i :: 0 <= i < |args| ==> WellFormed(args[i])
    ensures NormalAll(args) == StripAll(args)
    ensures forall i :: 0 <= i < |args| ==> Printable(args[i])
    decreases args, 0
  {
    if args != [] {
      WellFormedIsNormal(args[0]);
      WellFormedAreNormal(args[1..]);
      assert forall i :: 1 <= i < |args| ==> args[i] == args[1..][i - 1];
    }
  }

  /** Two well-formed types print alike exactly when they are equal up to by-refs. */
  lemma PrintsAlikeOnlyIfSame(t: Type, u: Type)
    requires WellFormed(t) && WellFormed(u)
    ensures GetTypeName(t) == GetTypeName(u) <==> Strip(t) == Strip(u)
  {
    WellFormedIsNormal(t);
    WellFormedIsNormal(u);
    PrintsAlikeExactly(t, u);
  }

  /** Outside those types the printer is ambiguous: array ranks and keyword names are lost. */
  lemma AmbiguousOtherwise(e: Type, rank: nat)
    ensures GetTypeName(Array(e, rank)) == GetTypeName(Array(e, 1))
    ensures GetTypeName(Simple("int")) == GetTypeName(Simple("Int32"))
  {
  }
}
