/** `ContentBlock.ToClient`: substitution in place, row formatting and grouping by block. */
module ContentBlock {
  import opened Collections
  import opened Placeholders

  /** The unchanging part of a section template row; `rows` are its value rows. */
  datatype Info = Info(
    blockName: string, blockType: string, sectionName: string, sectionType: string, description: string,
    variationID: int, multirowPrefix: Option<string>, multirowSuffix: Option<string>, multirowDelimiter: Option<string>,
    headerDefault: Option<string>, bodyDefault: Option<string>, rows: seq<seq<string>>)

  datatype Template = Template(info: Info, header: Option<string>, body: Option<string>)

  class SectionTemplate {
    const info: Info
    var header: Option<string>
    var body: Option<string>

    function Value(): Template
      reads this
    {
      Template(info, header, body)
    }

    constructor (t: Template)
      ensures Value() == t
    {
      info, header, body := t.info, t.header, t.body;
    }
  }

  function Values(templates: seq<SectionTemplate>): (r: seq<Template>)
    reads templates
    ensures |r| == |templates| && forall i :: 0 <= i < |r| ==> r[i] == templates[i].Value()
  {
    seq(|templates|, i requires 0 <= i < |templates| reads templates => templates[i].Value())
  }

  datatype Section = Section(
    sectionName: string, description: string, sectionType: string, blockType: string, variationID: int,
    header: Option<string>, body: string)

  datatype Block = Block(blockName: string, blockType: string, sections: seq<Section>)

  /** A value row that does not fit its template (`FormatException`, rethrown with details). */
  datatype FormatError = FormatError(template: Template)

  /** `String.Format` on one row; `None` when it throws. */
  type Formatter = (string, seq<string>) -> Option<string>

  // ---------- substitution ----------

  function Filled(text: Option<string>, pairs: Option<seq<Pair>>): Option<string> {
    if text.None? || pairs.None? then text else Some(Sequential(text.value, pairs.value))
  }

  function FilledTemplate(t: Template, pairs: Option<seq<Pair>>): Template {
    t.(header := Filled(t.header, pairs), body := Filled(t.body, pairs))
  }

  method ReplaceAll(text: string, pairs: seq<Pair>) returns (r: string)
    ensures r == Sequential(text, pairs)
  {
    r := text;
    assert pairs[0..] == pairs;
    for i := 0 to |pairs|
      invariant Sequential(r, pairs[i..]) == Sequential(text, pairs)
    {
      assert pairs[i..][1..] == pairs[i + 1..];
      r := Replace(r, Hole(pairs[i].0), pairs[i].1);
    }
  }

  lemma {:induction false} SequentialEmpty(pairs: seq<Pair>)
    ensures Sequential("", pairs) == ""
  {
    if pairs != [] {
      SequentialEmpty(pairs[1..]);
    }
  }

  method ReplaceKeyValuePairs(t: SectionTemplate, pairs: Option<seq<Pair>>)
    modifies t
    ensures t.Value() == FilledTemplate(old(t.Value()), pairs)
  {
    if pairs.Some? {
      SequentialEmpty(pairs.value);
      if t.header.Some? && t.header.value != "" {
        var h := ReplaceAll(t.header.value, pairs.value);
        t.header := Some(h);
      }
      if t.body.Some? && t.body.value != "" {
        var b := ReplaceAll(t.body.value, pairs.value);
        t.body := Some(b);
      }
    }
  }

  // ---------- one section ----------

  /** Text without value rows: the default if a brace is left, else the text itself. */
  function Fallback(text: string, default_: Option<string>): string {
    if '{' in text then (if default_.Some? then default_.value else "") else text
  }

  function HeaderOf(t: Template, format: Formatter): Result<Option<string>, FormatError> {
    if t.header.None? then Success(None)
    else if t.info.rows == [] then Success(Some(Fallback(t.header.value, t.info.headerDefault)))
    else match format(t.header.value, t.info.rows[0])
      case None => Failure(FormatError(t))
      case Some(h) => Success(Some(h))
  }

  /** The text around the rows; each row overwrites it, so the last row decides. */
  datatype Frame = Frame(prefix: string, suffix: string, delimiter: string)

  function Around(text: Option<string>, row: seq<string>, current: string, format: Formatter): Option<string> {
    if text.None? || text.value == "" then Some(current) else format(text.value, row)
  }

  function RowFrame(info: Info, row: seq<string>, f: Frame, format: Formatter): Option<Frame> {
    var p := Around(info.multirowPrefix, row, f.prefix, format);
    var s := Around(info.multirowSuffix, row, f.suffix, format);
    var d := Around(info.multirowDelimiter, row, f.delimiter, format);
    if p.None? || s.None? || d.None? then None else Some(Frame(p.value, s.value, d.value))
  }

  function RowsOf(text: string, info: Info, rows: seq<seq<string>>, f: Frame, format: Formatter): Option<(seq<string>, Frame)>
    decreases rows
  {
    if rows == [] then Some(([], f))
    else
      var line := format(text, rows[0]);
      var f' := RowFrame(info, rows[0], f, format);
      if line.None? || f'.None? then None
      else
        match RowsOf(text, info, rows[1..], f'.value, format)
        case None => None
        case Some((lines, end)) => Some(([line.value] + lines, end))
  }

  function Join(delimiter: string, parts: seq<string>): string {
    if parts == [] then ""
    else if |parts| == 1 then parts[0]
    else parts[0] + delimiter + Join(delimiter, parts[1..])
  }

  const NO_FRAME := Frame("", "", "")

  function BodyOf(t: Template, format: Formatter): Result<string, FormatError> {
    if t.body.None? then Success("")
    else if t.info.rows == [] then Success(Fallback(t.body.value, t.info.bodyDefault))
    else match RowsOf(t.body.value, t.info, t.info.rows, NO_FRAME, format)
      case None => Failure(FormatError(t))
      case Some((lines, f)) => Success(f.prefix + Join(f.delimiter, lines) + f.suffix)
  }

  function SectionOf(t: Template, format: Formatter): Result<Section, FormatError> {
    match (HeaderOf(t, format), BodyOf(t, format))
    case (Failure(e), _) => Failure(e)
    case (_, Failure(e)) => Failure(e)
    case (Success(h), Success(b)) =>
      Success(Section(t.info.sectionName, t.info.description, t.info.sectionType, t.info.blockType, t.info.variationID, h, b))
  }

  ghost function After(lines: seq<string>, rest: Option<(seq<string>, Frame)>): Option<(seq<string>, Frame)> {
    match rest
    case None => None
    case Some((more, end)) => Some((lines + more, end))
  }

  lemma AfterNothing(rest: Option<(seq<string>, Frame)>)
    ensures After([], rest) == rest
  {
    assert rest.Some? ==> [] + rest.value.0 == rest.value.0;
  }

  lemma AfterOne(lines: seq<string>, line: string, rest: Option<(seq<string>, Frame)>)
    ensures After(lines, After([line], rest)) == After(lines + [line], rest)
  {
    assert rest.Some? ==> lines + ([line] + rest.value.0) == lines + [line] + rest.value.0;
  }

  method RenderBody(t: SectionTemplate, format: Formatter) returns (r: Result<string, FormatError>)
    ensures r == BodyOf(t.Value(), format)
  {
    if t.body.None? {
      return Success("");
    }
    if t.info.rows == [] {
      return Success(Fallback(t.body.value, t.info.bodyDefault));
    }
    var rows, text := t.info.rows, t.body.value;
    var lines: seq<string>, f := [], NO_FRAME;
    assert rows[0..] == rows;
    AfterNothing(RowsOf(text, t.info, rows, NO_FRAME, format));
    for i := 0 to |rows|
      invariant RowsOf(text, t.info, rows, NO_FRAME, format) == After(lines, RowsOf(text, t.info, rows[i..], f, format))
    {
      assert rows[i..][1..] == rows[i + 1..];
      var line := format(text, rows[i]);
      var f' := RowFrame(t.info, rows[i], f, format);
      if line.None? || f'.None? {
        return Failure(FormatError(t.Value()));
      }
      AfterOne(lines, line.value, RowsOf(text, t.info, rows[i + 1..], f'.value, format));
      lines := lines + [line.value];
      f := f'.value;
    }
    assert rows[|rows|..] == [] && lines + [] == lines;
    r := Success(f.prefix + Join(f.delimiter, lines) + f.suffix);
  }

  // ---------- grouping ----------

  function Names(infos: seq<Info>): (r: seq<string>)
    ensures |r| == |infos| && forall i :: 0 <= i < |r| ==> r[i] == infos[i].blockName
  {
    seq(|infos|, i requires 0 <= i < |infos| => infos[i].blockName)
  }

  /** The sections whose template names the block, in template order. */
  function SectionsOf(name: string, infos: seq<Info>, sections: seq<Section>): seq<Section>
    requires |infos| == |sections|
  {
    if infos == [] then []
    else
      var n := |infos| - 1;
      SectionsOf(name, infos[..n], sections[..n]) + (if infos[n].blockName == name then [sections[n]] else [])
  }

  function TypeOf(name: string, infos: seq<Info>): string {
    if infos == [] then "" else if infos[0].blockName == name then infos[0].blockType else TypeOf(name, infos[1..])
  }

  /** One block per name, in order of first appearance, holding its sections in order. */
  function Grouped(infos: seq<Info>, sections: seq<Section>): (r: seq<Block>)
    requires |infos| == |sections|
    ensures var names := Distinct(Names(infos));
      |r| == |names| && forall i :: 0 <= i < |r| ==> r[i] == BlockOf(names[i], infos, sections)
  {
    var names := Distinct(Names(infos));
    seq(|names|, i requires 0 <= i < |names| => BlockOf(names[i], infos, sections))
  }

  /** The loop's step: append to the block of that name, or open it. */
  function AddSection(blocks: seq<Block>, info: Info, section: Section): seq<Block> {
    if blocks == [] then [Block(info.blockName, info.blockType, [section])]
    else if blocks[0].blockName == info.blockName then
      [blocks[0].(sections := blocks[0].sections + [section])] + blocks[1..]
    else [blocks[0]] + AddSection(blocks[1..], info, section)
  }

  function Extended(block: Block, name: string, section: Section): Block {
    if block.blockName == name then block.(sections := block.sections + [section]) else block
  }

  lemma {:induction false} TypeOfAppend(name: string, infos: seq<Info>, info: Info)
    ensures TypeOf(name, infos + [info]) ==
      if name in Names(infos) then TypeOf(name, infos)
      else if info.blockName == name then info.blockType else ""
  {
    if infos != [] {
      assert (infos + [info])[1..] == infos[1..] + [info];
      TypeOfAppend(name, infos[1..], info);
      assert Names(infos) == [infos[0].blockName] + Names(infos[1..]);
    } else {
      assert infos + [info] == [info];
    }
  }

  lemma {:induction false} SectionsOfAbsent(name: string, infos: seq<Info>, sections: seq<Section>)
    requires |infos| == |sections| && name !in Names(infos)
    ensures SectionsOf(name, infos, sections) == []
  {
    if infos != [] {
      var n := |infos| - 1;
      assert Names(infos)[n] == infos[n].blockName;
      assert Names(infos[..n]) == Names(infos)[..n];
      SectionsOfAbsent(name, infos[..n], sections[..n]);
    }
  }

  lemma SectionsOfAppend(name: string, infos: seq<Info>, sections: seq<Section>, info: Info, section: Section)
    requires |infos| == |sections|
    ensures SectionsOf(name, infos + [info], sections + [section]) ==
      SectionsOf(name, infos, sections) + (if info.blockName == name then [section] else [])
  {
    assert (infos + [info])[..|infos|] == infos && (sections + [section])[..|infos|] == sections;
  }

  lemma DistinctAppend(names: seq<string>, name: string)
    ensures Distinct(names + [name]) == if name in names then Distinct(names) else Distinct(names) + [name]
  {
    assert (names + [name])[..|names|] == names;
  }

  function BlockOf(name: string, infos: seq<Info>, sections: seq<Section>): Block
    requires |infos| == |sections|
  {
    Block(name, TypeOf(name, infos), SectionsOf(name, infos, sections))
  }

  lemma BlockOfAppend(name: string, infos: seq<Info>, sections: seq<Section>, info: Info, section: Section)
    requires |infos| == |sections| && (name in Names(infos) || name == info.blockName)
    ensures BlockOf(name, infos + [info], sections + [section]) ==
      if name in Names(infos) then Extended(BlockOf(name, infos, sections), info.blockName, section)
      else Block(name, info.blockType, [section])
  {
    SectionsOfAppend(name, infos, sections, info, section);
    TypeOfAppend(name, infos, info);
    if name !in Names(infos) {
      SectionsOfAbsent(name, infos, sections);
    } else if name != info.blockName {
      assert SectionsOf(name, infos, sections) + [] == SectionsOf(name, infos, sections);
    }
  }

  lemma NamesAppend(infos: seq<Info>, info: Info)
    ensures Names(infos + [info]) == Names(infos) + [info.blockName]
    ensures Distinct(Names(infos + [info])) ==
      if info.blockName in Names(infos) then Distinct(Names(infos)) else Distinct(Names(infos)) + [info.blockName]
  {
    assert Names(infos + [info]) == Names(infos) + [info.blockName];
    DistinctAppend(Names(infos), info.blockName);
  }

  lemma InDistinct(names: seq<string>, i: nat)
    requires i < |Distinct(names)|
    ensures Distinct(names)[i] in names
  {
    assert Distinct(names)[i] in Distinct(names);
  }

  lemma BlockKept(infos: seq<Info>, sections: seq<Section>, info: Info, section: Section, i: nat)
    requires |infos| == |sections| && i < |Distinct(Names(infos))|
    ensures i < |Grouped(infos + [info], sections + [section])|
    ensures Grouped(infos + [info], sections + [section])[i] ==
      Extended(Grouped(infos, sections)[i], info.blockName, section)
  {
    NamesAppend(infos, info);
    InDistinct(Names(infos), i);
    BlockOfAppend(Distinct(Names(infos))[i], infos, sections, info, section);
  }

  ghost predicate Extends(blocks: seq<Block>, blocks': seq<Block>, name: string, section: Section) {
    |blocks| <= |blocks'| && forall i :: 0 <= i < |blocks| ==> blocks'[i] == Extended(blocks[i], name, section)
  }

  ghost predicate DistinctNames(blocks: seq<Block>) {
    forall i, j :: 0 <= i < j < |blocks| ==> blocks[i].blockName != blocks[j].blockName
  }

  lemma {:induction false} AddPresent(blocks: seq<Block>, blocks': seq<Block>, info: Info, section: Section, i: nat)
    requires DistinctNames(blocks) && i < |blocks| && blocks[i].blockName == info.blockName
    requires Extends(blocks, blocks', info.blockName, section) && |blocks'| == |blocks|
    ensures AddSection(blocks, info, section) == blocks'
  {
    assert blocks' == [blocks'[0]] + blocks'[1..];
    if i == 0 {
      assert blocks'[1..] == blocks[1..];
    } else {
      AddPresent(blocks[1..], blocks'[1..], info, section, i - 1);
    }
  }

  lemma {:induction false} AddAbsent(blocks: seq<Block>, blocks': seq<Block>, info: Info, section: Section)
    requires forall i :: 0 <= i < |blocks| ==> blocks[i].blockName != info.blockName
    requires Extends(blocks, blocks', info.blockName, section) && |blocks'| == |blocks| + 1
    requires blocks'[|blocks|] == Block(info.blockName, info.blockType, [section])
    ensures AddSection(blocks, info, section) == blocks'
  {
    assert blocks' == [blocks'[0]] + blocks'[1..];
    if blocks != [] {
      AddAbsent(blocks[1..], blocks'[1..], info, section);
    }
  }

  lemma GroupedNames(infos: seq<Info>, sections: seq<Section>, name: string)
    requires |infos| == |sections|
    ensures DistinctNames(Grouped(infos, sections))
    ensures name !in Names(infos) ==>
      forall i :: 0 <= i < |Grouped(infos, sections)| ==> Grouped(infos, sections)[i].blockName != name
  {
    if name !in Names(infos) {
      forall i | 0 <= i < |Grouped(infos, sections)|
        ensures Grouped(infos, sections)[i].blockName != name
      {
        InDistinct(Names(infos), i);
      }
    }
  }

  /** Each step of the loop keeps the blocks grouped. */
  lemma AddSectionKeepsGrouped(infos: seq<Info>, sections: seq<Section>, info: Info, section: Section)
    requires |infos| == |sections|
    ensures AddSection(Grouped(infos, sections), info, section) == Grouped(infos + [info], sections + [section])
  {
    var blocks, blocks' := Grouped(infos, sections), Grouped(infos + [info], sections + [section]);
    NamesAppend(infos, info);
    GroupedNames(infos, sections, info.blockName);
    forall i | 0 <= i < |blocks|
      ensures blocks'[i] == Extended(blocks[i], info.blockName, section)
    {
      BlockKept(infos, sections, info, section, i);
    }
    if info.blockName in Names(infos) {
      var i :| 0 <= i < |Distinct(Names(infos))| && Distinct(Names(infos))[i] == info.blockName;
      AddPresent(blocks, blocks', info, section, i);
    } else {
      BlockOfAppend(info.blockName, infos, sections, info, section);
      AddAbsent(blocks, blocks', info, section);
    }
  }

  // ---------- what grouping achieves ----------

  /**
   * The block holds exactly the sections of its own name in template order: the n-th template of that
   * name gives the n-th section. Its type is that of the first such template.
   */
  ghost predicate HoldsItsSections(block: Block, infos: seq<Info>, sections: seq<Section>)
    requires |infos| == |sections|
  {
    var names := Names(infos);
    && |block.sections| == Count(names, block.blockName) > 0
    && (forall j :: 0 <= j < |names| && names[j] == block.blockName ==>
          var rank := Count(names[..j], block.blockName);
          && rank < |block.sections| && block.sections[rank] == sections[j]
          && (rank == 0 ==> block.blockType == infos[j].blockType))
  }

  /** The section of template `j` stands at its rank among the templates of its name. */
  lemma {:induction false} SectionAtRank(name: string, infos: seq<Info>, sections: seq<Section>, j: nat)
    requires |infos| == |sections|
    ensures |SectionsOf(name, infos, sections)| == Count(Names(infos), name)
    ensures j < |infos| && infos[j].blockName == name ==>
      var rank := Count(Names(infos)[..j], name);
      rank < |SectionsOf(name, infos, sections)| && SectionsOf(name, infos, sections)[rank] == sections[j]
  {
    if infos != [] {
      var n := |infos| - 1;
      SectionAtRank(name, infos[..n], sections[..n], j);
      assert Names(infos)[..n] == Names(infos[..n]) && Names(infos) == Names(infos[..n]) + [infos[n].blockName];
      CountOneMore(Names(infos[..n]), infos[n].blockName, name);
      assert j < n ==> Names(infos[..n])[..j] == Names(infos)[..j];
    }
  }

  lemma {:induction false} TypeOfFirst(name: string, infos: seq<Info>, j: nat)
    requires j < |infos| && infos[j].blockName == name && name !in Names(infos)[..j]
    ensures TypeOf(name, infos) == infos[j].blockType
  {
    if j > 0 {
      assert Names(infos)[..j][0] == infos[0].blockName;
      assert Names(infos[1..])[..j - 1] == Names(infos)[..j][1..];
      TypeOfFirst(name, infos[1..], j - 1);
    }
  }

  lemma BlockHolds(name: string, infos: seq<Info>, sections: seq<Section>)
    requires |infos| == |sections| && name in Names(infos)
    ensures HoldsItsSections(BlockOf(name, infos, sections), infos, sections)
  {
    var names := Names(infos);
    CountMembership(names, name);
    SectionAtRank(name, infos, sections, |infos|);
    forall j | 0 <= j < |names| && names[j] == name
      ensures var rank := Count(names[..j], name);
        && rank < |SectionsOf(name, infos, sections)| && SectionsOf(name, infos, sections)[rank] == sections[j]
        && (rank == 0 ==> TypeOf(name, infos) == infos[j].blockType)
    {
      SectionAtRank(name, infos, sections, j);
      CountMembership(names[..j], name);
      if name !in names[..j] {
        TypeOfFirst(name, infos, j);
      }
    }
  }

  /** Distinct names are listed in the order in which they first appear. */
  lemma {:induction false} FirstInOrder(names: seq<string>, i: nat, k: nat, j: nat)
    requires i < k < |Distinct(names)| && j < |names| && names[j] == Distinct(names)[k]
    ensures Distinct(names)[i] in names[..j]
  {
    var n := |names| - 1;
    var init := names[..n];
    assert names == init + [names[n]];
    DistinctAppend(init, names[n]);
    if j == n {
      InDistinct(init, i);
    } else {
      assert init[j] == names[j];
      if k < |Distinct(init)| {
        FirstInOrder(init, i, k, j);
        assert init[..j] == names[..j];
      }
    }
  }

  function Flattened(blocks: seq<Block>): seq<Section> {
    if blocks == [] then [] else blocks[0].sections + Flattened(blocks[1..])
  }

  lemma {:induction false} AddSectionAddsOne(blocks: seq<Block>, info: Info, section: Section)
    ensures multiset(Flattened(AddSection(blocks, info, section))) == multiset(Flattened(blocks)) + multiset{section}
  {
    var r := AddSection(blocks, info, section);
    if blocks == [] {
      assert r[1..] == [] && Flattened(r) == [section] + Flattened(r[1..]);
    } else if blocks[0].blockName == info.blockName {
      assert r[1..] == blocks[1..];
    } else {
      AddSectionAddsOne(blocks[1..], info, section);
      assert r[1..] == AddSection(blocks[1..], info, section);
    }
  }

  lemma {:induction false} NothingLost(infos: seq<Info>, sections: seq<Section>)
    requires |infos| == |sections|
    ensures multiset(Flattened(Grouped(infos, sections))) == multiset(sections)
  {
    if infos != [] {
      var n := |infos| - 1;
      assert infos == infos[..n] + [infos[n]] && sections == sections[..n] + [sections[n]];
      NothingLost(infos[..n], sections[..n]);
      AddSectionKeepsGrouped(infos[..n], sections[..n], infos[n], sections[n]);
      AddSectionAddsOne(Grouped(infos[..n], sections[..n]), infos[n], sections[n]);
    }
  }

  /**
   * Grouping partitions the sections: every template's name has a block, no name has two, each block
   * holds exactly its own name's sections in template order, the blocks come in order of first
   * appearance, and over all blocks no section is lost or repeated.
   */
  lemma GroupedIsPartition(infos: seq<Info>, sections: seq<Section>)
    requires |infos| == |sections|
    ensures var blocks, names := Grouped(infos, sections), Names(infos);
      && (forall j :: 0 <= j < |names| ==> exists i :: 0 <= i < |blocks| && blocks[i].blockName == names[j])
      && (forall i :: 0 <= i < |blocks| ==> HoldsItsSections(blocks[i], infos, sections))
      && (forall i, k, j :: 0 <= i < k < |blocks| && 0 <= j < |names| && names[j] == blocks[k].blockName ==>
            blocks[i].blockName != blocks[k].blockName && blocks[i].blockName in names[..j])
      && multiset(Flattened(blocks)) == multiset(sections)
  {
    var blocks, names := Grouped(infos, sections), Names(infos);
    var distinct := Distinct(names);
    forall i | 0 <= i < |blocks|
      ensures HoldsItsSections(blocks[i], infos, sections)
    {
      assert distinct[i] in distinct;
      BlockHolds(distinct[i], infos, sections);
    }
    forall j | 0 <= j < |names|
      ensures exists i :: 0 <= i < |blocks| && blocks[i].blockName == names[j]
    {
      assert names[j] in distinct;
      var i :| 0 <= i < |distinct| && distinct[i] == names[j];
      assert blocks[i].blockName == names[j];
    }
    forall i, k, j | 0 <= i < k < |blocks| && 0 <= j < |names| && names[j] == blocks[k].blockName
      ensures blocks[i].blockName != blocks[k].blockName && blocks[i].blockName in names[..j]
    {
      FirstInOrder(names, i, k, j);
    }
    NothingLost(infos, sections);
  }

  // ---------- the whole call ----------

  function Infos(ts: seq<Template>): (r: seq<Info>)
    ensures |r| == |ts| && forall i :: 0 <= i < |r| ==> r[i] == ts[i].info
  {
    seq(|ts|, i requires 0 <= i < |ts| => ts[i].info)
  }

  /** The sections of all templates after substitution, or the first error. */
  function AllSections(ts: seq<Template>, pairs: Option<seq<Pair>>, format: Formatter): (r: Result<seq<Section>, FormatError>)
    ensures r.Success? ==> |r.value| == |ts|
  {
    if ts == [] then Success([])
    else
      var n := |ts| - 1;
      match (AllSections(ts[..n], pairs, format), SectionOf(FilledTemplate(ts[n], pairs), format))
      case (Failure(e), _) => Failure(e)
      case (_, Failure(e)) => Failure(e)
      case (Success(done), Success(s)) => Success(done + [s])
  }

  function Content(ts: seq<Template>, pairs: Option<seq<Pair>>, format: Formatter): Result<seq<Block>, FormatError> {
    match AllSections(ts, pairs, format)
    case Failure(e) => Failure(e)
    case Success(sections) => Success(Grouped(Infos(ts), sections))
  }

  lemma NoTemplates(pairs: Option<seq<Pair>>, format: Formatter)
    ensures Content([], pairs, format) == Success([])
  {
    assert Names(Infos([])) == [];
    assert Grouped(Infos([]), []) == [];
  }

  lemma {:induction false} FirstErrorStays(ts: seq<Template>, n: nat, pairs: Option<seq<Pair>>, format: Formatter)
    requires n <= |ts| && AllSections(ts[..n], pairs, format).Failure?
    ensures AllSections(ts, pairs, format) == AllSections(ts[..n], pairs, format)
  {
    if n == |ts| {
      assert ts[..n] == ts;
    } else {
      var k := |ts| - 1;
      assert ts[..k][..n] == ts[..n];
      FirstErrorStays(ts[..k], n, pairs, format);
    }
  }

  method RenderOne(t: SectionTemplate, pairs: Option<seq<Pair>>, format: Formatter) returns (r: Result<Section, FormatError>)
    modifies t
    ensures t.Value() == FilledTemplate(old(t.Value()), pairs)
    ensures r == SectionOf(t.Value(), format)
  {
    ReplaceKeyValuePairs(t, pairs);
    var header := HeaderOf(t.Value(), format);
    if header.Failure? {
      return Failure(header.error);
    }
    var body := RenderBody(t, format);
    if body.Failure? {
      return Failure(body.error);
    }
    r := Success(Section(t.info.sectionName, t.info.description, t.info.sectionType, t.info.blockType,
                         t.info.variationID, header.value, body.value));
  }

  /** `ToClient`: overwrites the templates it is given, and answers from their old contents. */
  method ToClient(templates: seq<SectionTemplate>, pairs: Option<seq<Pair>>, format: Formatter)
    returns (r: Result<seq<Block>, FormatError>)
    requires NoDuplicates(templates)
    modifies templates
    ensures r == Content(old(Values(templates)), pairs, format)
    ensures r.Success? ==> forall i :: 0 <= i < |templates| ==>
      templates[i].Value() == FilledTemplate(old(templates[i].Value()), pairs)
  {
    ghost var ts := Values(templates);
    var blocks: seq<Block> := [];
    NoTemplates(pairs, format);
    for i := 0 to |templates|
      invariant FilledUpTo(templates, ts, pairs, i)
      invariant Content(ts[..i], pairs, format) == Success(blocks)
    {
      var section := FillNext(templates, ts, i, pairs, format);
      ContentStep(ts, i, pairs, format, blocks);
      if section.Failure? {
        return Failure(section.error);
      }
      blocks := AddSection(blocks, templates[i].info, section.value);
    }
    assert ts[..|ts|] == ts;
    r := Success(blocks);
  }

  /** The first `n` templates are filled in, the others as they were. */
  ghost predicate FilledUpTo(templates: seq<SectionTemplate>, ts: seq<Template>, pairs: Option<seq<Pair>>, n: nat)
    reads templates
  {
    && |ts| == |templates| && n <= |ts|
    && (forall j :: 0 <= j < n ==> templates[j].Value() == FilledTemplate(ts[j], pairs))
    && (forall j :: n <= j < |templates| ==> templates[j].Value() == ts[j])
  }

  method FillNext(templates: seq<SectionTemplate>, ghost ts: seq<Template>, i: nat, pairs: Option<seq<Pair>>, format: Formatter)
    returns (r: Result<Section, FormatError>)
    requires NoDuplicates(templates) && i < |templates| && FilledUpTo(templates, ts, pairs, i)
    modifies templates
    ensures FilledUpTo(templates, ts, pairs, i + 1)
    ensures r == SectionOf(FilledTemplate(ts[i], pairs), format) && templates[i].info == ts[i].info
  {
    assert forall j :: 0 <= j < |templates| && j != i ==> templates[j] != templates[i];
    r := RenderOne(templates[i], pairs, format);
  }

  lemma ContentStep(ts: seq<Template>, i: nat, pairs: Option<seq<Pair>>, format: Formatter, blocks: seq<Block>)
    requires i < |ts| && Content(ts[..i], pairs, format) == Success(blocks)
    ensures var r := SectionOf(FilledTemplate(ts[i], pairs), format);
      if r.Failure? then Content(ts, pairs, format) == Failure(r.error)
      else Content(ts[..i + 1], pairs, format) == Success(AddSection(blocks, ts[i].info, r.value))
  {
    assert ts[..i + 1][..i] == ts[..i] && ts[..i + 1][i] == ts[i];
    var sections := AllSections(ts[..i], pairs, format).value;
    var r := SectionOf(FilledTemplate(ts[i], pairs), format);
    if r.Failure? {
      FirstErrorStays(ts, i + 1, pairs, format);
    } else {
      assert Infos(ts[..i + 1]) == Infos(ts[..i]) + [ts[i].info];
      AddSectionKeepsGrouped(Infos(ts[..i]), sections, ts[i].info, r.value);
    }
  }

  // ---------- what a section says ----------

  predicate Blank(text: Option<string>) {
    text.None? || text.value == ""
  }

  /** The row fits the body and each of the texts around it that is not empty. */
  predicate RowFits(t: Template, row: seq<string>, format: Formatter)
    requires t.body.Some?
  {
    && format(t.body.value, row).Some?
    && (Blank(t.info.multirowPrefix) || format(t.info.multirowPrefix.value, row).Some?)
    && (Blank(t.info.multirowSuffix) || format(t.info.multirowSuffix.value, row).Some?)
    && (Blank(t.info.multirowDelimiter) || format(t.info.multirowDelimiter.value, row).Some?)
  }

  predicate AllRowsFit(t: Template, rows: seq<seq<string>>, format: Formatter)
    requires t.body.Some?
  {
    forall i | 0 <= i < |rows| :: RowFits(t, rows[i], format)
  }

  /** A text formatted with a row that fits it; nothing if there is no text. */
  function TextFor(text: Option<string>, row: seq<string>, format: Formatter): string
    requires Blank(text) || format(text.value, row).Some?
  {
    if Blank(text) then "" else format(text.value, row).value
  }

  /** Where line `i` begins, if the first begins at `base` and `gap` characters follow each. */
  ghost function Start(lines: seq<string>, base: nat, gap: nat, i: nat): nat
    requires i <= |lines|
    decreases i
  {
    if i == 0 then base else Start(lines[1..], base + |lines[0]| + gap, gap, i - 1)
  }

  /** From `base` on the text has the lines, the delimiter between any two, and the suffix to its end. */
  ghost predicate LaidOut(text: string, base: nat, lines: seq<string>, delimiter: string, suffix: string) {
    && lines != []
    && (forall i: nat :: i < |lines| ==> LineAt(text, base, lines, delimiter, suffix, i))
  }

  ghost predicate LineAt(text: string, base: nat, lines: seq<string>, delimiter: string, suffix: string, i: nat)
    requires i < |lines|
  {
    var at := Start(lines, base, |delimiter|, i);
    var end := at + |lines[i]|;
    && end <= |text| && text[at..end] == lines[i]
    && (if i + 1 < |lines|
        then end + |delimiter| <= |text| && text[end..end + |delimiter|] == delimiter
        else text[end..] == suffix)
  }

  lemma Slices(a: string, b: string, c: string, d: string)
    ensures var t := a + b + c + d;
      && t[|a|..|a| + |b|] == b && t[|a| + |b|..|a| + |b| + |c|] == c && t[|a| + |b| + |c|..] == d
  {
  }

  /** The first of several joined lines, and the rest behind it. */
  lemma JoinFirst(text: string, front: string, lines: seq<string>, delimiter: string, suffix: string)
    requires |lines| > 1 && text == front + Join(delimiter, lines) + suffix
    ensures text == (front + lines[0] + delimiter) + Join(delimiter, lines[1..]) + suffix
    ensures LineAt(text, |front|, lines, delimiter, suffix, 0)
  {
    var rest := Join(delimiter, lines[1..]) + suffix;
    assert text == front + lines[0] + delimiter + rest;
    Slices(front, lines[0], delimiter, rest);
  }

  /** Joined lines are laid out one after the other. */
  lemma {:induction false} JoinLaysOut(text: string, front: string, lines: seq<string>, delimiter: string, suffix: string, i: nat)
    requires i < |lines| && text == front + Join(delimiter, lines) + suffix
    ensures LineAt(text, |front|, lines, delimiter, suffix, i)
    decreases lines
  {
    if |lines| == 1 {
      assert text == front + lines[0] + "" + suffix;
      Slices(front, lines[0], "", suffix);
    } else {
      JoinFirst(text, front, lines, delimiter, suffix);
      if i > 0 {
        JoinLaysOut(text, front + lines[0] + delimiter, lines[1..], delimiter, suffix, i - 1);
      }
    }
  }

  /** The text around the rows as it stands after them: the last row's, or what it was if there is none. */
  ghost predicate FrameAfter(t: Template, rows: seq<seq<string>>, f: Frame, end: Frame, format: Formatter)
    requires t.body.Some? && AllRowsFit(t, rows, format)
  {
    if rows == [] then end == f
    else
      var last := rows[|rows| - 1];
      assert RowFits(t, last, format);
      && end.prefix == (if Blank(t.info.multirowPrefix) then f.prefix else TextFor(t.info.multirowPrefix, last, format))
      && end.suffix == (if Blank(t.info.multirowSuffix) then f.suffix else TextFor(t.info.multirowSuffix, last, format))
      && end.delimiter == (if Blank(t.info.multirowDelimiter) then f.delimiter else TextFor(t.info.multirowDelimiter, last, format))
  }

  ghost predicate LinesOf(t: Template, rows: seq<seq<string>>, lines: seq<string>, format: Formatter)
    requires t.body.Some?
  {
    |lines| == |rows| && forall i :: 0 <= i < |rows| ==> format(t.body.value, rows[i]) == Some(lines[i])
  }

  lemma {:induction false} RowsMeaning(t: Template, rows: seq<seq<string>>, f: Frame, format: Formatter)
    requires t.body.Some?
    ensures var r := RowsOf(t.body.value, t.info, rows, f, format);
      && (r.Some? <==> AllRowsFit(t, rows, format))
      && (r.Some? ==> LinesOf(t, rows, r.value.0, format) && FrameAfter(t, rows, f, r.value.1, format))
    decreases rows
  {
    if rows != [] {
      var row, rest := rows[0], rows[1..];
      assert rows == [row] + rest;
      assert AllRowsFit(t, rows, format) <==> RowFits(t, row, format) && AllRowsFit(t, rest, format);
      var f' := RowFrame(t.info, row, f, format);
      if f'.Some? {
        RowsMeaning(t, rest, f'.value, format);
      }
    }
  }

  /** The body has the last row's prefix, a line per row with the last row's delimiters between, and its suffix. */
  ghost predicate ShowsRows(t: Template, format: Formatter, text: string)
    requires t.body.Some? && t.info.rows != [] && AllRowsFit(t, t.info.rows, format)
  {
    var rows := t.info.rows;
    var last := rows[|rows| - 1];
    assert RowFits(t, last, format);
    var prefix := TextFor(t.info.multirowPrefix, last, format);
    && prefix <= text
    && exists lines :: LinesOf(t, rows, lines, format) &&
         LaidOut(text, |prefix|, lines, TextFor(t.info.multirowDelimiter, last, format), TextFor(t.info.multirowSuffix, last, format))
  }

  /**
   * The body of a section. Without value rows it is the text, or its default if a brace is left. With rows it
   * fails exactly if some row does not fit, and otherwise shows them.
   */
  lemma BodyExactly(t: Template, format: Formatter)
    ensures var r, rows := BodyOf(t, format), t.info.rows;
      if t.body.None? then r == Success("")
      else if rows == [] then
        r == Success(if '{' !in t.body.value then t.body.value else if t.info.bodyDefault.Some? then t.info.bodyDefault.value else "")
      else if !AllRowsFit(t, rows, format) then r == Failure(FormatError(t))
      else r.Success? && ShowsRows(t, format, r.value)
  {
    if t.body.Some? && t.info.rows != [] {
      RowsMeaning(t, t.info.rows, NO_FRAME, format);
      if AllRowsFit(t, t.info.rows, format) {
        BodyLaidOut(t, format);
      }
    }
  }

  lemma BodyLaidOut(t: Template, format: Formatter)
    requires t.body.Some? && t.info.rows != [] && AllRowsFit(t, t.info.rows, format)
    ensures BodyOf(t, format).Success? && ShowsRows(t, format, BodyOf(t, format).value)
  {
    RowsMeaning(t, t.info.rows, NO_FRAME, format);
    var (lines, f) := RowsOf(t.body.value, t.info, t.info.rows, NO_FRAME, format).value;
    var text := f.prefix + Join(f.delimiter, lines) + f.suffix;
    forall i: nat | i < |lines|
      ensures LineAt(text, |f.prefix|, lines, f.delimiter, f.suffix, i)
    {
      JoinLaysOut(text, f.prefix, lines, f.delimiter, f.suffix, i);
    }
    assert LaidOut(text, |f.prefix|, lines, f.delimiter, f.suffix);
  }

  /** The header uses the first row only; without rows it is the text, or its own default if a brace is left. */
  lemma HeaderExactly(t: Template, format: Formatter)
    ensures var r, rows := HeaderOf(t, format), t.info.rows;
      if t.header.None? then r == Success(None)
      else if rows == [] then
        r == Success(Some(if '{' !in t.header.value then t.header.value
                          else if t.info.headerDefault.Some? then t.info.headerDefault.value else ""))
      else match format(t.header.value, rows[0])
        case None => r == Failure(FormatError(t))
        case Some(h) => r == Success(Some(h))
  {
  }

  /** The section carries its template's names, types and variation. */
  ghost predicate Labels(s: Section, info: Info) {
    && s.sectionName == info.sectionName && s.description == info.description && s.sectionType == info.sectionType
    && s.blockType == info.blockType && s.variationID == info.variationID
  }

  /**
   * The sections of a whole call: all templates succeed, or the call fails with the error of the first
   * that does not. The i-th section is labelled by the i-th template and shows its header and body, each
   * with the pairs filled in.
   */
  lemma {:induction false} SectionsExactly(ts: seq<Template>, pairs: Option<seq<Pair>>, format: Formatter)
    ensures var r := AllSections(ts, pairs, format);
      && (r.Success? <==> forall i :: 0 <= i < |ts| ==> Renders(ts[i], pairs, format))
      && (r.Success? ==> forall i :: 0 <= i < |ts| ==> SectionFor(r.value[i], ts[i], pairs, format))
      && (r.Failure? ==> exists i :: 0 <= i < |ts| && FirstBad(ts, i, pairs, format) && r.error == FormatError(FilledTemplate(ts[i], pairs)))
  {
    if ts != [] {
      var n := |ts| - 1;
      SectionsExactly(ts[..n], pairs, format);
      OneSection(ts[n], pairs, format);
      assert forall i :: 0 <= i < n ==> ts[..n][i] == ts[i];
      var r, before := AllSections(ts, pairs, format), AllSections(ts[..n], pairs, format);
      if before.Failure? {
        var i :| 0 <= i < n && FirstBad(ts[..n], i, pairs, format) && before.error == FormatError(FilledTemplate(ts[..n][i], pairs));
        assert FirstBad(ts, i, pairs, format);
      } else if r.Failure? {
        assert FirstBad(ts, n, pairs, format);
      }
    }
  }

  /** Header and body both come out. */
  ghost predicate Renders(t: Template, pairs: Option<seq<Pair>>, format: Formatter) {
    HeaderOf(FilledTemplate(t, pairs), format).Success? && BodyOf(FilledTemplate(t, pairs), format).Success?
  }

  ghost predicate FirstBad(ts: seq<Template>, i: nat, pairs: Option<seq<Pair>>, format: Formatter)
    requires i < |ts|
  {
    !Renders(ts[i], pairs, format) && forall j :: 0 <= j < i ==> Renders(ts[j], pairs, format)
  }

  ghost predicate SectionFor(s: Section, t: Template, pairs: Option<seq<Pair>>, format: Formatter) {
    var header := if t.header.None? || pairs.None? then t.header else Some(Sequential(t.header.value, pairs.value));
    var body := if t.body.None? || pairs.None? then t.body else Some(Sequential(t.body.value, pairs.value));
    && Labels(s, t.info)
    && HeaderOf(Template(t.info, header, body), format) == Success(s.header)
    && BodyOf(Template(t.info, header, body), format) == Success(s.body)
  }

  lemma OneSection(t: Template, pairs: Option<seq<Pair>>, format: Formatter)
    ensures var r := SectionOf(FilledTemplate(t, pairs), format);
      && (r.Success? <==> Renders(t, pairs, format))
      && (r.Success? ==> SectionFor(r.value, t, pairs, format))
      && (r.Failure? ==> r.error == FormatError(FilledTemplate(t, pairs)))
  {
  }

  /**
   * Without value rows the emitted text is the simultaneous substitution when every placeholder
   * has a value, and the default text otherwise; an opening brace can only come from the default.
   */
  lemma EmittedWithoutRows(text: string, default_: Option<string>, pairs: seq<Pair>)
    requires NoNesting(text) && CleanPairs(pairs)
    ensures var m := FirstWins(pairs);
      var out := Fallback(Sequential(text, pairs), default_);
      && out == (if AllFilled(text, m) then Substitute(text, m) else if default_.Some? then default_.value else "")
      && ('{' in out ==> default_.Some? && '{' in default_.value)
  {
    SequentialIsSimultaneous(text, pairs);
    CleanMap(pairs);
    LeftoverBrace(text, FirstWins(pairs));
  }

  lemma {:induction false} CleanMap(pairs: seq<Pair>)
    requires CleanPairs(pairs)
    ensures forall k :: k in FirstWins(pairs) ==> '{' !in FirstWins(pairs)[k]
  {
    if pairs != [] {
      CleanMap(pairs[1..]);
    }
  }
}
