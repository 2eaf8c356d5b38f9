// Promoting Unreleased to a version (release.py): the section of a version, and the changelog with a new one.
module Promotion {
  import opened Prelude
  import opened Text
  import opened Blocks
  import opened Sections
  import opened Merging
  import opened MergeLaws

  function FirstNamed(spans: seq<Span>, name: string): (i: nat)
    ensures i <= |spans| && (i < |spans| ==> spans[i].name == name)
    ensures forall k :: 0 <= k < i ==> spans[k].name != name
  {
    if spans == [] || spans[0].name == name then 0 else 1 + FirstNamed(spans[1..], name)
  }

  /** `has_section`. */
  predicate HasSection(lines: seq<string>, name: string)
  {
    FirstNamed(Spans(lines), name) < |Spans(lines)|
  }

  lemma SpansInRange(lines: seq<string>)
    ensures forall i :: 0 <= i < |Spans(lines)| ==> Spans(lines)[i].start < Spans(lines)[i].end <= |lines|
  {
    hide Spans, Flat, NameOf, IsSection;
    SpansAreBlocks(lines);
  }

  /** `section_body`. */
  function SectionBody(lines: seq<string>, name: string): Result<seq<string>, Error>
  {
    SpansInRange(lines);
    var i := FirstNamed(Spans(lines), name);
    if i == |Spans(lines)| then Err(NoSection(name))
    else
      var span := Spans(lines)[i];
      var body := Trimmed(lines[span.start + 1..span.end]);
      if Blank(body) then Err(EmptySection(name)) else Ok(body + [""])
  }

  method ReadSection(lines: seq<string>, name: string) returns (r: Result<seq<string>, Error>)
    ensures r == SectionBody(lines, name)
  {
    hide Spans, Trimmed, Blank;
    var spans := FindSections(lines);
    SpansInRange(lines);
    for i := 0 to |spans|
      invariant forall k :: 0 <= k < i ==> spans[k].name != name
    {
      if spans[i].name == name {
        var body := Trimmed(lines[spans[i].start + 1..spans[i].end]);
        assert FirstNamed(spans, name) == i;
        if Blank(body) { return Err(EmptySection(name)); }
        return Ok(body + [""]);
      }
    }
    r := Err(NoSection(name));
  }

  /** `_unreleased_text`. */
  function UnreleasedText(lines: seq<string>): Result<seq<string>, Error>
  {
    match SectionBody(lines, UNRELEASED)
    case Ok(body) => Ok(body)
    case Err(EmptySection(_)) => Ok([""])
    case Err(e) => Err(e)
  }

  /** How many lines UNRELEASED_HEADING matches. */
  function UnreleasedCount(lines: seq<string>): nat
  {
    if lines == [] then 0 else (if IsUnreleased(lines[0]) then 1 else 0) + UnreleasedCount(lines[1..])
  }

  function FirstUnreleased(lines: seq<string>): (i: nat)
    ensures i <= |lines| && (i < |lines| ==> IsUnreleased(lines[i]))
    ensures forall k :: 0 <= k < i ==> !IsUnreleased(lines[k])
  {
    if lines == [] || IsUnreleased(lines[0]) then 0 else 1 + FirstUnreleased(lines[1..])
  }

  lemma {:induction false} SomeUnreleased(lines: seq<string>)
    requires UnreleasedCount(lines) > 0
    ensures FirstUnreleased(lines) < |lines|
  {
    hide IsUnreleased;
    if !IsUnreleased(lines[0]) {
      SomeUnreleased(lines[1..]);
    }
  }

  /** The lines put in place of the Unreleased section when there are fragments. */
  function Spliced(lines: seq<string>, span: Span, version: string, date: string, body: seq<string>): seq<string>
    requires span.start < span.end <= |lines|
  {
    lines[..span.start] + [UNRELEASED_HEADING, "", Heading(version, date), ""] + body
    + (if span.end == |lines| then [""] else lines[span.end..])
  }

  /** The heading alone is replaced when there are none. */
  function Reheaded(lines: seq<string>, i: nat, version: string, date: string): seq<string>
    requires i < |lines|
  {
    lines[..i] + [UNRELEASED_HEADING, "", Heading(version, date)] + lines[i + 1..]
  }

  /** `promote_unreleased`. */
  function Promote(lines: seq<string>, version: string, date: string, fragments: Fragments): Result<seq<string>, Error>
  {
    if HasSection(lines, version) then Err(SectionExists(version))
    else if fragments == map[] && SectionBody(lines, UNRELEASED).Err? then Err(SectionBody(lines, UNRELEASED).error)
    else if fragments != map[] && !HasSection(lines, UNRELEASED) then Err(NoSection(UNRELEASED))
    else if UnreleasedCount(lines) != 1 then Err(NotOneUnreleased)
    else if fragments != map[] then
      match UnreleasedText(lines)
      case Err(e) => Err(e)
      case Ok(text) =>
        SpansInRange(lines);
        Ok(Spliced(lines, Spans(lines)[FirstNamed(Spans(lines), UNRELEASED)], version, date, Merged(text, fragments)))
    else
      SomeUnreleased(lines);
      Ok(Reheaded(lines, FirstUnreleased(lines), version, date))
  }

  // ----- In terms of the sections -----

  /** The first section with a name. */
  function FirstBlock(blocks: seq<Block>, name: string): (i: nat)
    ensures i <= |blocks| && (i < |blocks| ==> NameOf(blocks[i].head) == name)
    ensures forall k :: 0 <= k < i ==> NameOf(blocks[k].head) != name
  {
    hide NameOf;
    if blocks == [] || NameOf(blocks[0].head) == name then 0 else 1 + FirstBlock(blocks[1..], name)
  }

  lemma FirstIs(lines: seq<string>, name: string)
    ensures FirstNamed(Spans(lines), name) == FirstBlock(SectionsOf(lines), name)
    ensures HasSection(lines, name) <==> FirstBlock(SectionsOf(lines), name) < |SectionsOf(lines)|
  {
    hide Spans, NameOf, Flat, SectionsOf, IsSection;
    SpansAreBlocks(lines);
    var spans, blocks := Spans(lines), SectionsOf(lines);
    var i, j := FirstNamed(spans, name), FirstBlock(blocks, name);
    forall k | 0 <= k < |spans| ensures spans[k].name == NameOf(blocks[k].head) {
      assert SpanFits(lines, Before(lines, IsSection), blocks, k, spans[k]);
    }
  }

  /** The body of a version is the trimmed body of its first section. */
  lemma BodyIs(lines: seq<string>, name: string)
    ensures var blocks := SectionsOf(lines);
            var i := FirstBlock(blocks, name);
            SectionBody(lines, name) == if i == |blocks| then Err(NoSection(name))
                                        else if Blank(Trimmed(blocks[i].body)) then Err(EmptySection(name))
                                        else Ok(Trimmed(blocks[i].body) + [""])
  {
    hide Spans, NameOf, Flat, SectionsOf, IsSection, Blank, Trimmed;
    FirstIs(lines, name);
    SpansAreBlocks(lines);
    var spans, blocks, i := Spans(lines), SectionsOf(lines), FirstBlock(SectionsOf(lines), name);
    if i < |blocks| {
      var span := spans[i];
      assert SpanFits(lines, Before(lines, IsSection), blocks, i, span);
      assert lines[span.start + 1..span.end] == lines[span.start..span.end][1..] == blocks[i].body;
    }
  }

  // ----- No heading comes from a merged body -----

  lemma {:induction false} FlatNoHead(blocks: seq<Block>)
    requires forall i :: 0 <= i < |blocks| ==> !IsSection(blocks[i].head) && NoHead(blocks[i].body, IsSection)
    ensures NoHead(Flat(blocks), IsSection)
  {
    hide IsSection;
    if blocks == [] {
    } else {
      FlatNoHead(blocks[1..]);
    }
  }

  lemma EmptyIsNoSection()
    ensures !IsSection("")
  {
  }

  /** The merged body of section-free text and rendered fragments has no section heading. */
  lemma MergedNoSections(lines: seq<string>, fragments: Fragments)
    requires GoodFragments(fragments) && NoHead(lines, IsSection)
    ensures NoHead(Merged(lines, fragments), IsSection)
  {
    hide GoodFragments, SplitGroups, Listed, Ended, IsSection, IsGroup, Blank, HeadOf, GoodGroups, Stripped, Tidy;
    var (preamble, groups) := SplitGroups(lines);
    var listed := Listed(groups, fragments);
    SplitIsGood(lines);
    ListedIsGood(lines, fragments);
    MergedIsFlat(preamble, listed);
    EmptyIsNoSection();
    var blocks := GroupBlocks(listed);
    forall i | 0 <= i < |blocks| ensures !IsSection(blocks[i].head) && NoHead(blocks[i].body, IsSection) {
      ListedStripped(lines, fragments, i);
      HeadIsGroup(listed[i].heading);
      assert GoodLines(listed[i].lines, lines);
      assert forall line :: line in listed[i].lines ==> FromBody(line, lines);
    }
    FlatNoHead(blocks);
    assert NoHead(MergedFront(preamble, listed), IsSection);
  }

  lemma BodyNoSections(lines: seq<string>, text: seq<string>)
    requires UnreleasedText(lines) == Ok(text)
    ensures NoHead(text, IsSection)
  {
    hide IsSection, Blank, Trimmed, Flat, BlocksOf, Before, SectionBody;
    EmptyIsNoSection();
    BodyIs(lines, UNRELEASED);
    var blocks, i := SectionsOf(lines), FirstBlock(SectionsOf(lines), UNRELEASED);
    if i < |blocks| {
      SplitFlat(lines, IsSection);
      assert GoodBlock(blocks[i], IsSection);
      TrimmedIsTidy(blocks[i].body);
    }
  }

  // ----- With fragments -----

  function NewBlocks(version: string, date: string, body: seq<string>, last: bool): seq<Block>
  {
    [Block(UNRELEASED_HEADING, [""]), Block(Heading(version, date), [""] + body + (if last then [""] else []))]
  }

  /** A version as `format_version` writes it. */
  predicate VersionName(version: string) { version != "" && ']' !in version }

  lemma NewBlocksGood(version: string, date: string, body: seq<string>, last: bool)
    requires VersionName(version) && DateForm(date) && NoHead(body, IsSection)
    ensures GoodBlocks(NewBlocks(version, date, body, last), IsSection)
    ensures NameOf(UNRELEASED_HEADING) == UNRELEASED && NameOf(Heading(version, date)) == version
  {
    hide SectionName, IsUnreleased, Heading, DateForm;
    EmptyIsNoSection();
    PlainUnreleased();
    UnreleasedName(UNRELEASED_HEADING);
    HeadingName(version, date);
    var blocks := NewBlocks(version, date, body, last);
    assert GoodBlock(blocks[0], IsSection) && GoodBlock(blocks[1], IsSection);
  }

  lemma SamePieces(before: seq<string>, front: seq<string>, u: string, h: string, body: seq<string>,
                   end: seq<string>, rest: seq<string>, tail: seq<string>)
    requires end + rest == tail
    ensures before + front + [u, "", h, ""] + body + tail
         == before + (front + ([u] + [""] + ([h] + ([""] + body + end))) + rest)
  {
    assert [u, "", h, ""] == [u] + [""] + [h] + [""];
    assert body + tail == body + end + rest;
  }

  lemma AddedFlat(version: string, date: string, body: seq<string>, last: bool)
    ensures Flat(NewBlocks(version, date, body, last))
         == [UNRELEASED_HEADING] + [""] + ([Heading(version, date)] + ([""] + body + (if last then [""] else [])))
  {
    hide Flat, Heading, UNRELEASED_HEADING;
    var added := NewBlocks(version, date, body, last);
    FlatTwo(added[0], added[1]);
  }

  lemma FlatThree(a: seq<Block>, b: seq<Block>, c: seq<Block>)
    ensures Flat(a + b + c) == Flat(a) + Flat(b) + Flat(c)
  {
    hide Flat;
    FlatAppend(a + b, c);
    FlatAppend(a, b);
  }

  lemma SplicedIsFlat(lines: seq<string>, before: seq<string>, blocks: seq<Block>, i: nat, span: Span,
                      version: string, date: string, body: seq<string>)
    requires i < |blocks| && lines == before + Flat(blocks) && SpanFits(lines, before, blocks, i, span)
    ensures Spliced(lines, span, version, date, body)
         == before + Flat(blocks[..i] + NewBlocks(version, date, body, i + 1 == |blocks|) + blocks[i + 1..])
  {
    hide Flat, Heading, NewBlocks, UNRELEASED_HEADING, SpanFits;
    var last, rest := i + 1 == |blocks|, Flat(blocks[i + 1..]);
    SpanEnds(lines, before, blocks, i, span);
    AddedFlat(version, date, body, last);
    FlatThree(blocks[..i], NewBlocks(version, date, body, last), blocks[i + 1..]);
    SamePieces(before, Flat(blocks[..i]), UNRELEASED_HEADING, Heading(version, date), body,
               if last then [""] else [], rest, if last then [""] else rest);
  }

  lemma SpanEnds(lines: seq<string>, before: seq<string>, blocks: seq<Block>, i: nat, span: Span)
    requires i < |blocks| && lines == before + Flat(blocks) && SpanFits(lines, before, blocks, i, span)
    ensures lines[..span.start] == before + Flat(blocks[..i]) && lines[span.end..] == Flat(blocks[i + 1..])
    ensures span.end == |lines| <==> i + 1 == |blocks|
    ensures i + 1 == |blocks| ==> Flat(blocks[i + 1..]) == []
  {
    hide NameOf, Flat;
    BlockAt(before, blocks, i, lines);
    FlatNone();
    if i + 1 < |blocks| { FlatSome(blocks[i + 1..]); } else { assert blocks[i + 1..] == []; }
  }

  lemma FlatSome(blocks: seq<Block>)
    requires blocks != []
    ensures Flat(blocks) != []
  {
  }

  lemma FlatTwo(a: Block, b: Block)
    ensures Flat([a, b]) == [a.head] + a.body + ([b.head] + b.body)
  {
    assert [a, b][1..] == [b] && [b][1..] == [];
    FlatNone();
    assert Flat([b]) == [b.head] + b.body;
  }

  lemma GoodAround(blocks: seq<Block>, i: nat, middle: seq<Block>)
    requires i < |blocks| && GoodBlocks(blocks, IsSection) && GoodBlocks(middle, IsSection)
    ensures GoodBlocks(blocks[..i] + middle + blocks[i + 1..], IsSection)
  {
    hide GoodBlock;
  }

  /** With fragments: the sections are the ones before, an empty Unreleased, the new version holding the merged body, and
      the ones after, unchanged and in order. */
  lemma PromotedSections(lines: seq<string>, version: string, date: string, fragments: Fragments)
    requires fragments != map[] && GoodFragments(fragments) && VersionName(version) && DateForm(date)
    requires Promote(lines, version, date, fragments).Ok?
    ensures var now, blocks := Promote(lines, version, date, fragments).value, SectionsOf(lines);
            var i := FirstBlock(blocks, UNRELEASED);
            && i < |blocks| && UnreleasedText(lines).Ok?
            && Before(now, IsSection) == Before(lines, IsSection)
            && SectionsOf(now) == blocks[..i]
                 + NewBlocks(version, date, Merged(UnreleasedText(lines).value, fragments), i + 1 == |blocks|) + blocks[i + 1..]
  {
    hide GoodFragments, Spans, NameOf, Flat, BlocksOf, Before, Merged, UnreleasedText, Spliced, IsSection, NewBlocks,
         Heading, DateForm, VersionName, UnreleasedCount, SectionBody;
    FirstIs(lines, UNRELEASED);
    SpansAreBlocks(lines);
    SplitFlat(lines, IsSection);
    var before, blocks, i := Before(lines, IsSection), SectionsOf(lines), FirstBlock(SectionsOf(lines), UNRELEASED);
    var text := UnreleasedText(lines).value;
    var body := Merged(text, fragments);
    BodyNoSections(lines, text);
    MergedNoSections(text, fragments);
    NewBlocksGood(version, date, body, i + 1 == |blocks|);
    assert SpanFits(lines, before, blocks, i, Spans(lines)[i]);
    SplicedIsFlat(lines, before, blocks, i, Spans(lines)[i], version, date, body);
    var all := blocks[..i] + NewBlocks(version, date, body, i + 1 == |blocks|) + blocks[i + 1..];
    GoodAround(blocks, i, NewBlocks(version, date, body, i + 1 == |blocks|));
    SplitOfFlat(before, all, IsSection);
  }

  // ----- Without fragments -----

  function Rehead(version: string, date: string, body: seq<string>): seq<Block>
  {
    [Block(UNRELEASED_HEADING, [""]), Block(Heading(version, date), body)]
  }

  /** The section with the plain Unreleased heading. */
  function PlainBlock(blocks: seq<Block>): (i: nat)
    ensures i <= |blocks| && (i < |blocks| ==> IsUnreleased(blocks[i].head))
    ensures forall k :: 0 <= k < i ==> !IsUnreleased(blocks[k].head)
  {
    hide IsUnreleased;
    if blocks == [] || IsUnreleased(blocks[0].head) then 0 else 1 + PlainBlock(blocks[1..])
  }

  lemma NotUnreleased(line: string)
    requires !IsSection(line)
    ensures !IsUnreleased(line)
  {
    hide SectionName, IsUnreleased;
    if IsUnreleased(line) { UnreleasedName(line); }
  }

  lemma {:induction false} SkipToUnreleased(before: seq<string>, rest: seq<string>)
    requires NoHead(before, IsSection)
    ensures FirstUnreleased(before + rest) == |before| + FirstUnreleased(rest)
  {
    hide IsSection, IsUnreleased;
    if before == [] {
      assert before + rest == rest;
    } else {
      assert before[0] in before && (before + rest)[1..] == before[1..] + rest;
      NotUnreleased(before[0]);
      assert NoHead(before[1..], IsSection) by { assert forall line :: line in before[1..] ==> line in before; }
      SkipToUnreleased(before[1..], rest);
    }
  }

  lemma FirstUnreleasedStep(line: string, rest: seq<string>)
    ensures FirstUnreleased([line] + rest) == if IsUnreleased(line) then 0 else 1 + FirstUnreleased(rest)
  {
    hide IsUnreleased;
    assert ([line] + rest)[1..] == rest;
  }

  lemma PlainBlockStep(first: Block, rest: seq<Block>)
    ensures PlainBlock([first] + rest) == if IsUnreleased(first.head) then 0 else 1 + PlainBlock(rest)
  {
    hide IsUnreleased;
    assert ([first] + rest)[1..] == rest;
  }

  lemma {:induction false} PlainBlockAt(blocks: seq<Block>)
    requires GoodBlocks(blocks, IsSection)
    ensures FirstUnreleased(Flat(blocks)) == |Flat(blocks[..PlainBlock(blocks)])|
    ensures FirstUnreleased(Flat(blocks)) < |Flat(blocks)| <==> PlainBlock(blocks) < |blocks|
  {
    hide IsSection, IsUnreleased, FirstUnreleased, PlainBlock;
    if blocks == [] {
      FlatNone();
      assert blocks[..0] == [];
    } else {
      var first, rest := blocks[0], blocks[1..];
      assert blocks == [first] + rest;
      assert GoodBlock(first, IsSection);
      assert GoodBlocks(rest, IsSection) by { assert forall i :: 0 <= i < |rest| ==> rest[i] == blocks[i + 1]; }
      assert Flat(blocks) == [first.head] + (first.body + Flat(rest));
      PlainBlockAt(rest);
      FirstUnreleasedStep(first.head, first.body + Flat(rest));
      PlainBlockStep(first, rest);
      SkipToUnreleased(first.body, Flat(rest));
      var n := PlainBlock(rest);
      assert blocks[..n + 1] == [first] + rest[..n] && blocks[..0] == [];
      FlatLength(first, rest[..n]);
      FlatLength(first, rest);
    }
  }

  lemma ReheadedIsFlat(lines: seq<string>, before: seq<string>, blocks: seq<Block>, i: nat, version: string, date: string)
    requires i < |blocks| && lines == before + Flat(blocks)
    ensures |before| + |Flat(blocks[..i])| < |lines|
    ensures Reheaded(lines, |before| + |Flat(blocks[..i])|, version, date)
         == before + Flat(blocks[..i] + Rehead(version, date, blocks[i].body) + blocks[i + 1..])
  {
    hide Flat, Heading, UNRELEASED_HEADING;
    BlockAt(before, blocks, i, lines);
    var start, end := |before| + |Flat(blocks[..i])|, |before| + |Flat(blocks[..i + 1])|;
    var added := Rehead(version, date, blocks[i].body);
    FlatAppend(blocks[..i] + added, blocks[i + 1..]);
    FlatAppend(blocks[..i], added);
    FlatTwo(added[0], added[1]);
    assert lines[start + 1..] == lines[start..end][1..] + lines[end..];
    assert lines[start..end][1..] == blocks[i].body;
    RegroupLines(before, Flat(blocks[..i]), UNRELEASED_HEADING, Heading(version, date), blocks[i].body, Flat(blocks[i + 1..]));
  }

  lemma RegroupLines(before: seq<string>, front: seq<string>, u: string, h: string, body: seq<string>, rest: seq<string>)
    ensures before + front + [u, "", h] + (body + rest) == before + (front + ([u] + [""] + ([h] + body)) + rest)
  {
    assert [u, "", h] == [u] + [""] + [h];
  }

  /** Without fragments: the section under the plain heading becomes the version, its body as it stands, after a new empty
      Unreleased. */
  lemma ReheadedSections(lines: seq<string>, version: string, date: string)
    requires VersionName(version) && DateForm(date) && Promote(lines, version, date, map[]).Ok?
    ensures var now, blocks := Promote(lines, version, date, map[]).value, SectionsOf(lines);
            var i := PlainBlock(blocks);
            && i < |blocks| && Before(now, IsSection) == Before(lines, IsSection)
            && SectionsOf(now) == blocks[..i] + Rehead(version, date, blocks[i].body) + blocks[i + 1..]
  {
    hide Flat, BlocksOf, Before, IsSection, Heading, DateForm, VersionName, SectionBody, IsUnreleased, Reheaded, HasSection,
         PlainBlock, FirstUnreleased;
    SplitFlat(lines, IsSection);
    var before, blocks := Before(lines, IsSection), SectionsOf(lines);
    SomeUnreleased(lines);
    SkipToUnreleased(before, Flat(blocks));
    PlainBlockAt(blocks);
    var i := PlainBlock(blocks);
    ReheadedIsFlat(lines, before, blocks, i, version, date);
    assert GoodBlock(blocks[i], IsSection);
    ReheadGood(version, date, blocks[i]);
    GoodAround(blocks, i, Rehead(version, date, blocks[i].body));
    SplitOfFlat(before, blocks[..i] + Rehead(version, date, blocks[i].body) + blocks[i + 1..], IsSection);
  }

  lemma NoLinesNoHead()
    ensures NoHead([], IsSection) && NoHead([""], IsSection)
  {
    hide IsSection;
    EmptyIsNoSection();
  }

  lemma ReheadGood(version: string, date: string, block: Block)
    requires VersionName(version) && DateForm(date) && GoodBlock(block, IsSection)
    ensures GoodBlocks(Rehead(version, date, block.body), IsSection)
  {
    hide IsSection, Heading, DateForm, VersionName, UNRELEASED_HEADING, NoHead;
    NoLinesNoHead();
    NewBlocksGood(version, date, [], false);
    var blocks, both := NewBlocks(version, date, [], false), Rehead(version, date, block.body);
    assert GoodBlock(blocks[0], IsSection) && GoodBlock(blocks[1], IsSection);
  }

  // ----- The bodies after promotion -----

  lemma FirstIsAt(blocks: seq<Block>, name: string, i: nat)
    requires i < |blocks| && NameOf(blocks[i].head) == name && forall k :: 0 <= k < i ==> NameOf(blocks[k].head) != name
    ensures FirstBlock(blocks, name) == i
  {
    hide NameOf;
  }

  /** The new section is the first with the version's name; its body is the merged body up to empty lines around it. */
  lemma PromotedBody(lines: seq<string>, version: string, date: string, fragments: Fragments)
    requires fragments != map[] && GoodFragments(fragments) && VersionName(version) && DateForm(date)
    requires Promote(lines, version, date, fragments).Ok?
    ensures var now := Promote(lines, version, date, fragments).value;
            && UnreleasedText(lines).Ok?
            && SectionBody(now, version) == Ok(Trimmed(Merged(UnreleasedText(lines).value, fragments)) + [""])
            && SectionBody(now, UNRELEASED) == Err(EmptySection(UNRELEASED))
  {
    hide GoodFragments, Spans, NameOf, Flat, BlocksOf, Before, Merged, UnreleasedText, IsSection, Heading, DateForm,
         VersionName, UnreleasedCount, SectionBody, Trimmed, Blank, Promote;
    PromotedSections(lines, version, date, fragments);
    var now, blocks := Promote(lines, version, date, fragments).value, SectionsOf(lines);
    var i := FirstBlock(blocks, UNRELEASED);
    var body := Merged(UnreleasedText(lines).value, fragments);
    var all := SectionsOf(now);
    NotThereBefore(lines, version, date, fragments);
    NamesOfNew(version, date, body, i + 1 == |blocks|);
    FirstIsAt(all, UNRELEASED, i);
    FirstIsAt(all, version, i + 1);
    BodyIs(now, UNRELEASED);
    BodyIs(now, version);
    TrimmedSkips(body);
    TrimmedSkips([""] + body);
    assert [""] + body + [] == [""] + body;
    TrimmedEmpty([""]);
    StripEmptyLine();
    MergedIsNotBlank(UnreleasedText(lines).value, fragments);
  }

  lemma NamesOfNew(version: string, date: string, body: seq<string>, last: bool)
    requires VersionName(version) && DateForm(date)
    ensures var added := NewBlocks(version, date, body, last);
            NameOf(added[0].head) == UNRELEASED && NameOf(added[1].head) == version
  {
    hide NameOf, VersionName, DateForm, Heading;
    NewBlocksGood(version, date, [], false);
  }

  lemma NotThereBefore(lines: seq<string>, version: string, date: string, fragments: Fragments)
    requires Promote(lines, version, date, fragments).Ok?
    ensures forall k :: 0 <= k < |SectionsOf(lines)| ==> NameOf(SectionsOf(lines)[k].head) != version
    ensures version != UNRELEASED
  {
    hide NameOf, SectionsOf, UnreleasedCount, Spans, Merged, Spliced, Reheaded, UnreleasedText, Trimmed, Blank, FirstUnreleased;
    FirstIs(lines, version);
    FirstIs(lines, UNRELEASED);
    BodyIs(lines, UNRELEASED);
  }

  /** With at least one fragment the merged body holds a group heading. */
  lemma MergedIsNotBlank(lines: seq<string>, fragments: Fragments)
    requires GoodFragments(fragments) && fragments != map[]
    ensures !Blank(Trimmed(Merged(lines, fragments)))
  {
    hide GoodGroups, SplitGroups, Others, InOrder, Ended, HeadOf, Rendered, Lower, Trimmed, Blank, MergedFront, Flat;
    var (preamble, groups) := SplitGroups(lines);
    var listed := Listed(groups, fragments);
    MergedIsFlat(preamble, listed);
    OrderIsTypes();
    var t :| t in fragments;
    var n :| 0 <= n < 6 && TYPES[n] == t;
    assert ORDER[n] in ORDER && Entries(fragments, ORDER[n]) == fragments[t];
    ListedHeadings(Headings(groups), groups.texts, fragments);
    assert ORDER[n] in Headings(groups);
    assert ORDER[n] in HeadingsOf(listed);
    var i :| 0 <= i < |listed| && HeadingsOf(listed)[i] == ORDER[n];
    HeadInFlat(GroupBlocks(listed), i);
    var merged := Merged(lines, fragments);
    assert HeadOf(ORDER[n]) in merged;
    HashIsNotBlank(ORDER[n]);
    NotBlankTrimmed(merged, HeadOf(ORDER[n]));
  }

  lemma HashIsNotBlank(heading: string)
    ensures Strip(HeadOf(heading)) != ""
  {
    assert HeadOf(heading)[0] == '#';
    NotBlank(HeadOf(heading), 0);
  }

  lemma NotBlankTrimmed(lines: seq<string>, line: string)
    requires line in lines && Strip(line) != ""
    ensures !Blank(Trimmed(lines))
  {
    hide Strip;
    var i :| 0 <= i < |lines| && lines[i] == line;
    StripOfEmpty();
    TrimmedHolds(lines, i);
    assert line in Trimmed(lines);
  }

  lemma StripOfEmpty()
    ensures Strip("") == ""
  {
  }

  lemma TrimmedHolds(lines: seq<string>, i: nat)
    requires i < |lines| && lines[i] != ""
    ensures lines[i] in Trimmed(lines)
  {
    var front := DropEmptyFront(lines);
    var skipped := |lines| - |front|;
    assert front[i - skipped] == lines[i];
    var rest := DropEmptyBack(front);
    assert rest[i - skipped] == lines[i];
  }

  /** Without fragments the version's section has the body that stood under the plain Unreleased heading. */
  lemma ReheadedBody(lines: seq<string>, version: string, date: string)
    requires VersionName(version) && DateForm(date) && Promote(lines, version, date, map[]).Ok?
    ensures var now, blocks := Promote(lines, version, date, map[]).value, SectionsOf(lines);
            && PlainBlock(blocks) < |blocks|
            && var body := Trimmed(blocks[PlainBlock(blocks)].body);
               SectionBody(now, version) == if Blank(body) then Err(EmptySection(version)) else Ok(body + [""])
  {
    hide Flat, BlocksOf, Before, IsSection, Heading, DateForm, VersionName, SectionBody, IsUnreleased, Promote, PlainBlock,
         NameOf, Blank, Trimmed, UNRELEASED_HEADING, UNRELEASED;
    ReheadedSections(lines, version, date);
    var now, blocks := Promote(lines, version, date, map[]).value, SectionsOf(lines);
    var i := PlainBlock(blocks);
    NotThereBefore(lines, version, date, map[]);
    NamesOfNew(version, date, [], false);
    FirstIsAt(SectionsOf(now), version, i + 1);
    BodyIs(now, version);
  }

  // ----- One plain Unreleased heading again? -----

  lemma {:induction false} CountAppend(a: seq<string>, b: seq<string>)
    ensures UnreleasedCount(a + b) == UnreleasedCount(a) + UnreleasedCount(b)
  {
    hide IsUnreleased;
    if a == [] {
      assert a + b == b;
    } else {
      assert (a + b)[1..] == a[1..] + b;
      CountAppend(a[1..], b);
    }
  }

  lemma {:induction false} CountNone(lines: seq<string>)
    requires NoHead(lines, IsSection)
    ensures UnreleasedCount(lines) == 0
  {
    hide IsSection, IsUnreleased;
    if lines == [] {
    } else {
      assert lines[0] in lines;
      NotUnreleased(lines[0]);
      assert NoHead(lines[1..], IsSection) by { assert forall line :: line in lines[1..] ==> line in lines; }
      CountNone(lines[1..]);
    }
  }

  lemma CountBlock(block: Block)
    requires GoodBlock(block, IsSection)
    ensures UnreleasedCount([block.head] + block.body) == if IsUnreleased(block.head) then 1 else 0
  {
    hide IsSection, IsUnreleased;
    assert ([block.head] + block.body)[1..] == block.body;
    CountNone(block.body);
  }

  lemma CountAround(front: seq<string>, middle: seq<string>, rest: seq<string>)
    ensures UnreleasedCount(front + middle + rest) == UnreleasedCount(front) + UnreleasedCount(middle) + UnreleasedCount(rest)
  {
    hide UnreleasedCount;
    CountAppend(front + middle, rest);
    CountAppend(front, middle);
  }

  lemma CountTwo(a: Block, b: Block)
    requires GoodBlock(a, IsSection) && GoodBlock(b, IsSection)
    ensures UnreleasedCount(Flat([a, b])) == (if IsUnreleased(a.head) then 1 else 0) + (if IsUnreleased(b.head) then 1 else 0)
  {
    hide UnreleasedCount, IsUnreleased, GoodBlock, Flat;
    FlatTwo(a, b);
    CountAppend([a.head] + a.body, [b.head] + b.body);
    CountBlock(a);
    CountBlock(b);
  }

  /** The new blocks count as one plain heading in place of what block i counted for. */
  lemma CountReplaced(before: seq<string>, blocks: seq<Block>, i: nat, added: seq<Block>, version: string, date: string)
    requires i < |blocks| && GoodBlocks(blocks, IsSection) && |added| == 2 && GoodBlocks(added, IsSection)
    requires added[0].head == UNRELEASED_HEADING && added[1].head == Heading(version, date)
    requires VersionName(version) && DateForm(date)
    ensures UnreleasedCount(before + Flat(blocks[..i] + added + blocks[i + 1..])) + (if IsUnreleased(blocks[i].head) then 1 else 0)
         == UnreleasedCount(before + Flat(blocks)) + 1
  {
    hide UnreleasedCount, IsUnreleased, IsSection, Flat, Heading, UNRELEASED_HEADING, DateForm, NoHead;
    var front, rest := Flat(blocks[..i]), Flat(blocks[i + 1..]);
    assert blocks == blocks[..i] + [blocks[i]] + blocks[i + 1..];
    FlatThree(blocks[..i], added, blocks[i + 1..]);
    FlatThree(blocks[..i], [blocks[i]], blocks[i + 1..]);
    assert GoodBlock(blocks[i], IsSection) && GoodBlock(added[0], IsSection) && GoodBlock(added[1], IsSection);
    assert added == [added[0], added[1]];
    CountTwo(added[0], added[1]);
    PlainUnreleased();
    HeadingName(version, date);
    FlatOneBlock(blocks[i]);
    CountBlock(blocks[i]);
    CountAround(front, Flat(added), rest);
    CountAround(front, Flat([blocks[i]]), rest);
    CountAppend(before, front + Flat(added) + rest);
    CountAppend(before, front + Flat([blocks[i]]) + rest);
  }

  lemma FlatOneBlock(block: Block)
    ensures Flat([block]) == [block.head] + block.body
  {
    assert [block][1..] == [];
    FlatNone();
  }

  /** After a promotion with fragments there is one plain Unreleased heading again exactly when the first section named
      Unreleased had the plain heading; a dated one above it leaves two, and the next promotion is refused. */
  lemma NextPromotionPossibleIff(lines: seq<string>, version: string, date: string, fragments: Fragments)
    requires fragments != map[] && GoodFragments(fragments) && VersionName(version) && DateForm(date)
    requires Promote(lines, version, date, fragments).Ok?
    ensures var now, blocks := Promote(lines, version, date, fragments).value, SectionsOf(lines);
            var i := FirstBlock(blocks, UNRELEASED);
            i < |blocks| && (UnreleasedCount(now) == 1 <==> IsUnreleased(blocks[i].head))
  {
    hide GoodFragments, NameOf, Flat, BlocksOf, Before, Merged, UnreleasedText, IsSection, Heading, DateForm,
         VersionName, UnreleasedCount, SectionBody, Promote, NewBlocks, IsUnreleased;
    PromotedSections(lines, version, date, fragments);
    var now, blocks := Promote(lines, version, date, fragments).value, SectionsOf(lines);
    var i := FirstBlock(blocks, UNRELEASED);
    var body, last := Merged(UnreleasedText(lines).value, fragments), i + 1 == |blocks|;
    SplitFlat(lines, IsSection);
    SplitFlat(now, IsSection);
    OnePlainHeading(lines, version, date, fragments);
    BodyNoSections(lines, UnreleasedText(lines).value);
    MergedNoSections(UnreleasedText(lines).value, fragments);
    NewBlocksGood(version, date, body, last);
    HeadsOfNew(version, date, body, last);
    CountReplaced(Before(lines, IsSection), blocks, i, NewBlocks(version, date, body, last), version, date);
  }

  lemma HeadsOfNew(version: string, date: string, body: seq<string>, last: bool)
    ensures var added := NewBlocks(version, date, body, last);
            |added| == 2 && added[0].head == UNRELEASED_HEADING && added[1].head == Heading(version, date)
  {
    hide Heading, UNRELEASED_HEADING;
  }

  lemma OnePlainHeading(lines: seq<string>, version: string, date: string, fragments: Fragments)
    requires Promote(lines, version, date, fragments).Ok?
    ensures UnreleasedCount(lines) == 1
  {
    hide UnreleasedCount, HasSection, SectionBody, Spliced, Reheaded, UnreleasedText, Merged;
  }
}
