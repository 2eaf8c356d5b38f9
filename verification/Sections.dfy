// Sections of the changelog: headings, their spans, and the body of one section.
module Sections {
  import opened Prelude
  import opened Text
  import opened Blocks

  datatype Error =
    | NoSection(name: string)
    | EmptySection(name: string)
    | SectionExists(name: string)
    | NotOneUnreleased
    | BadFragment(name: string)
    | NotAVersion(text: string)
    | NoVersionLine
    | Older
    | NeedsOwner
    | TreeNotReady
    | BadDate
    | BadTag
    | TagMismatch
    | FragmentsLeft

  // ----- Headings -----

  /** A line without its trailing blanks and tabs. */
  function TrimBlanks(s: string): (t: string)
    ensures |t| <= |s| && t == s[..|t|] && (t != "" ==> t[|t| - 1] != ' ' && t[|t| - 1] != '\t')
    ensures forall i :: |t| <= i < |s| ==> s[i] == ' ' || s[i] == '\t'
  {
    if s != "" && (s[|s| - 1] == ' ' || s[|s| - 1] == '\t') then TrimBlanks(s[..|s| - 1]) else s
  }

  lemma TrimBlanksIs(s: string, t: string)
    requires |t| <= |s| && t == s[..|t|] && (t != "" ==> t[|t| - 1] != ' ' && t[|t| - 1] != '\t')
    requires forall i :: |t| <= i < |s| ==> s[i] == ' ' || s[i] == '\t'
    ensures TrimBlanks(s) == t
  {
    var r := TrimBlanks(s);
    assert t != "" ==> s[|t| - 1] == t[|t| - 1];
    assert r != "" ==> s[|r| - 1] == r[|r| - 1];
  }

  function FirstBracket(s: string): (n: nat)
    ensures n <= |s| && (n < |s| ==> s[n] == ']') && forall i :: 0 <= i < n ==> s[i] != ']'
  {
    if s == "" || s[0] == ']' then 0 else 1 + FirstBracket(s[1..])
  }

  /** YYYY-MM-DD: digits and hyphens in their places. */
  predicate DateForm(d: string)
  {
    |d| == 10 && d[4] == '-' && d[7] == '-' && forall i :: 0 <= i < 10 && i != 4 && i != 7 ==> IsDigit(d[i])
  }

  predicate DateSuffix(t: string) { |t| == 13 && t[0] == ' ' && t[1] == '-' && t[2] == ' ' && DateForm(t[3..]) }

  predicate Opens(line: string) { |line| >= 4 && line[0] == '#' && line[1] == '#' && line[2] == ' ' && line[3] == '[' }

  /** SECTION_HEADING on one line: the name between the brackets, then an optional date, then blanks. */
  function SectionName(line: string): Option<string>
  {
    if !Opens(line) then None
    else
      var n := FirstBracket(line[4..]);
      if n == 0 || n == |line| - 4 then None
      else
        var tail := TrimBlanks(line[5 + n..]);
        if tail == "" || DateSuffix(tail) then Some(line[4..4 + n]) else None
  }

  predicate IsSection(line: string) { SectionName(line).Some? }

  const UNRELEASED := "Unreleased"
  const UNRELEASED_HEADING := "## [Unreleased]"

  /** UNRELEASED_HEADING on one line: no date allowed. */
  predicate IsUnreleased(line: string) { TrimBlanks(line) == UNRELEASED_HEADING }

  function Heading(version: string, date: string): string { "## [" + version + "] - " + date }

  lemma SectionNameIs(line: string, name: string, tail: string)
    requires line == "## [" + name + "]" + tail && name != "" && ']' !in name
    requires TrimBlanks(tail) == "" || DateSuffix(TrimBlanks(tail))
    ensures SectionName(line) == Some(name)
  {
    hide TrimBlanks, DateSuffix;
    var rest := line[4..];
    assert rest == name + "]" + tail;
    assert forall i :: 0 <= i < |name| ==> rest[i] == name[i] && name[i] in name;
    assert rest[|name|] == ']';
    assert FirstBracket(rest) == |name|;
    assert line[5 + |name|..] == tail && line[4..4 + |name|] == name;
  }

  lemma HeadingName(version: string, date: string)
    requires version != "" && ']' !in version && DateForm(date)
    ensures SectionName(Heading(version, date)) == Some(version) && !IsUnreleased(Heading(version, date))
  {
    var tail := " - " + date;
    assert tail[3..] == date;
    assert tail[12] == date[9] && IsDigit(date[9]);
    TrimBlanksIs(tail, tail);
    assert Heading(version, date) == "## [" + version + "]" + tail by {
      assert "] - " == "]" + " - ";
    }
    SectionNameIs(Heading(version, date), version, tail);
    var line := Heading(version, date);
    assert line[|line| - 1] == date[9];
    TrimBlanksIs(line, line);
    assert UNRELEASED_HEADING[14] == ']';
  }

  lemma UnreleasedName(line: string)
    requires IsUnreleased(line)
    ensures SectionName(line) == Some(UNRELEASED)
  {
    var tail := line[15..];
    TrimBlanksIs(tail, "");
    assert line == UNRELEASED_HEADING + tail;
    assert UNRELEASED_HEADING == "## [" + UNRELEASED + "]";
    SectionNameIs(line, UNRELEASED, tail);
  }

  lemma PlainUnreleased()
    ensures IsUnreleased(UNRELEASED_HEADING)
  {
    assert UNRELEASED_HEADING[14] == ']';
    TrimBlanksIs(UNRELEASED_HEADING, UNRELEASED_HEADING);
  }

  // ----- Sections -----

  function SectionsOf(lines: seq<string>): (blocks: seq<Block>)
  {
    BlocksOf(lines, IsSection)
  }

  /** The name between the brackets of a section heading. */
  function NameOf(head: string): string
  {
    match SectionName(head)
    case Some(name) => name
    case None => ""
  }

  datatype Span = Span(name: string, start: nat, end: nat)

  /** The section headings from line i on. */
  function HeadingLines(lines: seq<string>, i: nat): (at: seq<nat>)
    requires i <= |lines|
    ensures forall k :: 0 <= k < |at| ==> i <= at[k] < |lines|
    decreases |lines| - i
  {
    if i == |lines| then []
    else if IsSection(lines[i]) then [i] + HeadingLines(lines, i + 1)
    else HeadingLines(lines, i + 1)
  }

  function SpanAt(lines: seq<string>, at: seq<nat>, i: nat): Span
    requires i < |at| && forall k :: 0 <= k < |at| ==> at[k] < |lines|
  {
    Span(NameOf(lines[at[i]]), at[i], if i + 1 < |at| then at[i + 1] else |lines|)
  }

  function SpansOf(lines: seq<string>, at: seq<nat>): (spans: seq<Span>)
    requires forall k :: 0 <= k < |at| ==> at[k] < |lines|
    ensures |spans| == |at| && forall i :: 0 <= i < |spans| ==> spans[i] == SpanAt(lines, at, i)
  {
    seq(|at|, i requires 0 <= i < |at| => SpanAt(lines, at, i))
  }

  /** `_sections`: heading name, heading line, and the line the section ends before. */
  function Spans(lines: seq<string>): seq<Span> { SpansOf(lines, HeadingLines(lines, 0)) }

  /** `SECTION_HEADING.finditer`. */
  method FindHeadings(lines: seq<string>) returns (matches: seq<nat>)
    ensures matches == HeadingLines(lines, 0)
  {
    hide IsSection;
    matches := [];
    for i := 0 to |lines|
      invariant matches + HeadingLines(lines, i) == HeadingLines(lines, 0)
    {
      if IsSection(lines[i]) { matches := matches + [i]; }
    }
  }

  method FindSections(lines: seq<string>) returns (spans: seq<Span>)
    ensures spans == Spans(lines)
  {
    hide NameOf, HeadingLines;
    var matches := FindHeadings(lines);
    spans := [];
    for index := 0 to |matches|
      invariant spans == SpansOf(lines, matches)[..index]
    {
      var end := if index + 1 < |matches| then matches[index + 1] else |lines|;
      spans := spans + [Span(NameOf(lines[matches[index]]), matches[index], end)];
    }
  }

  lemma {:induction false} SkipLines(lines: seq<string>, i: nat, body: seq<string>, rest: seq<string>)
    requires i <= |lines| && lines[i..] == body + rest && NoHead(body, IsSection)
    ensures HeadingLines(lines, i) == HeadingLines(lines, i + |body|)
    decreases |body|
  {
    if body == [] {
    } else {
      assert lines[i] == lines[i..][0] == body[0] && body[0] in body;
      assert lines[i + 1..] == lines[i..][1..] == body[1..] + rest;
      assert NoHead(body[1..], IsSection) by { assert forall line :: line in body[1..] ==> line in body; }
      SkipLines(lines, i + 1, body[1..], rest);
    }
  }

  lemma SkipBlock(lines: seq<string>, i: nat, block: Block, rest: seq<string>)
    requires i <= |lines| && lines[i..] == [block.head] + block.body + rest && GoodBlock(block, IsSection)
    ensures i + 1 + |block.body| <= |lines| && lines[i + 1 + |block.body|..] == rest
    ensures HeadingLines(lines, i) == [i] + HeadingLines(lines, i + 1 + |block.body|)
  {
    hide IsSection;
    assert lines[i] == lines[i..][0] == block.head;
    assert lines[i + 1..] == lines[i..][1..] == block.body + rest;
    SkipLines(lines, i + 1, block.body, rest);
    assert lines[i + 1 + |block.body|..] == lines[i + 1..][|block.body|..];
  }

  function Starts(from: nat, blocks: seq<Block>): (at: seq<nat>)
    ensures |at| == |blocks| && forall i :: 0 <= i < |at| ==> at[i] == from + |Flat(blocks[..i])|
  {
    seq(|blocks|, i requires 0 <= i < |blocks| => from + |Flat(blocks[..i])|)
  }

  lemma FlatLength(block: Block, blocks: seq<Block>)
    ensures |Flat([block] + blocks)| == 1 + |block.body| + |Flat(blocks)|
  {
    assert ([block] + blocks)[1..] == blocks;
  }

  lemma StartsStep(from: nat, blocks: seq<Block>)
    requires blocks != []
    ensures Starts(from, blocks) == [from] + Starts(from + 1 + |blocks[0].body|, blocks[1..])
  {
    var rest := blocks[1..];
    forall i | 0 < i < |blocks| ensures |Flat(blocks[..i])| == 1 + |blocks[0].body| + |Flat(rest[..i - 1])| {
      assert blocks[..i] == [blocks[0]] + rest[..i - 1];
      FlatLength(blocks[0], rest[..i - 1]);
    }
    assert blocks[..0] == [];
  }

  lemma {:induction false} HeadingLinesOf(lines: seq<string>, i: nat, blocks: seq<Block>)
    requires i <= |lines| && lines[i..] == Flat(blocks) && GoodBlocks(blocks, IsSection)
    ensures HeadingLines(lines, i) == Starts(i, blocks)
    decreases |blocks|
  {
    hide IsSection, GoodBlock;
    if blocks == [] {
      assert i == |lines|;
    } else {
      var first, rest := blocks[0], blocks[1..];
      assert GoodBlock(first, IsSection);
      assert GoodBlocks(rest, IsSection) by { assert forall k :: 0 <= k < |rest| ==> rest[k] == blocks[k + 1]; }
      SkipBlock(lines, i, first, Flat(rest));
      HeadingLinesOf(lines, i + 1 + |first.body|, rest);
      StartsStep(i, blocks);
    }
  }

  lemma SpanIsBlock(lines: seq<string>, before: seq<string>, blocks: seq<Block>, i: nat)
    requires i < |blocks| && lines == before + Flat(blocks)
    requires forall k :: 0 <= k < |blocks| ==> Starts(|before|, blocks)[k] < |lines|
    ensures var span := SpanAt(lines, Starts(|before|, blocks), i);
            && span.name == NameOf(blocks[i].head)
            && span.start == |before| + |Flat(blocks[..i])| && span.end == |before| + |Flat(blocks[..i + 1])|
            && span.start < span.end <= |lines|
            && lines[span.start..span.end] == [blocks[i].head] + blocks[i].body
  {
    hide NameOf, Flat;
    BlockAt(before, blocks, i, lines);
    assert i + 1 == |blocks| ==> blocks[..i + 1] == blocks;
  }

  ghost predicate SpanFits(lines: seq<string>, before: seq<string>, blocks: seq<Block>, i: nat, span: Span)
    requires i < |blocks|
  {
    && span.name == NameOf(blocks[i].head)
    && span.start == |before| + |Flat(blocks[..i])| && span.end == |before| + |Flat(blocks[..i + 1])|
    && span.start < span.end <= |lines|
    && lines[span.start..span.end] == [blocks[i].head] + blocks[i].body
  }

  /** The spans are the sections one after the other, the first one after the text before all headings. */
  lemma SpansAreBlocks(lines: seq<string>)
    ensures |Spans(lines)| == |SectionsOf(lines)|
    ensures forall i :: 0 <= i < |Spans(lines)| ==>
              SpanFits(lines, Before(lines, IsSection), SectionsOf(lines), i, Spans(lines)[i])
  {
    hide IsSection, NameOf, Flat;
    var before, blocks, spans := Before(lines, IsSection), SectionsOf(lines), Spans(lines);
    SplitFlat(lines, IsSection);
    SkipLines(lines, 0, before, Flat(blocks));
    assert lines[|before|..] == Flat(blocks);
    HeadingLinesOf(lines, |before|, blocks);
    forall i | 0 <= i < |spans| ensures SpanFits(lines, before, blocks, i, spans[i]) {
      SpanIsBlock(lines, before, blocks, i);
    }
  }

  lemma BlockAt(before: seq<string>, blocks: seq<Block>, i: nat, lines: seq<string>)
    requires i < |blocks| && lines == before + Flat(blocks)
    ensures var start, end := |before| + |Flat(blocks[..i])|, |before| + |Flat(blocks[..i + 1])|;
            && start < end <= |lines| && lines[start..end] == [blocks[i].head] + blocks[i].body
            && lines[start] == blocks[i].head
            && lines[..start] == before + Flat(blocks[..i]) && lines[end..] == Flat(blocks[i + 1..])
  {
    var a, b, c := blocks[..i], [blocks[i]], blocks[i + 1..];
    assert blocks == a + b + c && blocks[..i + 1] == a + b;
    FlatAppend(a + b, c);
    FlatAppend(a, b);
    assert b[1..] == [] && Flat(b) == [blocks[i].head] + blocks[i].body + [];
    assert lines == before + Flat(a) + Flat(b) + Flat(c);
  }
}
