// Changelog fragments and the merged release body (release.py), on lines.
module Merging {
  import opened Text
  import opened Blocks
  import opened Sections

  // ----- One fragment as a bullet -----

  predicate StartsBullet(line: string) { |line| >= 2 && (line[0] == '-' || line[0] == '*') && line[1] == ' ' }

  function ContinuedLine(line: string): string
  {
    if Strip(line) != "" && !(line != "" && line[0] == ' ') then "  " + StripRight(line) else StripRight(line)
  }

  function FirstLine(line: string): string
  {
    "- " + StripRight(if StartsBullet(line) then line[2..] else line)
  }

  function Continued(lines: seq<string>): (more: seq<string>)
    ensures |more| == |lines| && forall i :: 0 <= i < |more| ==> more[i] == ContinuedLine(lines[i])
  {
    seq(|lines|, i requires 0 <= i < |lines| => ContinuedLine(lines[i]))
  }

  /** `render_entry` of a text that is not blank. */
  function RenderEntry(text: string): (entry: seq<string>)
    requires Strip(text) != ""
  {
    var lines := SplitLines(Strip(text));
    SplitLinesSome(Strip(text));
    [FirstLine(lines[0])] + Continued(lines[1..])
  }

  lemma SplitLinesSome(s: string)
    requires s != ""
    ensures SplitLines(s) != []
  {
  }

  method Render(text: string) returns (entry: seq<string>)
    requires Strip(text) != ""
    ensures entry == RenderEntry(text)
  {
    hide Strip, SplitLines, FirstLine, ContinuedLine;
    SplitLinesSome(Strip(text));
    var lines := SplitLines(Strip(text));
    entry := [FirstLine(lines[0])];
    for i := 1 to |lines|
      invariant entry == [FirstLine(lines[0])] + Continued(lines[1..])[..i - 1]
    {
      entry := entry + [ContinuedLine(lines[i])];
    }
  }

  predicate RenderedLine(line: string)
  {
    OneLine(line) && (line == "" || line[0] == ' ' || line[0] == '-')
  }

  /** What every rendered entry is like: a bullet first, no heading anywhere, no empty line at the end. */
  ghost predicate Rendered(entry: seq<string>)
  {
    && entry != [] && |entry[0]| >= 2 && entry[0][0] == '-' && entry[0][1] == ' '
    && entry[|entry| - 1] != ""
    && forall line :: line in entry ==> RenderedLine(line)
  }

  lemma ContinuedIsRendered(line: string)
    requires NoBreak(line)
    ensures RenderedLine(ContinuedLine(line))
  {
    var t := StripRight(line);
    assert t == line[..|t|];
    assert IsBreak('\n');
    assert forall c :: c in t ==> c in line;
    if Strip(line) == "" {
      BlankRight(line);
    } else if line != "" && line[0] == ' ' {
      assert t != "" ==> t[0] == line[0];
    }
  }

  lemma {:induction false} AllSpacesRight(s: string)
    requires forall i :: 0 <= i < |s| ==> IsSpace(s[i])
    ensures StripRight(s) == ""
  {
    if s == "" {
    } else {
      AllSpacesRight(s[..|s| - 1]);
    }
  }

  lemma BlankRight(s: string)
    requires Strip(s) == ""
    ensures StripRight(s) == ""
  {
    forall i | 0 <= i < |s| ensures IsSpace(s[i]) {
      if !IsSpace(s[i]) { NotBlank(s, i); }
    }
    AllSpacesRight(s);
  }

  lemma FirstIsRendered(line: string)
    requires NoBreak(line)
    ensures RenderedLine(FirstLine(line)) && |FirstLine(line)| >= 2 && FirstLine(line)[0] == '-' && FirstLine(line)[1] == ' '
  {
    var kept := if StartsBullet(line) then line[2..] else line;
    var t := StripRight(kept);
    assert t == kept[..|t|];
    assert IsBreak('\n');
    assert forall c :: c in t ==> c in line;
  }

  ghost predicate EndsLike(lines: seq<string>, s: string)
  {
    && lines != [] && lines[|lines| - 1] != "" && s != ""
    && lines[|lines| - 1][|lines[|lines| - 1]| - 1] == s[|s| - 1]
  }

  lemma EndsLikeMore(first: string, rest: seq<string>, s: string)
    requires EndsLike(rest, s)
    ensures EndsLike([first] + rest, s)
  {
  }

  /** The last line of a stripped text ends with the text's last character. */
  lemma {:induction false} LastLine(s: string)
    requires s != "" && !IsSpace(s[|s| - 1])
    ensures EndsLike(SplitLines(s), s)
    decreases |s|
  {
    hide IsSpace, IsBreak, NoBreak, FirstBreak, BreakLength;
    var n := FirstBreak(s);
    if n == |s| {
      assert SplitLines(s) == [s];
    } else {
      var rest := AfterBreak(s, n);
      if rest == "" {
        BreakAtEnd(s, n);
      }
      assert rest[|rest| - 1] == s[|s| - 1];
      LastLine(rest);
      EndsLikeMore(s[..n], SplitLines(rest), s);
    }
  }

  lemma BreakAtEnd(s: string, n: nat)
    requires n < |s| && IsBreak(s[n]) && AfterBreak(s, n) == ""
    ensures IsSpace(s[|s| - 1])
  {
  }

  lemma NotBlankLine(line: string)
    requires line != "" && !IsSpace(line[|line| - 1])
    ensures Strip(line) != "" && StripRight(line) == line
  {
    NotBlank(line, |line| - 1);
  }

  /** No line of a rendered fragment is a section or group heading. */
  lemma RenderedEntry(text: string)
    requires Strip(text) != ""
    ensures Rendered(RenderEntry(text))
    ensures forall line :: line in RenderEntry(text) ==> !IsSection(line) && !IsGroup(line)
  {
    hide Strip, ContinuedLine, FirstLine, StripRight, IsSection, SplitLines, RenderedLine, IsSpace;
    var s := Strip(text);
    StripGivesStripped(text);
    SplitLinesSome(s);
    var lines, entry := SplitLines(s), RenderEntry(text);
    LastLine(s);
    FirstIsRendered(lines[0]);
    forall i | 0 <= i < |entry| ensures RenderedLine(entry[i]) {
      if i > 0 { ContinuedIsRendered(lines[i]); }
    }
    if |lines| > 1 { LastContinued(lines[|lines| - 1]); }
    forall line | line in entry ensures !IsSection(line) && !IsGroup(line) {
      NotHeading(line);
    }
  }

  lemma LastContinued(line: string)
    requires line != "" && !IsSpace(line[|line| - 1])
    ensures ContinuedLine(line) != ""
  {
    NotBlankLine(line);
  }

  lemma NotHeading(line: string)
    requires RenderedLine(line)
    ensures !IsSection(line) && !IsGroup(line)
  {
    hide OneLine;
  }

  // ----- Groups -----

  predicate IsGroup(line: string)
  {
    |line| > 4 && line[0] == '#' && line[1] == '#' && line[2] == '#' && line[3] == ' '
  }

  function KeyOf(line: string): string
    requires IsGroup(line)
  {
    Strip(line[4..])
  }

  /** A dict in insertion order. */
  datatype Groups = Groups(keys: seq<string>, texts: map<string, seq<string>>)

  function AddGroup(groups: Groups, block: Block): Groups
    requires IsGroup(block.head)
  {
    var key, text := KeyOf(block.head), Trimmed(block.body);
    if key in groups.texts then groups.(texts := groups.texts[key := groups.texts[key] + text])
    else Groups(groups.keys + [key], groups.texts[key := text])
  }

  function GroupsOf(blocks: seq<Block>): Groups
    requires forall i :: 0 <= i < |blocks| ==> IsGroup(blocks[i].head)
  {
    if blocks == [] then Groups([], map[])
    else AddGroup(GroupsOf(blocks[..|blocks| - 1]), blocks[|blocks| - 1])
  }

  ghost predicate GroupHeads(blocks: seq<Block>) { forall i :: 0 <= i < |blocks| ==> IsGroup(blocks[i].head) }

  lemma HeadsAreGroups(lines: seq<string>)
    ensures GroupHeads(BlocksOf(lines, IsGroup))
  {
    hide IsGroup;
    SplitFlat(lines, IsGroup);
    var blocks := BlocksOf(lines, IsGroup);
    assert forall i :: 0 <= i < |blocks| ==> GoodBlock(blocks[i], IsGroup);
  }

  /** `_split_groups`: the text before the first group, and the groups. */
  function SplitGroups(lines: seq<string>): (seq<string>, Groups)
  {
    HeadsAreGroups(lines);
    (Trimmed(Before(lines, IsGroup)), GroupsOf(BlocksOf(lines, IsGroup)))
  }

  method SplitBody(lines: seq<string>) returns (preamble: seq<string>, groups: Groups)
    ensures (preamble, groups) == SplitGroups(lines)
  {
    hide IsGroup, KeyOf, AddGroup, Trimmed, BlocksOf, Before;
    HeadsAreGroups(lines);
    var blocks := BlocksOf(lines, IsGroup);
    groups := Groups([], map[]);
    for i := 0 to |blocks|
      invariant groups == GroupsOf(blocks[..i])
    {
      assert blocks[..i + 1][..i] == blocks[..i];
      groups := AddGroup(groups, blocks[i]);
    }
    assert blocks[..|blocks|] == blocks;
    preamble := Trimmed(Before(lines, IsGroup));
  }

  // ----- The merged body -----

  const TYPES: seq<string> := ["added", "changed", "deprecated", "removed", "fixed", "security"]
  const ORDER: seq<string> := ["Added", "Changed", "Deprecated", "Removed", "Fixed", "Security"]

  function LowerChar(c: char): char { if 'A' <= c <= 'Z' then (c as int + 32) as char else c }

  /** `heading.lower()` for the headings of ORDER. */
  function Lower(s: string): (t: string)
    ensures |t| == |s| && forall i :: 0 <= i < |t| ==> t[i] == LowerChar(s[i])
  {
    seq(|s|, i requires 0 <= i < |s| => LowerChar(s[i]))
  }

  /** ORDER is TYPES capitalized: the headings and the fragment types belong together one by one. */
  lemma OrderIsTypes()
    ensures forall i :: 0 <= i < 6 ==> Lower(ORDER[i]) == TYPES[i]
    ensures forall i, j :: 0 <= i < j < 6 ==> ORDER[i] != ORDER[j] && TYPES[i] != TYPES[j]
  {
    assert Lower("Added") == "added" && Lower("Changed") == "changed" && Lower("Deprecated") == "deprecated";
    assert Lower("Removed") == "removed" && Lower("Fixed") == "fixed" && Lower("Security") == "security";
    assert "Changed"[0] == 'C' && "Removed"[0] == 'R' && "changed"[0] == 'c' && "removed"[0] == 'r';
    assert "Added"[0] == 'A' && "Fixed"[0] == 'F' && "added"[0] == 'a' && "fixed"[0] == 'f';
    assert |"Changed"| == 7 && |"Removed"| == 7 && |"Added"| == 5 && |"Fixed"| == 5 && |"Deprecated"| == 10 && |"Security"| == 8;
    assert |"changed"| == 7 && |"removed"| == 7 && |"added"| == 5 && |"fixed"| == 5 && |"deprecated"| == 10 && |"security"| == 8;
  }

  /** The rendered entries by fragment type, as `read_fragments` returns them. */
  type Fragments = map<string, seq<seq<string>>>

  datatype Group = Group(heading: string, lines: seq<string>)

  function Concat(pieces: seq<seq<string>>): seq<string>
  {
    if pieces == [] then [] else pieces[0] + Concat(pieces[1..])
  }

  function Entries(fragments: Fragments, heading: string): seq<seq<string>>
  {
    if heading in ORDER && Lower(heading) in fragments then fragments[Lower(heading)] else []
  }

  function Legacy(texts: map<string, seq<string>>, heading: string): seq<seq<string>>
  {
    if heading in texts then [texts[heading]] else []
  }

  /** The hand-written text of a heading first, then its fragments. */
  function Pieces(texts: map<string, seq<string>>, fragments: Fragments, heading: string): seq<seq<string>>
  {
    Legacy(texts, heading) + Entries(fragments, heading)
  }

  /** The groups that have something in them, in the order of the headings. */
  function InOrder(headings: seq<string>, texts: map<string, seq<string>>, fragments: Fragments): seq<Group>
  {
    if headings == [] then []
    else
      var rest := InOrder(headings[1..], texts, fragments);
      if Pieces(texts, fragments, headings[0]) == [] then rest
      else [Group(headings[0], Concat(Pieces(texts, fragments, headings[0])))] + rest
  }

  /** The headings that are not in ORDER. */
  function Others(keys: seq<string>): seq<string>
  {
    if keys == [] then [] else if keys[0] in ORDER then Others(keys[1..]) else [keys[0]] + Others(keys[1..])
  }

  function Headings(groups: Groups): seq<string> { ORDER + Others(groups.keys) }

  function Listed(groups: Groups, fragments: Fragments): seq<Group>
  {
    InOrder(Headings(groups), groups.texts, fragments)
  }

  predicate Blank(lines: seq<string>) { forall line :: line in lines ==> Strip(line) == "" }

  function HeadOf(heading: string): string { "### " + heading }

  function GroupChunks(listed: seq<Group>): (chunks: seq<seq<string>>)
    ensures |chunks| == |listed|
    ensures forall i :: 0 <= i < |chunks| ==> chunks[i] == [HeadOf(listed[i].heading)] + listed[i].lines
  {
    seq(|listed|, i requires 0 <= i < |listed| => [HeadOf(listed[i].heading)] + listed[i].lines)
  }

  function PreambleChunks(preamble: seq<string>): seq<seq<string>> { if Blank(preamble) then [] else [preamble] }

  /** The lines of `"\n\n".join(chunks) + "\n"`: an empty line after every chunk. */
  function Ended(chunks: seq<seq<string>>): seq<string>
  {
    if chunks == [] then ["", ""] else AllEnded(chunks)
  }

  function AllEnded(chunks: seq<seq<string>>): seq<string>
  {
    if chunks == [] then [] else chunks[0] + [""] + AllEnded(chunks[1..])
  }

  /** `merge_release_body`, as the lines of its text. */
  function Merged(unreleased: seq<string>, fragments: Fragments): seq<string>
  {
    var (preamble, groups) := SplitGroups(unreleased);
    Ended(PreambleChunks(preamble) + GroupChunks(Listed(groups, fragments)))
  }

  lemma InOrderStep(headings: seq<string>, texts: map<string, seq<string>>, fragments: Fragments, n: nat)
    requires n < |headings|
    ensures InOrder(headings[n..], texts, fragments)
         == if Pieces(texts, fragments, headings[n]) == [] then InOrder(headings[n + 1..], texts, fragments)
            else [Group(headings[n], Concat(Pieces(texts, fragments, headings[n])))] + InOrder(headings[n + 1..], texts, fragments)
  {
    hide Pieces, Concat;
    assert headings[n..][1..] == headings[n + 1..];
  }

  /** Chunks so far, and the groups still to come. */
  ghost predicate Building(first: seq<seq<string>>, chunks: seq<seq<string>>, rest: seq<Group>, listed: seq<Group>)
  {
    chunks + GroupChunks(rest) == first + GroupChunks(listed)
  }

  lemma BuildStep(first: seq<seq<string>>, chunks: seq<seq<string>>, group: Group, rest: seq<Group>, listed: seq<Group>)
    requires Building(first, chunks, [group] + rest, listed)
    ensures Building(first, chunks + [[HeadOf(group.heading)] + group.lines], rest, listed)
  {
    hide HeadOf;
    assert GroupChunks([group] + rest) == [[HeadOf(group.heading)] + group.lines] + GroupChunks(rest);
  }

  lemma BuildEnd(first: seq<seq<string>>, chunks: seq<seq<string>>, listed: seq<Group>)
    ensures Building(first, first, listed, listed)
    ensures Building(first, chunks, [], listed) ==> chunks == first + GroupChunks(listed)
  {
    assert GroupChunks([]) == [];
    assert chunks + [] == chunks;
  }

  /** The loop of `merge_release_body`. */
  method AddChunks(headings: seq<string>, texts: map<string, seq<string>>, fragments: Fragments, first: seq<seq<string>>)
    returns (chunks: seq<seq<string>>)
    ensures chunks == first + GroupChunks(InOrder(headings, texts, fragments))
  {
    hide Pieces, Concat, InOrder, HeadOf, GroupChunks, Building;
    ghost var listed := InOrder(headings, texts, fragments);
    chunks := first;
    BuildEnd(first, chunks, listed);
    assert headings[0..] == headings;
    for i := 0 to |headings|
      invariant Building(first, chunks, InOrder(headings[i..], texts, fragments), listed)
    {
      InOrderStep(headings, texts, fragments, i);
      var heading := headings[i];
      var pieces := Pieces(texts, fragments, heading);
      if pieces != [] {
        BuildStep(first, chunks, Group(heading, Concat(pieces)), InOrder(headings[i + 1..], texts, fragments), listed);
        chunks := chunks + [[HeadOf(heading)] + Concat(pieces)];
      }
    }
    InOrderNone(texts, fragments);
    assert headings[|headings|..] == [];
    BuildEnd(first, chunks, listed);
  }

  /** `merge_release_body`. */
  method MergeReleaseBody(unreleased: seq<string>, fragments: Fragments) returns (body: seq<string>)
    ensures body == Merged(unreleased, fragments)
  {
    hide PreambleChunks, Ended, InOrder, SplitGroups, Others;
    var preamble, groups := SplitBody(unreleased);
    var chunks := AddChunks(Headings(groups), groups.texts, fragments, PreambleChunks(preamble));
    body := Ended(chunks);
  }

  lemma InOrderNone(texts: map<string, seq<string>>, fragments: Fragments)
    ensures InOrder([], texts, fragments) == []
  {
  }

  // ----- Against the strings: `"\n\n".join(chunks) + "\n"` -----

  function JoinBlank(texts: seq<string>): string
  {
    if texts == [] then "" else if |texts| == 1 then texts[0] else texts[0] + "\n\n" + JoinBlank(texts[1..])
  }

  function Joined(chunks: seq<seq<string>>): (texts: seq<string>)
    ensures |texts| == |chunks| && forall i :: 0 <= i < |texts| ==> texts[i] == Join(chunks[i])
  {
    seq(|chunks|, i requires 0 <= i < |chunks| => Join(chunks[i]))
  }

  lemma {:induction false} JoinAppend(a: seq<string>, b: seq<string>)
    requires a != [] && b != []
    ensures Join(a + b) == Join(a) + "\n" + Join(b)
  {
    hide Join;
    LineOfOne(a[0]);
    JoinFront(a[0], a[1..] + b);
    assert a + b == [a[0]] + (a[1..] + b) && a == [a[0]] + a[1..];
    if |a| == 1 {
      assert a[1..] + b == b && a == [a[0]];
    } else {
      JoinAppend(a[1..], b);
      JoinFront(a[0], a[1..]);
      assert a[0] + "\n" + (Join(a[1..]) + "\n" + Join(b)) == a[0] + "\n" + Join(a[1..]) + "\n" + Join(b);
    }
  }

  lemma JoinEnds(chunk: seq<string>)
    requires chunk != []
    ensures Join(chunk + [""]) == Join(chunk) + "\n"
  {
    JoinAppend(chunk, [""]);
    assert Join(chunk) + "\n" + "" == Join(chunk) + "\n";
  }

  /** The lines of the merged body are the lines of the joined chunks. */
  lemma {:induction false} EndedIsJoined(chunks: seq<seq<string>>)
    requires forall i :: 0 <= i < |chunks| ==> chunks[i] != []
    ensures Join(Ended(chunks)) == JoinBlank(Joined(chunks)) + "\n"
  {
    hide Join;
    if chunks == [] {
      JoinEnds([""]);
      assert [""] + [""] == ["", ""];
      LineOfOne("");
    } else {
      var first, rest := chunks[0], chunks[1..];
      JoinEnds(first);
      if rest == [] {
        assert AllEnded(rest) == [];
        assert AllEnded(chunks) == first + [""] + [] == first + [""];
        assert JoinBlank(Joined(chunks)) == Joined(chunks)[0] == Join(first);
      } else {
        EndedIsJoined(rest);
        JoinAppend(first + [""], AllEnded(rest));
        assert Joined(chunks)[1..] == Joined(rest);
        var tail := JoinBlank(Joined(rest));
        assert Join(first) + "\n" + "\n" + (tail + "\n") == Join(first) + "\n\n" + tail + "\n";
      }
    }
  }

  lemma LineOfOne(line: string)
    ensures Join([line]) == line
  {
  }
}
