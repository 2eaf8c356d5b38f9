// What merging keeps: the merged body holds every hand-written text and every fragment once, under its heading.
module MergeLaws {
  import opened Text
  import opened Blocks
  import opened Sections
  import opened Merging

  // ----- The groups of a body -----

  ghost predicate DistinctKeys(keys: seq<string>) { forall i, j :: 0 <= i < j < |keys| ==> keys[i] != keys[j] }

  /** A group text: some lines of the body, none of them a group heading. */
  ghost predicate GoodText(text: seq<string>, lines: seq<string>)
  {
    text != [] && forall line :: line in text ==> !IsGroup(line) && (line == "" || line in lines)
  }

  ghost predicate GoodGroups(groups: Groups, lines: seq<string>)
  {
    && DistinctKeys(groups.keys) && (forall key :: key in groups.keys <==> key in groups.texts)
    && (forall key :: key in groups.texts ==> GoodText(groups.texts[key], lines) && Stripped(key))
  }

  ghost predicate GoodBody(block: Block, lines: seq<string>)
  {
    IsGroup(block.head) && forall line :: line in block.body ==> !IsGroup(line) && line in lines
  }

  lemma AddGroupGood(groups: Groups, block: Block, lines: seq<string>)
    requires GoodGroups(groups, lines) && GoodBody(block, lines)
    ensures GoodGroups(AddGroup(groups, block), lines)
  {
    hide Trimmed, Strip, Stripped;
    var key, text, now := KeyOf(block.head), Trimmed(block.body), AddGroup(groups, block);
    StripGivesStripped(block.head[4..]);
    TrimmedIsTidy(block.body);
    EmptyIsNoGroup();
    assert GoodText(text, lines);
    if key in groups.texts {
      assert GoodText(groups.texts[key], lines);
      assert GoodText(groups.texts[key] + text, lines);
    }
  }

  lemma EmptyIsNoGroup()
    ensures !IsGroup("")
  {
  }

  lemma {:induction false} GroupsOfGood(blocks: seq<Block>, lines: seq<string>)
    requires GroupHeads(blocks) && forall i :: 0 <= i < |blocks| ==> GoodBody(blocks[i], lines)
    ensures GoodGroups(GroupsOf(blocks), lines)
  {
    hide AddGroup;
    if blocks == [] {
    } else {
      GroupsOfGood(blocks[..|blocks| - 1], lines);
      AddGroupGood(GroupsOf(blocks[..|blocks| - 1]), blocks[|blocks| - 1], lines);
    }
  }

  lemma {:induction false} FlatHolds(blocks: seq<Block>, i: nat, line: string)
    requires i < |blocks| && line in blocks[i].body
    ensures line in Flat(blocks)
  {
    if i == 0 {
    } else {
      FlatHolds(blocks[1..], i - 1, line);
    }
  }

  lemma SplitIsGood(lines: seq<string>)
    ensures var (preamble, groups) := SplitGroups(lines);
            GoodGroups(groups, lines) && GoodText(preamble, lines) && Tidy(preamble)
  {
    hide IsGroup, GroupsOf, Before, BlocksOf, Trimmed, Flat, Tidy;
    var before, blocks := Before(lines, IsGroup), BlocksOf(lines, IsGroup);
    SplitFlat(lines, IsGroup);
    HeadsAreGroups(lines);
    forall i | 0 <= i < |blocks| ensures GoodBody(blocks[i], lines) {
      assert GoodBlock(blocks[i], IsGroup);
      forall line | line in blocks[i].body ensures !IsGroup(line) && line in lines {
        FlatHolds(blocks, i, line);
        assert line in before + Flat(blocks);
      }
    }
    GroupsOfGood(blocks, lines);
    TrimmedIsTidy(before);
    EmptyIsNoGroup();
    forall line | line in Trimmed(before) ensures !IsGroup(line) && (line == "" || line in lines) {
      if line in before { assert line in before + Flat(blocks); }
    }
  }

  // ----- The merged groups -----

  /** What `read_fragments` returns: known types, and for each at least one rendered entry. */
  ghost predicate GoodFragments(fragments: Fragments)
  {
    forall t :: t in fragments ==> t in TYPES && fragments[t] != [] && forall e :: e in fragments[t] ==> Rendered(e)
  }

  /** Lines a merged group can hold. */
  ghost predicate FromBody(line: string, lines: seq<string>)
  {
    !IsGroup(line) && (line == "" || line in lines || !IsSection(line))
  }

  ghost predicate GoodLines(text: seq<string>, lines: seq<string>)
  {
    text != [] && forall line :: line in text ==> FromBody(line, lines)
  }

  lemma {:induction false} ConcatGood(pieces: seq<seq<string>>, lines: seq<string>)
    requires pieces != [] && forall piece :: piece in pieces ==> GoodLines(piece, lines)
    ensures GoodLines(Concat(pieces), lines)
  {
    hide FromBody;
    assert pieces[0] in pieces;
    if |pieces| > 1 {
      assert forall piece :: piece in pieces[1..] ==> piece in pieces;
      ConcatGood(pieces[1..], lines);
    } else {
      assert Concat(pieces[1..]) == [];
    }
  }

  lemma RenderedIsGood(entry: seq<string>, lines: seq<string>)
    requires Rendered(entry)
    ensures GoodLines(entry, lines)
  {
    hide IsGroup, IsSection, RenderedLine;
    forall line | line in entry ensures FromBody(line, lines) { NotHeading(line); }
  }

  lemma PiecesGood(groups: Groups, fragments: Fragments, heading: string, lines: seq<string>)
    requires GoodGroups(groups, lines) && GoodFragments(fragments)
    ensures forall piece :: piece in Pieces(groups.texts, fragments, heading) ==> GoodLines(piece, lines)
  {
    hide IsGroup, IsSection, Rendered, Lower;
    forall piece | piece in Pieces(groups.texts, fragments, heading) ensures GoodLines(piece, lines) {
      if piece in Legacy(groups.texts, heading) {
        assert GoodText(groups.texts[heading], lines);
      } else {
        assert piece in fragments[Lower(heading)];
        RenderedIsGood(piece, lines);
      }
    }
  }

  ghost predicate GoodListed(listed: seq<Group>, headings: seq<string>, lines: seq<string>)
  {
    && (forall i :: 0 <= i < |listed| ==> listed[i].heading in headings && GoodLines(listed[i].lines, lines))
    && forall i, j :: 0 <= i < j < |listed| ==> listed[i].heading != listed[j].heading
  }

  lemma DistinctTail(keys: seq<string>)
    requires keys != [] && DistinctKeys(keys)
    ensures DistinctKeys(keys[1..]) && keys[0] !in keys[1..]
  {
    var rest := keys[1..];
    forall i | 0 <= i < |rest| ensures rest[i] != keys[0] {
      assert rest[i] == keys[i + 1];
    }
  }

  lemma {:induction false} InOrderGood(headings: seq<string>, groups: Groups, fragments: Fragments, lines: seq<string>)
    requires DistinctKeys(headings) && GoodGroups(groups, lines) && GoodFragments(fragments)
    ensures GoodListed(InOrder(headings, groups.texts, fragments), headings, lines)
  {
    hide GoodGroups, GoodFragments, Pieces, GoodLines, Concat;
    if headings == [] {
    } else {
      var h, rest := headings[0], headings[1..];
      assert headings == [h] + rest;
      DistinctTail(headings);
      InOrderGood(rest, groups, fragments, lines);
      PiecesGood(groups, fragments, h, lines);
      var pieces := Pieces(groups.texts, fragments, h);
      if pieces != [] {
        ConcatGood(pieces, lines);
        PutFirst(Group(h, Concat(pieces)), InOrder(rest, groups.texts, fragments), h, rest, lines);
      } else {
        ListedInMore(InOrder(rest, groups.texts, fragments), h, rest, lines);
      }
    }
  }

  lemma PutFirst(group: Group, listed: seq<Group>, h: string, rest: seq<string>, lines: seq<string>)
    requires GoodListed(listed, rest, lines) && group.heading == h && h !in rest && GoodLines(group.lines, lines)
    ensures GoodListed([group] + listed, [h] + rest, lines)
  {
    hide GoodLines;
  }

  lemma ListedInMore(listed: seq<Group>, h: string, rest: seq<string>, lines: seq<string>)
    requires GoodListed(listed, rest, lines)
    ensures GoodListed(listed, [h] + rest, lines)
  {
    hide GoodLines;
  }

  lemma {:induction false} OthersAre(keys: seq<string>)
    ensures forall key :: key in Others(keys) <==> key in keys && key !in ORDER
    ensures DistinctKeys(keys) ==> DistinctKeys(Others(keys))
  {
    hide *;
    if keys == [] {
      OthersNone(keys);
    } else {
      OthersAre(keys[1..]);
      OthersStep(keys);
    }
  }

  lemma OthersNone(keys: seq<string>)
    requires keys == []
    ensures Others(keys) == [] && DistinctKeys([])
  {
  }

  lemma OthersStep(keys: seq<string>)
    requires keys != []
    requires forall key :: key in Others(keys[1..]) <==> key in keys[1..] && key !in ORDER
    requires DistinctKeys(keys[1..]) ==> DistinctKeys(Others(keys[1..]))
    ensures forall key :: key in Others(keys) <==> key in keys && key !in ORDER
    ensures DistinctKeys(keys) ==> DistinctKeys(Others(keys))
  {
    assert keys == [keys[0]] + keys[1..];
    if DistinctKeys(keys) { DistinctTail(keys); }
  }

  lemma HeadingsDistinct(groups: Groups, lines: seq<string>)
    requires GoodGroups(groups, lines)
    ensures DistinctKeys(Headings(groups))
    ensures forall key :: key in groups.texts ==> key in Headings(groups)
  {
    hide GoodText;
    OrderIsTypes();
    OthersAre(groups.keys);
    var headings, others := Headings(groups), Others(groups.keys);
    forall i, j | 0 <= i < j < |headings| ensures headings[i] != headings[j] {
      if i < 6 && j >= 6 {
        assert headings[i] == ORDER[i] && headings[i] in ORDER;
        assert headings[j] == others[j - 6] && headings[j] in others;
      }
    }
  }

  lemma ListedIsGood(lines: seq<string>, fragments: Fragments)
    requires GoodFragments(fragments)
    ensures var groups := SplitGroups(lines).1; GoodListed(Listed(groups, fragments), Headings(groups), lines)
  {
    hide GoodFragments, GoodGroups, GoodListed, SplitGroups, InOrder, Headings;
    var groups := SplitGroups(lines).1;
    SplitIsGood(lines);
    HeadingsDistinct(groups, lines);
    InOrderGood(Headings(groups), groups, fragments, lines);
  }

  // ----- The merged body as blocks -----

  function GroupBlocks(listed: seq<Group>): (blocks: seq<Block>)
    ensures |blocks| == |listed|
    ensures forall i :: 0 <= i < |blocks| ==> blocks[i] == Block(HeadOf(listed[i].heading), listed[i].lines + [""])
  {
    seq(|listed|, i requires 0 <= i < |listed| => Block(HeadOf(listed[i].heading), listed[i].lines + [""]))
  }

  lemma {:induction false} EndedGroups(listed: seq<Group>)
    ensures AllEnded(GroupChunks(listed)) == Flat(GroupBlocks(listed))
  {
    hide HeadOf;
    if listed == [] {
    } else {
      EndedGroups(listed[1..]);
      assert GroupChunks(listed)[1..] == GroupChunks(listed[1..]);
      assert GroupBlocks(listed)[1..] == GroupBlocks(listed[1..]);
      var head, body := HeadOf(listed[0].heading), listed[0].lines;
      assert [head] + body + [""] == [head] + (body + [""]);
    }
  }

  /** The lines of the merged body before its first group. */
  function MergedFront(preamble: seq<string>, listed: seq<Group>): seq<string>
  {
    if !Blank(preamble) then preamble + [""] else if listed == [] then ["", ""] else []
  }

  lemma MergedIsFlat(preamble: seq<string>, listed: seq<Group>)
    ensures Ended(PreambleChunks(preamble) + GroupChunks(listed)) == MergedFront(preamble, listed) + Flat(GroupBlocks(listed))
  {
    hide Blank, Flat;
    EndedGroups(listed);
    var chunks := PreambleChunks(preamble) + GroupChunks(listed);
    if Blank(preamble) {
      assert chunks == GroupChunks(listed);
      FlatNone();
    } else {
      assert chunks == [preamble] + GroupChunks(listed);
      assert chunks[1..] == GroupChunks(listed);
    }
  }

  lemma FlatNone()
    ensures Flat([]) == []
  {
  }

  lemma HeadIsGroup(heading: string)
    requires Stripped(heading)
    ensures IsGroup(HeadOf(heading)) <==> heading != ""
    ensures heading != "" ==> KeyOf(HeadOf(heading)) == heading
    ensures !IsSection(HeadOf(heading))
  {
    hide Strip, Stripped, IsSection;
    assert HeadOf(heading)[4..] == heading;
    assert HeadOf(heading)[2] == '#';
    NotOpening(HeadOf(heading));
    StripGivesStripped(heading);
  }

  lemma NotOpening(line: string)
    requires !Opens(line)
    ensures !IsSection(line)
  {
    hide Opens;
  }

  function HeadingsOf(listed: seq<Group>): (headings: seq<string>)
    ensures |headings| == |listed| && forall i :: 0 <= i < |headings| ==> headings[i] == listed[i].heading
  {
    seq(|listed|, i requires 0 <= i < |listed| => listed[i].heading)
  }

  /** Listed headings are the headings with something under them. */
  lemma {:induction false} ListedHeadings(headings: seq<string>, texts: map<string, seq<string>>, fragments: Fragments)
    ensures forall h :: h in HeadingsOf(InOrder(headings, texts, fragments))
                    <==> h in headings && Pieces(texts, fragments, h) != []
    ensures forall g :: g in InOrder(headings, texts, fragments)
                    ==> g.lines == Concat(Pieces(texts, fragments, g.heading))
  {
    hide Pieces, Concat;
    if headings == [] {
    } else {
      var h, rest := headings[0], InOrder(headings[1..], texts, fragments);
      ListedHeadings(headings[1..], texts, fragments);
      assert headings == [h] + headings[1..];
      if Pieces(texts, fragments, h) != [] {
        var group := Group(h, Concat(Pieces(texts, fragments, h)));
        assert HeadingsOf([group] + rest) == [h] + HeadingsOf(rest);
      }
    }
  }

  lemma OrderPlain()
    ensures forall h :: h in ORDER ==> Stripped(h) && h != ""
  {
    assert "Added"[4] == 'd' && "Changed"[6] == 'd' && "Deprecated"[9] == 'd' && "Removed"[6] == 'd' && "Fixed"[4] == 'd';
    assert "Security"[7] == 'y';
  }

  lemma ListedStripped(lines: seq<string>, fragments: Fragments, i: nat)
    requires GoodFragments(fragments) && i < |Listed(SplitGroups(lines).1, fragments)|
    ensures Stripped(Listed(SplitGroups(lines).1, fragments)[i].heading)
  {
    hide SplitGroups, InOrder, GoodText, Stripped, Others, GoodFragments;
    var groups := SplitGroups(lines).1;
    SplitIsGood(lines);
    OthersAre(groups.keys);
    OrderPlain();
    ListedIsGood(lines, fragments);
    var h := Listed(groups, fragments)[i].heading;
    assert h in Headings(groups);
    if h !in ORDER { assert h in Others(groups.keys); }
  }

  lemma ConcatOne(text: seq<string>)
    ensures Concat([text]) == text
  {
    assert [text][1..] == [];
    assert text + [] == text;
  }

  lemma StripEmptyLine()
    ensures Blank([""])
  {
  }

  // ----- Nothing is lost and nothing is repeated -----

  /** One piece of text under its heading. */
  datatype Piece = Piece(heading: string, lines: seq<string>)

  function Tagged(heading: string, pieces: seq<seq<string>>): (tagged: seq<Piece>)
    ensures |tagged| == |pieces| && forall i :: 0 <= i < |tagged| ==> tagged[i] == Piece(heading, pieces[i])
  {
    seq(|pieces|, i requires 0 <= i < |pieces| => Piece(heading, pieces[i]))
  }

  function LegacyPieces(headings: seq<string>, texts: map<string, seq<string>>): seq<Piece>
  {
    if headings == [] then [] else Tagged(headings[0], Legacy(texts, headings[0])) + LegacyPieces(headings[1..], texts)
  }

  function FragmentPieces(headings: seq<string>, fragments: Fragments): seq<Piece>
  {
    if headings == [] then [] else Tagged(headings[0], Entries(fragments, headings[0])) + FragmentPieces(headings[1..], fragments)
  }

  /** The pieces of the merged body, in the order in which they stand there. */
  function MergedPieces(headings: seq<string>, texts: map<string, seq<string>>, fragments: Fragments): seq<Piece>
  {
    if headings == [] then []
    else Tagged(headings[0], Pieces(texts, fragments, headings[0])) + MergedPieces(headings[1..], texts, fragments)
  }

  lemma {:induction false} PiecesSplit(headings: seq<string>, texts: map<string, seq<string>>, fragments: Fragments)
    ensures multiset(MergedPieces(headings, texts, fragments))
         == multiset(LegacyPieces(headings, texts)) + multiset(FragmentPieces(headings, fragments))
  {
    hide Legacy, Entries;
    if headings == [] {
    } else {
      var h := headings[0];
      PiecesSplit(headings[1..], texts, fragments);
      assert Tagged(h, Pieces(texts, fragments, h)) == Tagged(h, Legacy(texts, h)) + Tagged(h, Entries(fragments, h));
    }
  }

  lemma {:induction false} FragmentPiecesAppend(a: seq<string>, b: seq<string>, fragments: Fragments)
    requires forall h :: h in b ==> h !in ORDER
    ensures FragmentPieces(a + b, fragments) == FragmentPieces(a, fragments)
    decreases |a| + |b|
  {
    hide Lower;
    if a != [] {
      assert (a + b)[1..] == a[1..] + b;
      FragmentPiecesAppend(a[1..], b, fragments);
    } else if b != [] {
      assert a + b == b && b[0] in b;
      assert forall h :: h in b[1..] ==> h in b;
      FragmentPiecesAppend([], b[1..], fragments);
      assert [] + b[1..] == b[1..];
      assert Entries(fragments, b[0]) == [];
    }
  }

  function Times(headings: seq<string>, texts: map<string, seq<string>>, piece: Piece): nat
  {
    if piece.heading in headings && piece.heading in texts && texts[piece.heading] == piece.lines then 1 else 0
  }

  lemma {:induction false} LegacyOnce(headings: seq<string>, texts: map<string, seq<string>>, piece: Piece)
    requires DistinctKeys(headings)
    ensures multiset(LegacyPieces(headings, texts))[piece] == Times(headings, texts, piece)
  {
    if headings == [] {
    } else {
      var h, rest := headings[0], headings[1..];
      DistinctTail(headings);
      assert headings == [h] + rest;
      LegacyOnce(rest, texts, piece);
      var first := Tagged(h, Legacy(texts, h));
      if h in texts {
        assert first == [Piece(h, texts[h])];
      } else {
        assert first == [];
      }
    }
  }

  lemma LegacySame(a: seq<string>, b: seq<string>, texts: map<string, seq<string>>)
    requires DistinctKeys(a) && DistinctKeys(b)
    requires forall h :: h in texts ==> h in a && h in b
    ensures multiset(LegacyPieces(a, texts)) == multiset(LegacyPieces(b, texts))
  {
    hide LegacyPieces, DistinctKeys;
    forall piece: Piece
      ensures multiset(LegacyPieces(a, texts))[piece] == multiset(LegacyPieces(b, texts))[piece]
    {
      LegacyOnce(a, texts, piece);
      LegacyOnce(b, texts, piece);
    }
  }

  /** The headings that have something under them, in the order given. */
  function WithPieces(headings: seq<string>, texts: map<string, seq<string>>, fragments: Fragments): seq<string>
  {
    if headings == [] then []
    else if Pieces(texts, fragments, headings[0]) == [] then WithPieces(headings[1..], texts, fragments)
    else [headings[0]] + WithPieces(headings[1..], texts, fragments)
  }

  lemma {:induction false} ListedWithPieces(headings: seq<string>, texts: map<string, seq<string>>, fragments: Fragments)
    ensures HeadingsOf(InOrder(headings, texts, fragments)) == WithPieces(headings, texts, fragments)
  {
    if headings == [] {
    } else {
      hide Pieces, Concat;
      ListedWithPieces(headings[1..], texts, fragments);
      var rest := InOrder(headings[1..], texts, fragments);
      var group := Group(headings[0], Concat(Pieces(texts, fragments, headings[0])));
      assert HeadingsOf([group] + rest) == [headings[0]] + HeadingsOf(rest);
    }
  }

  /** The merged body is the preamble, if it is not blank, and then one block for every heading that has something under
      it: the standard headings first, then the others in the order they had, each once, with an empty line after every
      part and nothing else. A block holds the hand-written text of its heading and then its fragment entries; taken
      together, the blocks hold every hand-written group text and every fragment entry exactly once. */
  lemma MergeConserves(lines: seq<string>, fragments: Fragments)
    requires GoodFragments(fragments)
    ensures var (preamble, groups) := SplitGroups(lines);
            var listed := Listed(groups, fragments);
            && Merged(lines, fragments) == MergedFront(preamble, listed) + Flat(GroupBlocks(listed))
            && HeadingsOf(listed) == WithPieces(ORDER + Others(groups.keys), groups.texts, fragments)
            && DistinctKeys(HeadingsOf(listed))
            && forall i :: 0 <= i < |listed| ==>
                 listed[i].lines == Concat(Pieces(groups.texts, fragments, listed[i].heading))
    ensures var groups := SplitGroups(lines).1;
            multiset(MergedPieces(HeadingsOf(Listed(groups, fragments)), groups.texts, fragments))
            == multiset(LegacyPieces(groups.keys, groups.texts)) + multiset(FragmentPieces(ORDER, fragments))
  {
    hide SplitGroups, GoodText, Others, LegacyPieces, FragmentPieces, MergedPieces, InOrder, Stripped, Pieces, Concat,
         GoodFragments, GoodLines, MergedFront, Flat, GroupBlocks, Ended, WithPieces;
    var (preamble, groups) := SplitGroups(lines);
    var headings, listed := Headings(groups), Listed(groups, fragments);
    SplitIsGood(lines);
    HeadingsDistinct(groups, lines);
    MergedIsFlat(preamble, listed);
    ListedWithPieces(headings, groups.texts, fragments);
    ListedHeadings(headings, groups.texts, fragments);
    ListedIsGood(lines, fragments);
    assert forall i :: 0 <= i < |listed| ==> listed[i] in listed;
    PiecesSplit(headings, groups.texts, fragments);
    PiecesOfListed(headings, groups.texts, fragments);
    OthersAre(groups.keys);
    FragmentPiecesAppend(ORDER, Others(groups.keys), fragments);
    LegacySame(headings, groups.keys, groups.texts);
  }

  /** Headings without pieces add none. */
  lemma {:induction false} PiecesOfListed(headings: seq<string>, texts: map<string, seq<string>>, fragments: Fragments)
    ensures MergedPieces(WithPieces(headings, texts, fragments), texts, fragments) == MergedPieces(headings, texts, fragments)
  {
    if headings == [] {
    } else {
      hide Pieces;
      var h, rest := headings[0], WithPieces(headings[1..], texts, fragments);
      PiecesOfListed(headings[1..], texts, fragments);
      assert ([h] + rest)[1..] == rest;
      assert Pieces(texts, fragments, h) == [] ==> Tagged(h, Pieces(texts, fragments, h)) == [];
    }
  }

  /** Every fragment has a place: its entries stand under the heading of its type. */
  lemma EveryFragmentListed(fragments: Fragments, t: string, i: nat)
    requires GoodFragments(fragments) && t in fragments && i < |fragments[t]|
    ensures exists h :: h in ORDER && Lower(h) == t && Piece(h, fragments[t][i]) in FragmentPieces(ORDER, fragments)
  {
    hide Rendered, Lower, FragmentPieces;
    OrderIsTypes();
    var n :| 0 <= n < 6 && TYPES[n] == t;
    assert ORDER[n] in ORDER && Lower(ORDER[n]) == t;
    assert Entries(fragments, ORDER[n])[i] == fragments[t][i];
    PieceListed(ORDER, n, fragments, i);
  }

  lemma {:induction false} PieceListed(headings: seq<string>, n: nat, fragments: Fragments, i: nat)
    requires n < |headings| && i < |Entries(fragments, headings[n])|
    ensures Piece(headings[n], Entries(fragments, headings[n])[i]) in FragmentPieces(headings, fragments)
  {
    hide Entries;
    if n == 0 {
      assert Tagged(headings[0], Entries(fragments, headings[0]))[i] in Tagged(headings[0], Entries(fragments, headings[0]));
    } else {
      PieceListed(headings[1..], n - 1, fragments, i);
    }
  }

  // Repeated headings: their texts are joined in the order of the body.

  function TextsFor(blocks: seq<Block>, key: string): seq<seq<string>>
    requires GroupHeads(blocks)
  {
    if blocks == [] then []
    else
      var n := |blocks| - 1;
      if KeyOf(blocks[n].head) == key then TextsFor(blocks[..n], key) + [Trimmed(blocks[n].body)] else TextsFor(blocks[..n], key)
  }

  lemma {:induction false} ConcatPush(pieces: seq<seq<string>>, text: seq<string>)
    ensures Concat(pieces + [text]) == Concat(pieces) + text
  {
    if pieces == [] {
      ConcatOne(text);
      assert pieces + [text] == [text];
    } else {
      assert (pieces + [text])[1..] == pieces[1..] + [text];
      ConcatPush(pieces[1..], text);
    }
  }

  lemma {:induction false} GroupTextIs(blocks: seq<Block>, key: string)
    requires GroupHeads(blocks)
    ensures key in GroupsOf(blocks).texts <==> TextsFor(blocks, key) != []
    ensures key in GroupsOf(blocks).texts ==> GroupsOf(blocks).texts[key] == Concat(TextsFor(blocks, key))
  {
    hide KeyOf, Trimmed, Concat, IsGroup;
    if blocks == [] {
    } else {
      var n := |blocks| - 1;
      GroupTextIs(blocks[..n], key);
      ConcatPush(TextsFor(blocks[..n], key), Trimmed(blocks[n].body));
      ConcatOne(Trimmed(blocks[n].body));
      var text := [Trimmed(blocks[n].body)];
      assert [] + text == text;
      var before := GroupsOf(blocks[..n]);
      assert GroupsOf(blocks) == AddGroup(before, blocks[n]);
    }
  }
}
