// Merging a merged body again (release.py): what a reader finds in it, and when a second merge changes nothing.
module Remerging {
  import opened Text
  import opened Blocks
  import opened Sections
  import opened Merging
  import opened MergeLaws

  // ----- What a reader finds -----

  // The line of a blank heading is printed as "### ", which is no heading: it and its text belong to what stands before it.

  function Glue(group: Group, blank: Group): Group
  {
    Group(group.heading, group.lines + ["", HeadOf("")] + blank.lines)
  }

  function Glued(listed: seq<Group>): seq<Group>
  {
    if |listed| < 2 then listed
    else if listed[1].heading == "" then [Glue(listed[0], listed[1])] + listed[2..]
    else [listed[0]] + Glued(listed[1..])
  }

  predicate BlankFirst(listed: seq<Group>) { listed != [] && listed[0].heading == "" }

  /** The groups that are found in a merged body. */
  function FoundGroups(listed: seq<Group>): seq<Group>
  {
    if BlankFirst(listed) then listed[1..] else Glued(listed)
  }

  /** The text that is found before them. */
  function FoundPreamble(preamble: seq<string>, listed: seq<Group>): seq<string>
  {
    if BlankFirst(listed) then (if Blank(preamble) then [] else preamble + [""]) + [HeadOf("")] + listed[0].lines
    else preamble
  }

  lemma FlatGroup(group: Group, rest: seq<Group>)
    ensures Flat(GroupBlocks([group] + rest)) == [HeadOf(group.heading)] + group.lines + [""] + Flat(GroupBlocks(rest))
  {
    hide HeadOf;
    var blocks := GroupBlocks([group] + rest);
    assert blocks[1..] == GroupBlocks(rest);
    assert [HeadOf(group.heading)] + (group.lines + [""]) == [HeadOf(group.heading)] + group.lines + [""];
  }

  lemma GlueFlat(group: Group, blank: Group, rest: seq<Group>)
    requires blank.heading == ""
    ensures Flat(GroupBlocks([Glue(group, blank)] + rest)) == Flat(GroupBlocks([group] + ([blank] + rest)))
  {
    hide HeadOf, Flat, GroupBlocks;
    FlatGroup(Glue(group, blank), rest);
    FlatGroup(group, [blank] + rest);
    FlatGroup(blank, rest);
    var a, b, tail := [HeadOf(group.heading)] + group.lines, [HeadOf("")] + blank.lines + [""], Flat(GroupBlocks(rest));
    assert [HeadOf(group.heading)] + (group.lines + ["", HeadOf("")] + blank.lines) + [""] + tail == a + [""] + (b + tail);
  }

  lemma {:induction false} GluedFlat(listed: seq<Group>)
    ensures Flat(GroupBlocks(Glued(listed))) == Flat(GroupBlocks(listed))
    ensures Glued(listed) == [] <==> listed == []
  {
    hide Glue, Flat, GroupBlocks;
    if |listed| < 2 {
    } else if listed[1].heading == "" {
      GlueFlat(listed[0], listed[1], listed[2..]);
      assert listed == [listed[0]] + ([listed[1]] + listed[2..]);
    } else {
      GluedFlat(listed[1..]);
      FlatGroup(listed[0], listed[1..]);
      FlatGroup(listed[0], Glued(listed[1..]));
      assert listed == [listed[0]] + listed[1..];
    }
  }

  lemma HashIsNotBlank(lines: seq<string>)
    requires HeadOf("") in lines
    ensures !Blank(lines)
  {
    NotBlank(HeadOf(""), 0);
  }

  lemma SameParts(a: seq<string>, b: seq<string>, c: seq<string>, d: seq<string>, e: seq<string>)
    ensures a + (b + c + d + e) == a + b + c + d + e
  {
  }

  /** The same lines, read as what is found in them. */
  lemma FoundFlat(preamble: seq<string>, listed: seq<Group>)
    ensures var found := FoundGroups(listed);
            MergedFront(preamble, listed) + Flat(GroupBlocks(listed))
            == MergedFront(FoundPreamble(preamble, listed), found) + Flat(GroupBlocks(found))
  {
    hide HeadOf, Flat, GroupBlocks, Glued, Blank;
    if BlankFirst(listed) {
      var own, tail := if Blank(preamble) then [] else preamble + [""], Flat(GroupBlocks(listed[1..]));
      FlatGroup(listed[0], listed[1..]);
      assert listed == [listed[0]] + listed[1..];
      HashIsNotBlank(FoundPreamble(preamble, listed));
      SameParts(own, [HeadOf("")], listed[0].lines, [""], tail);
    } else {
      GluedFlat(listed);
    }
  }

  /** Headings as `strip` leaves them, and not blank. */
  ghost predicate GoodHeadings(listed: seq<Group>)
  {
    forall i :: 0 <= i < |listed| ==> Stripped(listed[i].heading) && listed[i].heading != ""
  }

  ghost predicate AllStripped(listed: seq<Group>) { forall i :: 0 <= i < |listed| ==> Stripped(listed[i].heading) }

  function WithoutBlank(headings: seq<string>): (kept: seq<string>)
    ensures forall h :: h in kept <==> h in headings && h != ""
  {
    if headings == [] then []
    else if headings[0] == "" then WithoutBlank(headings[1..])
    else [headings[0]] + WithoutBlank(headings[1..])
  }

  lemma {:induction false} WithoutBlankNone(headings: seq<string>)
    requires "" !in headings
    ensures WithoutBlank(headings) == headings
  {
    if headings == [] {
    } else {
      WithoutBlankNone(headings[1..]);
    }
  }

  lemma GlueGood(group: Group, blank: Group, lines: seq<string>)
    requires GoodLines(group.lines, lines) && GoodLines(blank.lines, lines)
    ensures GoodLines(Glue(group, blank).lines, lines)
  {
    hide IsGroup, IsSection, HeadOf, Stripped;
    EmptyIsNoGroup();
    EmptyIsStripped();
    HeadIsGroup("");
    assert FromBody("", lines) && FromBody(HeadOf(""), lines);
  }

  lemma EmptyIsStripped()
    ensures Stripped("")
  {
  }

  lemma HeadingsCons(group: Group, rest: seq<Group>)
    ensures HeadingsOf([group] + rest) == [group.heading] + HeadingsOf(rest)
  {
  }

  /** Headings of a list and what is known of them, one group at a time. */
  lemma GoodCons(group: Group, rest: seq<Group>, headings: seq<string>, lines: seq<string>)
    requires GoodListed(rest, headings, lines) && group.heading in headings && GoodLines(group.lines, lines)
    requires group.heading !in HeadingsOf(rest)
    ensures GoodListed([group] + rest, headings, lines)
    ensures HeadingsOf([group] + rest) == [group.heading] + HeadingsOf(rest)
  {
    hide GoodLines;
    assert forall i :: 0 <= i < |rest| ==> HeadingsOf(rest)[i] == rest[i].heading;
  }

  lemma GoodTail(listed: seq<Group>, headings: seq<string>, lines: seq<string>)
    requires listed != [] && GoodListed(listed, headings, lines)
    ensures GoodListed(listed[1..], headings, lines) && listed[0].heading in headings && GoodLines(listed[0].lines, lines)
    ensures HeadingsOf(listed) == [listed[0].heading] + HeadingsOf(listed[1..])
    ensures listed[0].heading !in HeadingsOf(listed[1..])
  {
    hide GoodLines;
    assert forall i :: 0 <= i < |listed[1..]| ==> HeadingsOf(listed[1..])[i] == listed[i + 1].heading;
  }

  lemma HeadingsGoodIff(listed: seq<Group>)
    requires AllStripped(listed)
    ensures GoodHeadings(listed) <==> "" !in HeadingsOf(listed)
  {
    hide Stripped;
    assert forall i :: 0 <= i < |listed| ==> HeadingsOf(listed)[i] == listed[i].heading;
  }

  lemma {:induction false} GluedGood(listed: seq<Group>, headings: seq<string>, lines: seq<string>)
    requires GoodListed(listed, headings, lines) && AllStripped(listed) && !BlankFirst(listed)
    ensures GoodListed(Glued(listed), headings, lines) && AllStripped(Glued(listed))
    ensures HeadingsOf(Glued(listed)) == WithoutBlank(HeadingsOf(listed))
  {
    hide GoodListed, GoodLines, Stripped, HeadingsOf;
    if |listed| < 2 {
      WithoutBlankNone(HeadingsOf(listed));
    } else {
      var first, rest := listed[0], listed[1..];
      GoodTail(listed, headings, lines);
      GoodTail(rest, headings, lines);
      if rest[0].heading == "" {
        GlueGood(first, rest[0], lines);
        assert rest[1..] == listed[2..];
        GoodCons(Glue(first, rest[0]), rest[1..], headings, lines);
        WithoutBlankNone(HeadingsOf(rest[1..]));
      } else {
        GluedGood(rest, headings, lines);
        GoodCons(first, Glued(rest), headings, lines);
      }
    }
  }

  lemma FoundGood(listed: seq<Group>, headings: seq<string>, lines: seq<string>)
    requires GoodListed(listed, headings, lines) && AllStripped(listed)
    ensures GoodListed(FoundGroups(listed), headings, lines) && GoodHeadings(FoundGroups(listed))
    ensures HeadingsOf(FoundGroups(listed)) == WithoutBlank(HeadingsOf(listed))
  {
    hide GoodListed, Stripped, HeadOf, Glued;
    if BlankFirst(listed) {
      GoodTail(listed, headings, lines);
      WithoutBlankNone(HeadingsOf(listed[1..]));
    } else {
      GluedGood(listed, headings, lines);
    }
    HeadingsGoodIff(FoundGroups(listed));
  }

  lemma {:induction false} GluedSame(listed: seq<Group>)
    requires "" !in HeadingsOf(listed)
    ensures Glued(listed) == listed
  {
    if |listed| < 2 {
    } else {
      assert listed == [listed[0]] + listed[1..];
      HeadingsCons(listed[0], listed[1..]);
      assert HeadingsOf(listed[1..])[0] != "";
      GluedSame(listed[1..]);
    }
  }

  // ----- The order of the headings -----

  /** Those of the headings that are among the keys. */
  function Chosen(headings: seq<string>, keys: seq<string>): (chosen: seq<string>)
    ensures forall h :: h in chosen <==> h in headings && h in keys
  {
    if headings == [] then []
    else if headings[0] in keys then [headings[0]] + Chosen(headings[1..], keys)
    else Chosen(headings[1..], keys)
  }

  /** Standard headings first, in their order, then the others. */
  ghost predicate Canonical(headings: seq<string>)
  {
    headings == Chosen(ORDER, headings) + Others(headings)
  }

  lemma {:induction false} ChosenAppend(a: seq<string>, b: seq<string>, keys: seq<string>)
    ensures Chosen(a + b, keys) == Chosen(a, keys) + Chosen(b, keys)
  {
    if a == [] {
      assert a + b == b;
    } else {
      assert (a + b)[1..] == a[1..] + b;
      ChosenAppend(a[1..], b, keys);
    }
  }

  lemma {:induction false} ChosenSame(headings: seq<string>, a: seq<string>, b: seq<string>)
    requires forall h :: h in headings ==> (h in a <==> h in b)
    ensures Chosen(headings, a) == Chosen(headings, b)
  {
    if headings == [] {
    } else {
      assert headings[0] in headings;
      assert forall h :: h in headings[1..] ==> h in headings;
      ChosenSame(headings[1..], a, b);
    }
  }

  lemma {:induction false} ChosenAll(headings: seq<string>, keys: seq<string>)
    requires forall h :: h in headings ==> h in keys
    ensures Chosen(headings, keys) == headings
  {
    if headings == [] {
    } else {
      assert headings[0] in headings;
      assert forall h :: h in headings[1..] ==> h in headings;
      ChosenAll(headings[1..], keys);
    }
  }

  lemma {:induction false} ChosenWithPieces(headings: seq<string>, keys: seq<string>, texts: map<string, seq<string>>,
                                            fragments: Fragments)
    requires forall h :: h in headings ==> (h in keys <==> Pieces(texts, fragments, h) != [])
    ensures WithPieces(headings, texts, fragments) == Chosen(headings, keys)
  {
    hide Pieces;
    if headings == [] {
    } else {
      assert headings[0] in headings;
      assert forall h :: h in headings[1..] ==> h in headings;
      ChosenWithPieces(headings[1..], keys, texts, fragments);
    }
  }

  lemma {:induction false} OthersAppend(a: seq<string>, b: seq<string>)
    ensures Others(a + b) == Others(a) + Others(b)
  {
    if a == [] {
      assert a + b == b;
    } else {
      assert (a + b)[1..] == a[1..] + b;
      OthersAppend(a[1..], b);
    }
  }

  lemma {:induction false} OthersOfOrder(keys: seq<string>)
    requires forall key :: key in keys ==> key in ORDER
    ensures Others(keys) == []
  {
    if keys == [] {
    } else {
      assert keys[0] in keys;
      assert forall key :: key in keys[1..] ==> key in keys;
      OthersOfOrder(keys[1..]);
    }
  }

  lemma {:induction false} OthersOfOthers(keys: seq<string>)
    requires forall key :: key in keys ==> key !in ORDER
    ensures Others(keys) == keys
  {
    if keys == [] {
    } else {
      assert keys[0] in keys;
      assert forall key :: key in keys[1..] ==> key in keys;
      OthersOfOthers(keys[1..]);
      assert keys == [keys[0]] + keys[1..];
    }
  }

  lemma {:induction false} OthersWithoutBlank(keys: seq<string>)
    ensures Others(WithoutBlank(keys)) == WithoutBlank(Others(keys))
  {
    if keys == [] {
    } else {
      OrderPlain();
      OthersWithoutBlank(keys[1..]);
      var h, rest := keys[0], WithoutBlank(keys[1..]);
      assert ([h] + rest)[1..] == rest;
      assert ([h] + Others(keys[1..]))[1..] == Others(keys[1..]);
    }
  }

  lemma {:induction false} WithoutBlankAppend(a: seq<string>, b: seq<string>)
    ensures WithoutBlank(a + b) == WithoutBlank(a) + WithoutBlank(b)
  {
    if a == [] {
      assert a + b == b;
    } else {
      assert (a + b)[1..] == a[1..] + b;
      WithoutBlankAppend(a[1..], b);
    }
  }

  lemma CanonicalWithoutBlank(headings: seq<string>)
    requires Canonical(headings)
    ensures Canonical(WithoutBlank(headings))
  {
    hide WithoutBlank, Chosen, Others, Stripped;
    OrderPlain();
    var kept := WithoutBlank(headings);
    WithoutBlankAppend(Chosen(ORDER, headings), Others(headings));
    WithoutBlankNone(Chosen(ORDER, headings));
    OthersWithoutBlank(headings);
    ChosenSame(ORDER, headings, kept);
  }

  /** The merged groups come in the canonical order. */
  lemma CanonicalListed(groups: Groups, fragments: Fragments)
    ensures Canonical(HeadingsOf(Listed(groups, fragments)))
  {
    hide Others, InOrder, Pieces, Concat, HeadingsOf, Chosen, WithPieces;
    var others := Others(groups.keys);
    var listed := HeadingsOf(Listed(groups, fragments));
    OthersAre(groups.keys);
    ListedWithPieces(ORDER + others, groups.texts, fragments);
    ListedHeadings(ORDER + others, groups.texts, fragments);
    ChosenWithPieces(ORDER + others, listed, groups.texts, fragments);
    ChosenAppend(ORDER, others, listed);
    OthersAppend(Chosen(ORDER, listed), Chosen(others, listed));
    OthersOfOrder(Chosen(ORDER, listed));
    OthersOfOthers(Chosen(others, listed));
  }

  // ----- Splitting the merged body again -----

  function TextsOf(listed: seq<Group>): map<string, seq<string>>
  {
    if listed == [] then map[]
    else TextsOf(listed[..|listed| - 1])[listed[|listed| - 1].heading := Trimmed(listed[|listed| - 1].lines)]
  }

  function Regrouped(listed: seq<Group>): Groups { Groups(HeadingsOf(listed), TextsOf(listed)) }

  lemma {:induction false} TextsAre(listed: seq<Group>, headings: seq<string>, lines: seq<string>)
    requires GoodListed(listed, headings, lines)
    ensures forall heading :: heading in TextsOf(listed) <==> heading in HeadingsOf(listed)
    ensures forall i :: 0 <= i < |listed| ==>
              listed[i].heading in TextsOf(listed) && TextsOf(listed)[listed[i].heading] == Trimmed(listed[i].lines)
  {
    hide Trimmed, GoodLines;
    if listed == [] {
    } else {
      var n := |listed| - 1;
      TextsAre(listed[..n], headings, lines);
      assert HeadingsOf(listed) == HeadingsOf(listed[..n]) + [listed[n].heading];
    }
  }

  lemma RegroupStep(listed: seq<Group>, n: nat, headings: seq<string>, lines: seq<string>)
    requires GoodListed(listed, headings, lines) && GoodHeadings(listed) && |listed| == n + 1
    ensures IsGroup(GroupBlocks(listed)[n].head)
    ensures AddGroup(Regrouped(listed[..n]), GroupBlocks(listed)[n]) == Regrouped(listed)
  {
    hide GoodLines, IsGroup, KeyOf, HeadOf, Trimmed, Stripped;
    HeadIsGroup(listed[n].heading);
    TrimmedSkips(listed[n].lines);
    TextsAre(listed[..n], headings, lines);
    assert forall i :: 0 <= i < n ==> HeadingsOf(listed[..n])[i] == listed[i].heading;
    assert listed[n].heading !in HeadingsOf(listed[..n]);
    assert HeadingsOf(listed) == HeadingsOf(listed[..n]) + [listed[n].heading];
  }

  lemma GroupBlocksHeads(listed: seq<Group>)
    requires GoodHeadings(listed)
    ensures GroupHeads(GroupBlocks(listed))
  {
    hide IsGroup, HeadOf, Stripped;
    var blocks := GroupBlocks(listed);
    forall i | 0 <= i < |blocks| ensures IsGroup(blocks[i].head) { HeadIsGroup(listed[i].heading); }
  }

  lemma {:induction false} Regroup(listed: seq<Group>, headings: seq<string>, lines: seq<string>)
    requires GoodListed(listed, headings, lines) && GoodHeadings(listed)
    ensures GroupHeads(GroupBlocks(listed)) && GroupsOf(GroupBlocks(listed)) == Regrouped(listed)
  {
    hide GoodLines, IsGroup, KeyOf, HeadOf, Trimmed, Stripped, AddGroup;
    GroupBlocksHeads(listed);
    if listed == [] {
    } else {
      var n := |listed| - 1;
      Regroup(listed[..n], headings, lines);
      assert GroupBlocks(listed)[..n] == GroupBlocks(listed[..n]);
      RegroupStep(listed, n, headings, lines);
    }
  }

  lemma GroupBlocksGood(listed: seq<Group>, headings: seq<string>, lines: seq<string>)
    requires GoodListed(listed, headings, lines) && GoodHeadings(listed)
    ensures GoodBlocks(GroupBlocks(listed), IsGroup)
  {
    hide IsGroup, HeadOf, Stripped;
    EmptyIsNoGroup();
    var blocks := GroupBlocks(listed);
    forall i | 0 <= i < |blocks| ensures GoodBlock(blocks[i], IsGroup) {
      HeadIsGroup(listed[i].heading);
      assert GoodLines(listed[i].lines, lines);
      assert forall line :: line in listed[i].lines ==> FromBody(line, lines);
    }
  }

  /** The text before the first group in the merged body of these lines. */
  ghost function ReadPreamble(lines: seq<string>, fragments: Fragments): seq<string>
  {
    FoundPreamble(SplitGroups(lines).0, Listed(SplitGroups(lines).1, fragments))
  }

  /** The groups in it. */
  ghost function ReadGroups(lines: seq<string>, fragments: Fragments): seq<Group>
  {
    FoundGroups(Listed(SplitGroups(lines).1, fragments))
  }

  ghost predicate GoodRead(lines: seq<string>, fragments: Fragments)
  {
    var headings, found := Headings(SplitGroups(lines).1), ReadGroups(lines, fragments);
    && GoodListed(found, headings, lines) && GoodHeadings(found) && Canonical(HeadingsOf(found))
    && NoHead(ReadPreamble(lines, fragments), IsGroup)
  }

  lemma FoundPreambleGood(preamble: seq<string>, listed: seq<Group>, headings: seq<string>, lines: seq<string>)
    requires GoodText(preamble, lines) && GoodListed(listed, headings, lines)
    ensures NoHead(FoundPreamble(preamble, listed), IsGroup)
  {
    hide IsGroup, HeadOf, Blank, Stripped;
    EmptyIsNoGroup();
    EmptyIsStripped();
    HeadIsGroup("");
    if BlankFirst(listed) {
      assert GoodLines(listed[0].lines, lines);
      assert forall line :: line in listed[0].lines ==> FromBody(line, lines);
    }
  }

  /** The merged body as the reader of the second merge finds it. */
  lemma MergedForm(lines: seq<string>, fragments: Fragments)
    requires GoodFragments(fragments)
    ensures GoodRead(lines, fragments)
    ensures var found := ReadGroups(lines, fragments);
            Merged(lines, fragments) == MergedFront(ReadPreamble(lines, fragments), found) + Flat(GroupBlocks(found))
  {
    hide GoodFragments, SplitGroups, Listed, Ended, Canonical, GoodListed, GoodHeadings, GoodText, HeadingsOf, IsGroup, Tidy,
         FoundGroups, FoundPreamble, MergedFront, Flat, GroupBlocks, Stripped, NoHead, Headings, GoodGroups;
    var (preamble, groups) := SplitGroups(lines);
    var listed := Listed(groups, fragments);
    SplitIsGood(lines);
    ListedIsGood(lines, fragments);
    forall i | 0 <= i < |listed| ensures Stripped(listed[i].heading) { ListedStripped(lines, fragments, i); }
    FoundGood(listed, Headings(groups), lines);
    CanonicalListed(groups, fragments);
    CanonicalWithoutBlank(HeadingsOf(listed));
    FoundPreambleGood(preamble, listed, Headings(groups), lines);
    MergedIsFlat(preamble, listed);
    FoundFlat(preamble, listed);
  }

  /** What `strip` leaves of the text before the first group. */
  function Cut(preamble: seq<string>): seq<string> { if Blank(preamble) then [""] else Trimmed(preamble) }

  lemma FrontGood(preamble: seq<string>, listed: seq<Group>)
    requires NoHead(preamble, IsGroup)
    ensures NoHead(MergedFront(preamble, listed), IsGroup)
    ensures Trimmed(MergedFront(preamble, listed)) == Cut(preamble)
  {
    hide IsGroup, Blank, Trimmed;
    EmptyIsNoGroup();
    TrimmedSkips(preamble);
    TrimmedNone();
  }

  lemma TrimmedNone()
    ensures Trimmed([]) == [""] && Trimmed(["", ""]) == [""]
  {
    TrimmedEmpty([]);
    TrimmedEmpty(["", ""]);
  }

  lemma MergedSplits(lines: seq<string>, fragments: Fragments)
    requires GoodFragments(fragments)
    ensures var found := ReadGroups(lines, fragments);
            && Before(Merged(lines, fragments), IsGroup) == MergedFront(ReadPreamble(lines, fragments), found)
            && BlocksOf(Merged(lines, fragments), IsGroup) == GroupBlocks(found)
  {
    hide GoodFragments, SplitGroups, IsGroup, Listed, MergedFront, GroupBlocks, Merged, GoodHeadings, GoodListed, Canonical,
         FoundGroups, FoundPreamble, NoHead, Before, BlocksOf, Flat;
    var preamble, found := ReadPreamble(lines, fragments), ReadGroups(lines, fragments);
    MergedForm(lines, fragments);
    FrontGood(preamble, found);
    GroupBlocksGood(found, Headings(SplitGroups(lines).1), lines);
    SplitOfFlat(MergedFront(preamble, found), GroupBlocks(found), IsGroup);
  }

  /** Splitting the merged body gives back the preamble and the merged groups, every heading once and in order; a group
      with a blank heading is found as text of the group before it, or of the preamble. */
  lemma ResplitMerged(lines: seq<string>, fragments: Fragments)
    requires GoodFragments(fragments)
    ensures SplitGroups(Merged(lines, fragments))
         == (Cut(ReadPreamble(lines, fragments)), Regrouped(ReadGroups(lines, fragments)))
  {
    hide GoodFragments, IsGroup, MergedFront, GroupBlocks, Merged, GoodHeadings, GoodListed, Regrouped, Canonical, NoHead,
         Cut, Before, BlocksOf, Trimmed, GroupsOf, ReadGroups, ReadPreamble, Headings;
    var preamble, found := ReadPreamble(lines, fragments), ReadGroups(lines, fragments);
    MergedForm(lines, fragments);
    MergedSplits(lines, fragments);
    FrontGood(preamble, found);
    Regroup(found, Headings(SplitGroups(lines).1), lines);
  }

  /** Exactly: the merged groups are found again if and only if no group of the body has a blank heading. */
  lemma ResplitIff(lines: seq<string>, fragments: Fragments)
    requires GoodFragments(fragments)
    ensures SplitGroups(Merged(lines, fragments)).1 == Regrouped(Listed(SplitGroups(lines).1, fragments))
       <==> "" !in SplitGroups(lines).1.texts
  {
    hide GoodFragments, IsGroup, Merged, GoodListed, GoodText, GroupsOf, InOrder, Others, Canonical, NoHead, Glued, TextsOf,
         SplitGroups, Stripped, HeadingsOf, Pieces;
    var groups := SplitGroups(lines).1;
    var listed := Listed(groups, fragments);
    SplitIsGood(lines);
    BlankListed(groups, fragments, lines);
    ResplitMerged(lines, fragments);
    MergedForm(lines, fragments);
    if "" in groups.texts {
      assert "" !in HeadingsOf(ReadGroups(lines, fragments));
    } else {
      GluedSame(listed);
    }
  }

  lemma BlankListed(groups: Groups, fragments: Fragments, lines: seq<string>)
    requires GoodGroups(groups, lines)
    ensures "" in HeadingsOf(Listed(groups, fragments)) <==> "" in groups.texts
  {
    hide InOrder, Others, Concat, GoodText, Stripped;
    OrderPlain();
    HeadingsDistinct(groups, lines);
    ListedHeadings(Headings(groups), groups.texts, fragments);
    assert Entries(fragments, "") == [];
  }

  // ----- Merging again -----

  /** The merged groups without empty lines around their texts. */
  function Tidied(listed: seq<Group>): (tidied: seq<Group>)
    ensures |tidied| == |listed|
    ensures forall i :: 0 <= i < |tidied| ==> tidied[i] == Group(listed[i].heading, Trimmed(listed[i].lines))
  {
    seq(|listed|, i requires 0 <= i < |listed| => Group(listed[i].heading, Trimmed(listed[i].lines)))
  }

  lemma SameGroups(a: seq<Group>, b: seq<Group>, texts: map<string, seq<string>>)
    requires HeadingsOf(a) == HeadingsOf(b)
    requires forall g :: g in a || g in b ==> g.heading in texts && g.lines == texts[g.heading]
    ensures a == b
  {
    assert |a| == |b|;
    forall i | 0 <= i < |a| ensures a[i] == b[i] {
      assert HeadingsOf(a)[i] == HeadingsOf(b)[i] && a[i] in a && b[i] in b;
    }
  }

  lemma PiecesAgain(again: map<string, seq<string>>, h: string)
    ensures Pieces(again, map[], h) == if h in again then [again[h]] else []
    ensures h in again ==> Concat(Pieces(again, map[], h)) == again[h]
  {
    hide Lower;
    assert Entries(map[], h) == [];
    if h in again { ConcatOne(again[h]); }
  }

  /** Found groups are merged again as they are, but for the empty lines around them. */
  lemma ListedAgain(found: seq<Group>, headings: seq<string>, lines: seq<string>)
    requires GoodListed(found, headings, lines) && Canonical(HeadingsOf(found))
    ensures Listed(Regrouped(found), map[]) == Tidied(found)
  {
    hide GoodLines, InOrder, Others, Pieces, Concat, Trimmed, TextsOf, Chosen, WithPieces;
    var keys, texts := HeadingsOf(found), TextsOf(found);
    var others := Others(keys);
    var again := Listed(Regrouped(found), map[]);
    TextsAre(found, headings, lines);
    OthersAre(keys);
    forall h ensures Pieces(texts, map[], h) != [] <==> h in keys { PiecesAgain(texts, h); }
    ListedWithPieces(ORDER + others, texts, map[]);
    ChosenWithPieces(ORDER + others, keys, texts, map[]);
    ChosenAppend(ORDER, others, keys);
    ChosenAll(others, keys);
    ListedHeadings(ORDER + others, texts, map[]);
    AgainHolds(again, keys, texts);
    TidiedHolds(found, texts);
    SameGroups(again, Tidied(found), texts);
  }

  lemma AgainHolds(again: seq<Group>, keys: seq<string>, texts: map<string, seq<string>>)
    requires HeadingsOf(again) == keys && forall h :: h in keys ==> h in texts
    requires forall g :: g in again ==> g.lines == Concat(Pieces(texts, map[], g.heading))
    ensures forall g :: g in again ==> g.heading in texts && g.lines == texts[g.heading]
  {
    hide Pieces, Concat;
    forall g | g in again ensures g.heading in texts && g.lines == texts[g.heading] {
      var i :| 0 <= i < |again| && again[i] == g;
      assert HeadingsOf(again)[i] in keys;
      PiecesAgain(texts, g.heading);
    }
  }

  lemma TidiedHolds(found: seq<Group>, texts: map<string, seq<string>>)
    requires forall i :: 0 <= i < |found| ==>
               found[i].heading in texts && texts[found[i].heading] == Trimmed(found[i].lines)
    ensures HeadingsOf(Tidied(found)) == HeadingsOf(found)
    ensures forall g :: g in Tidied(found) ==> g.heading in texts && g.lines == texts[g.heading]
  {
    hide Trimmed;
  }

  /** Merging the merged body once more only takes the empty lines around the texts that are found away. */
  lemma MergedAgain(lines: seq<string>, fragments: Fragments)
    requires GoodFragments(fragments)
    ensures var preamble, again := Cut(ReadPreamble(lines, fragments)), Tidied(ReadGroups(lines, fragments));
            Merged(Merged(lines, fragments), map[]) == MergedFront(preamble, again) + Flat(GroupBlocks(again))
  {
    hide GoodFragments, SplitGroups, Listed, Ended, Regrouped, Flat, GroupBlocks, Tidied, ReadGroups, ReadPreamble, Canonical,
         GoodListed, GoodHeadings, NoHead, MergedFront, Cut, PreambleChunks, GroupChunks;
    ResplitMerged(lines, fragments);
    MergedForm(lines, fragments);
    ListedAgain(ReadGroups(lines, fragments), Headings(SplitGroups(lines).1), lines);
    MergedIsFlat(Cut(ReadPreamble(lines, fragments)), Tidied(ReadGroups(lines, fragments)));
  }

  ghost predicate AllTidy(listed: seq<Group>) { forall i :: 0 <= i < |listed| ==> Tidy(listed[i].lines) }

  lemma TidiedIff(listed: seq<Group>)
    ensures GroupBlocks(Tidied(listed)) == GroupBlocks(listed) <==> AllTidy(listed)
    ensures AllTidy(Tidied(listed))
    ensures AllTidy(listed) ==> Tidied(listed) == listed
  {
    hide Trimmed, Tidy, HeadOf;
    forall i | 0 <= i < |listed|
      ensures Tidy(Trimmed(listed[i].lines))
      ensures Trimmed(listed[i].lines) == listed[i].lines <==> Tidy(listed[i].lines)
    {
      TrimmedIsTidy(listed[i].lines);
    }
    var a, b := GroupBlocks(Tidied(listed)), GroupBlocks(listed);
    if a == b {
      forall i | 0 <= i < |listed| ensures Tidy(listed[i].lines) {
        assert a[i].body == Trimmed(listed[i].lines) + [""] && b[i].body == listed[i].lines + [""];
        assert a[i].body[..|a[i].body| - 1] == Trimmed(listed[i].lines);
        assert b[i].body[..|b[i].body| - 1] == listed[i].lines;
      }
    }
  }

  lemma TidiedGood(listed: seq<Group>, headings: seq<string>, lines: seq<string>)
    requires GoodListed(listed, headings, lines)
    ensures GoodListed(Tidied(listed), headings, lines)
  {
    hide IsGroup, IsSection, Trimmed, Tidy;
    EmptyIsNoGroup();
    forall i | 0 <= i < |listed| ensures GoodLines(Trimmed(listed[i].lines), lines) {
      TrimmedIsTidy(listed[i].lines);
      assert GoodLines(listed[i].lines, lines);
      assert forall line :: line in listed[i].lines ==> FromBody(line, lines);
    }
  }

  lemma TidiedHeadings(listed: seq<Group>)
    requires GoodHeadings(listed)
    ensures GoodHeadings(Tidied(listed))
  {
    hide Trimmed, Stripped;
  }

  lemma NotBlankTrimmed(preamble: seq<string>)
    requires !Blank(preamble)
    ensures !Blank(Trimmed(preamble))
  {
    hide Strip, Trimmed;
    StripEmptyLine();
    var line :| line in preamble && Strip(line) != "";
    assert "" in [""];
    TrimmedHolds(preamble, line);
  }

  lemma TrimmedHolds(text: seq<string>, line: string)
    requires line in text && line != ""
    ensures line in Trimmed(text)
  {
    hide DropEmptyFront, DropEmptyBack;
    var i :| 0 <= i < |text| && text[i] == line;
    var front := DropEmptyFront(text);
    assert front[i - (|text| - |front|)] == line;
    var rest := DropEmptyBack(front);
    assert rest[i - (|text| - |front|)] == line;
  }

  predicate FrontSettled(preamble: seq<string>) { Blank(preamble) || Tidy(preamble) }

  lemma SameFront(preamble: seq<string>, found: seq<Group>)
    ensures MergedFront(Cut(preamble), Tidied(found)) == MergedFront(preamble, found) <==> FrontSettled(preamble)
    ensures NoHead(preamble, IsGroup) ==> NoHead(Cut(preamble), IsGroup)
  {
    hide Blank, Trimmed, Tidy, IsGroup;
    EmptyIsNoGroup();
    TrimmedIsTidy(preamble);
    if Blank(preamble) {
      StripEmptyLine();
    } else {
      NotBlankTrimmed(preamble);
      var a, b := Trimmed(preamble), preamble;
      assert (a + [""])[..|a|] == a && (b + [""])[..|b|] == b;
    }
  }

  /** Merging again changes nothing exactly when no text that is found in the merged body begins or ends with an empty
      line. */
  lemma MergeAgainIff(lines: seq<string>, fragments: Fragments)
    requires GoodFragments(fragments)
    ensures Merged(Merged(lines, fragments), map[]) == Merged(lines, fragments)
       <==> FrontSettled(ReadPreamble(lines, fragments)) && AllTidy(ReadGroups(lines, fragments))
  {
    hide GoodFragments, SplitGroups, Listed, Regrouped, Flat, GroupBlocks, Tidied, Merged, AllTidy, Canonical, NoHead, Cut,
         GoodListed, GoodHeadings, IsGroup, MergedFront, Headings, ReadGroups, ReadPreamble, Before, BlocksOf, FrontSettled;
    var preamble, found := ReadPreamble(lines, fragments), ReadGroups(lines, fragments);
    var again := Tidied(found);
    MergedAgain(lines, fragments);
    MergedForm(lines, fragments);
    MergedSplits(lines, fragments);
    TidiedIff(found);
    TidiedGood(found, Headings(SplitGroups(lines).1), lines);
    TidiedHeadings(found);
    SameFront(preamble, found);
    FrontGood(Cut(preamble), again);
    GroupBlocksGood(again, Headings(SplitGroups(lines).1), lines);
    SplitOfFlat(MergedFront(Cut(preamble), again), GroupBlocks(again), IsGroup);
  }

  lemma NoFragments()
    ensures GoodFragments(map[])
  {
  }

  /** From the second merge on, merging again changes nothing. */
  lemma MergeTwiceSettles(lines: seq<string>, fragments: Fragments)
    requires GoodFragments(fragments)
    ensures var twice := Merged(Merged(lines, fragments), map[]); Merged(twice, map[]) == twice
  {
    hide SplitGroups, Listed, Merged, GoodListed, Tidied, AllTidy, Headings, GoodFragments, GoodHeadings, Blank, Canonical,
         ReadPreamble, ReadGroups, Glued, Trimmed, Tidy;
    var once, preamble, found := Merged(lines, fragments), ReadPreamble(lines, fragments), ReadGroups(lines, fragments);
    MergedForm(lines, fragments);
    ResplitMerged(lines, fragments);
    ListedAgain(found, Headings(SplitGroups(lines).1), lines);
    TidiedIff(found);
    TidiedHeadings(found);
    NoFragments();
    MergeAgainIff(once, map[]);
    ReadTidied(once, found);
    TrimmedIsTidy(preamble);
    StripEmptyLine();
  }

  lemma ReadTidied(once: seq<string>, found: seq<Group>)
    requires Listed(SplitGroups(once).1, map[]) == Tidied(found) && GoodHeadings(Tidied(found))
    ensures ReadGroups(once, map[]) == Tidied(found) && ReadPreamble(once, map[]) == SplitGroups(once).0
  {
    hide SplitGroups, Listed, Tidied, Stripped;
    GluedSame(Tidied(found));
  }

  // ----- The condition on what is given to the first merge -----

  lemma {:induction false} ConcatEnds(pieces: seq<seq<string>>)
    requires pieces != [] && forall i :: 0 <= i < |pieces| ==> pieces[i] != []
    ensures var text, last := Concat(pieces), pieces[|pieces| - 1];
            && text != [] && text[0] == pieces[0][0] && text[|text| - 1] == last[|last| - 1]
            && (|pieces| > 1 ==> |text| > 1)
  {
    if |pieces| == 1 {
      assert pieces == [pieces[0]];
      ConcatOne(pieces[0]);
    } else {
      ConcatEnds(pieces[1..]);
    }
  }

  /** The ends of a merged group. */
  lemma GroupEnds(groups: Groups, fragments: Fragments, heading: string, lines: seq<string>)
    requires GoodGroups(groups, lines) && GoodFragments(fragments) && Pieces(groups.texts, fragments, heading) != []
    ensures var text, entries := Concat(Pieces(groups.texts, fragments, heading)), Entries(fragments, heading);
            && text != []
            && (heading in groups.texts ==> groups.texts[heading] != [] && text[0] == groups.texts[heading][0])
            && (heading !in groups.texts ==> text[0] != "")
            && (entries == [] ==> heading in groups.texts && text == groups.texts[heading])
            && (entries != [] ==> text[|text| - 1] != "")
  {
    hide Lower, IsGroup, RenderedLine, Stripped, Concat;
    var legacy, entries := Legacy(groups.texts, heading), Entries(fragments, heading);
    var pieces := Pieces(groups.texts, fragments, heading);
    forall piece | piece in pieces ensures piece != [] && (piece in entries ==> Rendered(piece)) {
      if piece in legacy { assert GoodText(groups.texts[heading], lines); }
      if piece in entries { assert piece in fragments[Lower(heading)]; }
    }
    assert forall i :: 0 <= i < |pieces| ==> pieces[i] in pieces;
    ConcatEnds(pieces);
    if entries == [] {
      assert pieces == legacy;
      ConcatOne(groups.texts[heading]);
    } else {
      var last := entries[|entries| - 1];
      assert last in entries && pieces[|pieces| - 1] == last && Rendered(last);
    }
    if heading !in groups.texts {
      assert legacy == [] && pieces == entries && entries[0] in entries && Rendered(pieces[0]);
    } else {
      assert pieces[0] == groups.texts[heading];
    }
  }

  /** A merged group is tidy unless its hand-written text is empty and fragments follow it, or that text (joined from
      repeated headings) is itself untidy at an end that stays one. */
  lemma GroupTidyIff(groups: Groups, fragments: Fragments, heading: string, lines: seq<string>)
    requires GoodGroups(groups, lines) && GoodFragments(fragments) && Pieces(groups.texts, fragments, heading) != []
    ensures var entries := Entries(fragments, heading);
            Tidy(Concat(Pieces(groups.texts, fragments, heading))) <==>
            (heading in groups.texts ==> if entries == [] then Tidy(groups.texts[heading]) else groups.texts[heading][0] != "")
  {
    hide GoodGroups, GoodFragments, Pieces, Concat, Entries;
    GroupEnds(groups, fragments, heading, lines);
  }

  /** A group of the merged body whose text the second merge leaves alone. */
  predicate SettledAt(listed: seq<Group>, i: nat)
    requires i < |listed| && listed[i].lines != []
  {
    var text := listed[i].lines;
    if listed[i].heading == "" then text[|text| - 1] != ""
    else if i + 1 < |listed| && listed[i + 1].heading == "" then text[0] != ""
    else Tidy(text)
  }

  ghost predicate AllSettled(listed: seq<Group>)
  {
    forall i :: 0 <= i < |listed| ==> listed[i].lines != [] && SettledAt(listed, i)
  }

  ghost predicate OneBlank(listed: seq<Group>)
  {
    && (forall i :: 0 <= i < |listed| ==> listed[i].lines != [])
    && forall i, j :: 0 <= i < j < |listed| ==> listed[i].heading != listed[j].heading
  }

  lemma SettledTail(listed: seq<Group>)
    requires listed != [] && OneBlank(listed)
    ensures OneBlank(listed[1..])
    ensures AllSettled(listed) <==> SettledAt(listed, 0) && AllSettled(listed[1..])
  {
    hide Tidy;
    var rest := listed[1..];
    forall i | 0 <= i < |rest| ensures SettledAt(rest, i) <==> SettledAt(listed, i + 1) {
      assert rest[i] == listed[i + 1];
    }
    if SettledAt(listed, 0) && AllSettled(rest) {
      forall i | 0 <= i < |listed| ensures SettledAt(listed, i) {
        if i > 0 { assert SettledAt(rest, i - 1); }
      }
    }
  }

  lemma SettledIsTidy(listed: seq<Group>)
    requires OneBlank(listed) && "" !in HeadingsOf(listed)
    ensures AllSettled(listed) <==> AllTidy(listed)
  {
    hide Tidy;
    assert forall i :: 0 <= i < |listed| ==> HeadingsOf(listed)[i] != "";
    assert forall i :: 0 <= i < |listed| ==> (SettledAt(listed, i) <==> Tidy(listed[i].lines));
  }

  lemma TidyCons(group: Group, rest: seq<Group>)
    ensures AllTidy([group] + rest) <==> Tidy(group.lines) && AllTidy(rest)
  {
    hide Tidy;
    var all := [group] + rest;
    assert all[0] == group && forall i :: 0 <= i < |rest| ==> all[i + 1] == rest[i];
    if AllTidy(all) {
      forall i | 0 <= i < |rest| ensures Tidy(rest[i].lines) { assert all[i + 1] == rest[i]; }
    }
  }

  lemma {:induction false} GluedTidy(listed: seq<Group>)
    requires OneBlank(listed) && !BlankFirst(listed)
    ensures AllTidy(Glued(listed)) <==> AllSettled(listed)
  {
    hide Tidy, HeadOf, AllSettled, AllTidy;
    if |listed| < 2 {
      SettledIsTidy(listed);
    } else {
      var first, rest := listed[0], listed[1..];
      SettledTail(listed);
      if rest[0].heading == "" {
        SettledTail(rest);
        assert rest[1..] == listed[2..];
        SettledIsTidy(listed[2..]);
        TidyCons(Glue(first, rest[0]), listed[2..]);
        GlueTidy(first, rest[0]);
      } else {
        GluedTidy(rest);
        TidyCons(first, Glued(rest));
      }
    }
  }

  lemma GlueTidy(group: Group, blank: Group)
    requires group.lines != [] && blank.lines != []
    ensures Tidy(Glue(group, blank).lines) <==> group.lines[0] != "" && blank.lines[|blank.lines| - 1] != ""
  {
    hide HeadOf;
  }

  lemma FoundTidy(preamble: seq<string>, listed: seq<Group>)
    requires OneBlank(listed) && Tidy(preamble)
    ensures FrontSettled(FoundPreamble(preamble, listed)) && AllTidy(FoundGroups(listed)) <==> AllSettled(listed)
  {
    hide HeadOf, AllSettled, AllTidy, Blank, Glued;
    if BlankFirst(listed) {
      SettledTail(listed);
      assert forall i :: 0 <= i < |listed[1..]| ==> listed[1..][i].heading == listed[i + 1].heading != "";
      SettledIsTidy(listed[1..]);
      HashIsNotBlank(FoundPreamble(preamble, listed));
      FrontTidy(preamble, listed[0].lines);
    } else {
      GluedTidy(listed);
    }
  }

  lemma FrontTidy(preamble: seq<string>, text: seq<string>)
    requires Tidy(preamble) && text != []
    ensures Tidy((if Blank(preamble) then [] else preamble + [""]) + [HeadOf("")] + text) <==> text[|text| - 1] != ""
  {
    hide Blank;
    StripEmptyLine();
  }

  /** The blank heading is printed right after this one. */
  ghost predicate BeforeBlank(headings: seq<string>, heading: string)
  {
    exists i :: 0 <= i < |headings| - 1 && headings[i] == heading && headings[i + 1] == ""
  }

  /** What a caller can look at: the text of a heading and the fragments of its type. */
  ghost predicate Settles(groups: Groups, fragments: Fragments, heading: string)
    requires heading in groups.texts && groups.texts[heading] != []
  {
    var text := groups.texts[heading];
    if heading == "" then text[|text| - 1] != ""
    else if Entries(fragments, heading) != [] || BeforeBlank(HeadingsOf(Listed(groups, fragments)), heading) then text[0] != ""
    else Tidy(text)
  }

  lemma SettledIff(groups: Groups, fragments: Fragments, lines: seq<string>, i: nat)
    requires GoodGroups(groups, lines) && GoodFragments(fragments) && i < |Listed(groups, fragments)|
    requires OneBlank(Listed(groups, fragments))
    ensures var heading := Listed(groups, fragments)[i].heading;
            && (heading in groups.texts ==> groups.texts[heading] != [])
            && (SettledAt(Listed(groups, fragments), i)
                <==> (heading in groups.texts ==> Settles(groups, fragments, heading)))
  {
    hide GoodGroups, GoodFragments, Pieces, Concat, Entries, InOrder, Headings;
    var listed := Listed(groups, fragments);
    var heading := listed[i].heading;
    ListedHeadings(Headings(groups), groups.texts, fragments);
    assert listed[i] in listed && HeadingsOf(listed)[i] == heading;
    GroupEnds(groups, fragments, heading, lines);
    assert BeforeBlank(HeadingsOf(listed), heading) <==> i + 1 < |listed| && listed[i + 1].heading == "" by {
      if i + 1 < |listed| && listed[i + 1].heading == "" { assert HeadingsOf(listed)[i + 1] == ""; }
    }
    EntriesOfBlank(fragments);
  }

  lemma EntriesOfBlank(fragments: Fragments)
    ensures Entries(fragments, "") == []
  {
    OrderPlain();
  }

  /** Exactly, on what is given to the first merge: merging again changes nothing if and only if no heading that has
      fragments has an empty line first in its hand-written text, and no other one has an empty line at an end of it. Under
      a blank heading only the end of the text counts, under the one printed before it only the start. */
  lemma MergeAgainGivenIff(lines: seq<string>, fragments: Fragments)
    requires GoodFragments(fragments)
    ensures var groups := SplitGroups(lines).1;
            && (forall key :: key in groups.texts ==> groups.texts[key] != [])
            && (Merged(Merged(lines, fragments), map[]) == Merged(lines, fragments)
                <==> forall key :: key in groups.texts ==> Settles(groups, fragments, key))
  {
    hide SplitGroups, GoodFragments, Merged, Listed, Tidy, Settles, SettledAt, AllTidy, FrontSettled, FoundGroups, FoundPreamble,
         Stripped, Headings, Concat;
    var (preamble, groups) := SplitGroups(lines);
    var listed := Listed(groups, fragments);
    SplitIsGood(lines);
    assert forall key :: key in groups.texts ==> GoodText(groups.texts[key], lines);
    ListedIsGood(lines, fragments);
    assert OneBlank(listed);
    MergeAgainIff(lines, fragments);
    FoundTidy(preamble, listed);
    forall i | 0 <= i < |listed|
      ensures SettledAt(listed, i)
              <==> (listed[i].heading in groups.texts ==> Settles(groups, fragments, listed[i].heading))
    {
      SettledIff(groups, fragments, lines, i);
    }
    forall key | key in groups.texts ensures exists i :: 0 <= i < |listed| && listed[i].heading == key {
      KeyListed(groups, fragments, key, lines);
    }
  }

  lemma KeyListed(groups: Groups, fragments: Fragments, key: string, lines: seq<string>)
    requires GoodGroups(groups, lines) && key in groups.texts
    ensures exists i :: 0 <= i < |Listed(groups, fragments)| && Listed(groups, fragments)[i].heading == key
  {
    hide InOrder, Concat, Others, GoodText, Stripped, Entries;
    var listed := Listed(groups, fragments);
    HeadingsDistinct(groups, lines);
    ListedHeadings(Headings(groups), groups.texts, fragments);
    assert key in HeadingsOf(listed);
    var i :| 0 <= i < |listed| && HeadingsOf(listed)[i] == key;
  }

  lemma OneFragment(entry: seq<string>)
    requires Rendered(entry)
    ensures GoodFragments(map[TYPES[0] := [entry]]) && Entries(map[TYPES[0] := [entry]], ORDER[0]) == [entry]
  {
    hide Rendered, Lower;
    OrderIsTypes();
    assert Lower(ORDER[0]) == TYPES[0];
  }

  /** A heading with nothing under it, and a fragment of that type: the first merge leaves an empty line above the entry
      that the second one takes away. */
  lemma EmptyGroupIsNotSettled(entry: seq<string>)
    requires Rendered(entry)
    ensures var fragments := map[TYPES[0] := [entry]];
            var merged := Merged([HeadOf(ORDER[0])], fragments);
            GoodFragments(fragments) && Merged(merged, map[]) != merged
  {
    hide HeadOf, IsGroup, KeyOf, Stripped, GoodFragments, Rendered, Entries, SplitGroups, Listed, Merged, BeforeBlank, Tidy;
    var heading, fragments := ORDER[0], map[TYPES[0] := [entry]];
    var lines := [HeadOf(heading)];
    OrderPlain();
    HeadIsGroup(heading);
    OneEmptyGroup(lines, heading);
    OneFragment(entry);
    MergeAgainGivenIff(lines, fragments);
    assert !Settles(SplitGroups(lines).1, fragments, heading);
  }

  lemma OneEmptyGroup(lines: seq<string>, heading: string)
    requires lines == [HeadOf(heading)] && IsGroup(HeadOf(heading)) && KeyOf(HeadOf(heading)) == heading
    ensures SplitGroups(lines).1 == Groups([heading], map[heading := [""]])
  {
    hide HeadOf, IsGroup, KeyOf, Trimmed;
    var block := Block(lines[0], []);
    assert [block][1..] == [] && Flat([block]) == [block.head] + block.body + [] == lines;
    SplitOfFlat([], [block], IsGroup);
    assert [] + lines == lines;
    var blocks := BlocksOf(lines, IsGroup);
    assert blocks == [block];
    TrimmedEmpty([]);
    assert blocks[..0] == [];
    assert GroupsOf(blocks[..0]) == Groups([], map[]);
    HeadsAreGroups(lines);
    var n := |blocks| - 1;
    assert blocks[n] == block && GroupsOf(blocks) == AddGroup(GroupsOf(blocks[..n]), blocks[n]);
  }
}
