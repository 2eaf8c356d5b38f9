// Fragments on disk, and the two commands that must agree: what `prepare` writes, `check-tag` accepts (release.py).
module ReleaseGate {
  import opened Prelude
  import opened Text
  import opened Blocks
  import opened Sections
  import opened Merging
  import opened MergeLaws
  import opened Promotion
  import opened Versions

  // ----- Fragments on disk -----

  /** A file of changelog.d, other than the README and hidden files. */
  datatype FragmentFile = FragmentFile(name: string, text: string)

  predicate IsLower(c: char) { 'a' <= c <= 'z' }

  predicate IsWord(c: char) { IsLower(c) || 'A' <= c <= 'Z' || IsDigit(c) }

  /** FRAGMENT_NAME: `<issue-or-slug>.<type>.md`; the type. */
  function FragmentType(name: string): Option<string>
  {
    if |name| < 3 || name[|name| - 3..] != ".md" then None
    else
      var base := name[..|name| - 3];
      var dot := FirstDot(base);
      if dot == 0 || dot == |base| then None
      else
        var slug, kind := base[..dot], base[dot + 1..];
        if IsWord(slug[0]) && (forall i :: 0 <= i < |slug| ==> IsWord(slug[i]) || slug[i] == '_' || slug[i] == '-')
           && kind != "" && forall i :: 0 <= i < |kind| ==> IsLower(kind[i])
        then Some(kind) else None
  }

  /** `fragment_problem`: whether there is none. */
  predicate ValidFragment(file: FragmentFile)
  {
    && FragmentType(file.name).Some? && FragmentType(file.name).value in TYPES
    && Strip(file.text) != ""
  }

  /** `entries.setdefault(type, []).append(render_entry(text))`. */
  function AddEntry(entries: Fragments, file: FragmentFile): Fragments
    requires ValidFragment(file)
  {
    var t := FragmentType(file.name).value;
    entries[t := (if t in entries then entries[t] else []) + [RenderEntry(file.text)]]
  }

  /** `read_fragments`. */
  function ReadFragments(files: seq<FragmentFile>): Result<Fragments, Error>
  {
    if files == [] then Ok(map[])
    else
      var n := |files| - 1;
      match ReadFragments(files[..n])
      case Err(e) => Err(e)
      case Ok(entries) => if ValidFragment(files[n]) then Ok(AddEntry(entries, files[n])) else Err(BadFragment(files[n].name))
  }

  method LoadFragments(files: seq<FragmentFile>) returns (r: Result<Fragments, Error>)
    ensures r == ReadFragments(files)
  {
    hide ValidFragment, RenderEntry, FragmentType;
    var entries: Fragments := map[];
    for i := 0 to |files|
      invariant ReadFragments(files[..i]) == Ok(entries)
    {
      assert files[..i + 1][..i] == files[..i];
      if !ValidFragment(files[i]) {
        FragmentsFail(files, i, BadFragment(files[i].name));
        return Err(BadFragment(files[i].name));
      }
      entries := AddEntry(entries, files[i]);
    }
    assert files[..|files|] == files;
    r := Ok(entries);
  }

  lemma {:induction false} FragmentsFail(files: seq<FragmentFile>, i: nat, e: Error)
    requires i < |files| && ReadFragments(files[..i + 1]) == Err(e)
    ensures ReadFragments(files) == Err(e)
    decreases |files|
  {
    hide ValidFragment, AddEntry;
    if i + 1 < |files| {
      assert files[..|files| - 1][..i + 1] == files[..i + 1];
      FragmentsFail(files[..|files| - 1], i, e);
    } else {
      assert files[..i + 1] == files;
    }
  }

  /** What `read_fragments` accepts is rendered under known types, and empty only without files. */
  lemma {:induction false} ReadFragmentsGood(files: seq<FragmentFile>)
    requires ReadFragments(files).Ok?
    ensures GoodFragments(ReadFragments(files).value)
    ensures ReadFragments(files).value == map[] <==> files == []
  {
    hide Strip, RenderEntry, FragmentType, Rendered, TYPES, IsSection, IsGroup;
    if files == [] {
    } else {
      var n := |files| - 1;
      ReadFragmentsGood(files[..n]);
      RenderedEntry(files[n].text);
      var t := FragmentType(files[n].name).value;
      assert t in ReadFragments(files).value;
    }
  }

  // ----- Dates -----

  function DaysIn(year: nat, month: nat): nat
  {
    if month == 2 then (if year % 4 == 0 && (year % 100 != 0 || year % 400 == 0) then 29 else 28)
    else if month in {4, 6, 9, 11} then 30
    else 31
  }

  /** `date.fromisoformat` on the form YYYY-MM-DD. */
  predicate IsoDate(d: string)
  {
    DateForm(d) &&
    var year, month, day := ParseDecimal(d[..4]), ParseDecimal(d[5..7]), ParseDecimal(d[8..]);
    1 <= year && 1 <= month <= 12 && 1 <= day <= DaysIn(year, month)
  }

  // ----- prepare -----

  datatype Prepared = Prepared(version: string, changelog: seq<string>, init: seq<string>)

  /** `default_target`. */
  function DefaultTarget(current: Version, changelog: seq<string>): Version
  {
    if !HasSection(changelog, FormatVersion(current)) then current
    else current.(patch := current.patch + 1)
  }

  /** Everything `cmd_prepare` checks and computes before it writes; `version` is empty when none is given, `treeReady` is
      the outcome of the working tree checks. */
  function Prepare(init: seq<string>, changelog: seq<string>, files: seq<FragmentFile>, version: string,
                   ownerApproved: bool, treeReady: bool, date: string): Result<Prepared, Error>
  {
    var text :- ReadVersion(init);
    var current :- ParseVersion(text);
    var target :- if version != "" then ParseVersion(version) else Ok(DefaultTarget(current, changelog));
    var name := FormatVersion(target);
    match CheckBump(current, target, ownerApproved)
    case Some(e) => Err(e)
    case None =>
      if !treeReady then Err(TreeNotReady)
      else if !IsoDate(date) then Err(BadDate)
      else
        var fragments :- ReadFragments(files);
        var newChangelog :- Promote(changelog, name, date, fragments);
        var newInit :- WriteVersion(init, name);
        Ok(Prepared(name, newChangelog, newInit))
  }

  /** `cmd_check_tag` without the ancestor check. */
  function CheckTag(init: seq<string>, changelog: seq<string>, files: seq<FragmentFile>, tag: string,
                    ownerApproved: bool): Option<Error>
  {
    match TagVersion(tag)
    case Err(e) => Some(e)
    case Ok(version) =>
      match ReadVersion(init)
      case Err(e) => Some(e)
      case Ok(inTree) =>
        if inTree != version then Some(TagMismatch)
        else
          match ParseVersion(version)
          case Err(e) => Some(e)
          case Ok(v) =>
            match CheckPolicy(v, ownerApproved)
            case Some(e) => Some(e)
            case None =>
              match SectionBody(changelog, version)
              case Err(e) => Some(e)
              case Ok(_) => if files != [] then Some(FragmentsLeft) else None
  }

  /** The source tree the commands work on. */
  class Tree {
    var init: seq<string>
    var changelog: seq<string>
    var fragments: seq<FragmentFile>

    /** `cmd_prepare`. Nothing is written unless everything has been checked. */
    method PrepareRelease(version: string, ownerApproved: bool, treeReady: bool, date: string, dryRun: bool)
      returns (error: Option<Error>)
      modifies this
      ensures var plan := Prepare(old(init), old(changelog), old(fragments), version, ownerApproved, treeReady, date);
              && error == (match plan case Err(e) => Some(e) case Ok(_) => None)
              && (plan.Err? || dryRun ==> init == old(init) && changelog == old(changelog) && fragments == old(fragments))
              && (plan.Ok? && !dryRun ==>
                  init == plan.value.init && changelog == plan.value.changelog && fragments == [])
    {
      hide ReadVersion, ParseVersion, FormatVersion, CheckBump, IsoDate, ReadFragments, Promote, WriteVersion, DefaultTarget;
      var text := ReadVersion(init);
      if text.Err? { return Some(text.error); }
      var current := ParseVersion(text.value);
      if current.Err? { return Some(current.error); }
      var target := if version != "" then ParseVersion(version) else Ok(DefaultTarget(current.value, changelog));
      if target.Err? { return Some(target.error); }
      var name := FormatVersion(target.value);
      var refused := CheckBump(current.value, target.value, ownerApproved);
      if refused.Some? { return refused; }
      if !treeReady { return Some(TreeNotReady); }
      if !IsoDate(date) { return Some(BadDate); }
      var entries := LoadFragments(fragments);
      if entries.Err? { return Some(entries.error); }
      var newChangelog := Promote(changelog, name, date, entries.value);
      if newChangelog.Err? { return Some(newChangelog.error); }
      var newInit := WriteVersion(init, name);
      if newInit.Err? { return Some(newInit.error); }
      if !dryRun {
        changelog := newChangelog.value;
        while fragments != []
          modifies this`fragments
          decreases |fragments|
        {
          fragments := fragments[1..];
        }
        if newInit.value != init { init := newInit.value; }
      }
      error := None;
    }

    /** `cmd_check_tag`. */
    method CheckTagged(tag: string, ownerApproved: bool) returns (error: Option<Error>)
      ensures error == CheckTag(init, changelog, fragments, tag, ownerApproved)
    {
      hide SectionBody, ReadVersion, ParseVersion, TagVersion, CheckPolicy;
      var version := TagVersion(tag);
      if version.Err? { return Some(version.error); }
      var inTree := ReadVersion(init);
      if inTree.Err? { return Some(inTree.error); }
      if inTree.value != version.value { return Some(TagMismatch); }
      var parsed := ParseVersion(version.value);
      if parsed.Err? { return Some(parsed.error); }
      var refused := CheckPolicy(parsed.value, ownerApproved);
      if refused.Some? { return refused; }
      var body := ReadSection(changelog, version.value);
      if body.Err? { return Some(body.error); }
      if fragments != [] { return Some(FragmentsLeft); }
      error := None;
    }
  }

  // ----- Prepare implies the gate -----

  /** The version `prepare` writes, and what was true of it. */
  lemma PreparedFacts(init: seq<string>, changelog: seq<string>, files: seq<FragmentFile>, version: string,
                      ownerApproved: bool, treeReady: bool, date: string)
    returns (current: Version, target: Version, fragments: Fragments)
    requires Prepare(init, changelog, files, version, ownerApproved, treeReady, date).Ok?
    ensures var p := Prepare(init, changelog, files, version, ownerApproved, treeReady, date).value;
            && p.version == FormatVersion(target) && CheckBump(current, target, ownerApproved) == None
            && ReadVersion(init).Ok? && ParseVersion(ReadVersion(init).value) == Ok(current)
            && DateForm(date) && ReadFragments(files) == Ok(fragments)
            && Promote(changelog, p.version, date, fragments) == Ok(p.changelog)
            && WriteVersion(init, p.version) == Ok(p.init)
  {
    hide ReadVersion, ParseVersion, FormatVersion, CheckBump, ReadFragments, Promote, WriteVersion, DefaultTarget, DateForm,
         ParseDecimal, DaysIn;
    current := ParseVersion(ReadVersion(init).value).value;
    target := if version != "" then ParseVersion(version).value else DefaultTarget(current, changelog);
    fragments := ReadFragments(files).value;
  }

  /** From a tree at 0.0.x, a prepare without the owner's flag leaves a tree whose tag passes the gate exactly when there
      were fragments or there was text under the plain Unreleased heading. */
  lemma PrepareImpliesGateIff(init: seq<string>, changelog: seq<string>, files: seq<FragmentFile>, version: string,
                              treeReady: bool, date: string)
    requires Prepare(init, changelog, files, version, false, treeReady, date).Ok?
    requires ReadVersion(init).Ok? && ParseVersion(ReadVersion(init).value).Ok?
    requires CheckPolicy(ParseVersion(ReadVersion(init).value).value, false) == None
    ensures var p := Prepare(init, changelog, files, version, false, treeReady, date).value;
            var blocks := SectionsOf(changelog);
            && (files == [] ==> PlainBlock(blocks) < |blocks|)
            && (CheckTag(p.init, p.changelog, [], "v" + p.version, false) == None
                <==> files != [] || !Blank(Trimmed(blocks[PlainBlock(blocks)].body)))
  {
    hide ReadVersion, ParseVersion, FormatVersion, ReadFragments, Promote, WriteVersion, DateForm, SectionBody, TagVersion,
         Trimmed, Blank, PlainBlock, SectionsOf, Prepare, Merged, GoodFragments;
    var current, target, fragments := PreparedFacts(init, changelog, files, version, false, treeReady, date);
    var p := Prepare(init, changelog, files, version, false, treeReady, date).value;
    VersionRoundTrip(target);
    FormattedVersion(target);
    ReadWritten(init, p.version);
    ReadFragmentsGood(files);
    assert CheckPolicy(target, false) == None;
    if files == [] {
      ReheadedBody(changelog, p.version, date);
    } else {
      PromotedBody(changelog, p.version, date, fragments);
    }
  }

  /** In particular it passes when the first section named Unreleased is the one with the plain heading. */
  lemma PrepareImpliesGate(init: seq<string>, changelog: seq<string>, files: seq<FragmentFile>, version: string,
                           treeReady: bool, date: string)
    requires Prepare(init, changelog, files, version, false, treeReady, date).Ok?
    requires ReadVersion(init).Ok? && ParseVersion(ReadVersion(init).value).Ok?
    requires CheckPolicy(ParseVersion(ReadVersion(init).value).value, false) == None
    requires files != [] || FirstBlock(SectionsOf(changelog), UNRELEASED) == PlainBlock(SectionsOf(changelog))
    ensures var p := Prepare(init, changelog, files, version, false, treeReady, date).value;
            CheckTag(p.init, p.changelog, [], "v" + p.version, false) == None
  {
    hide ReadVersion, ParseVersion, FormatVersion, ReadFragments, WriteVersion, DateForm, SectionBody, TagVersion,
         Trimmed, Blank, PlainBlock, SectionsOf, Prepare, Merged, GoodFragments, CheckTag, HasSection, UnreleasedCount,
         UNRELEASED, FirstBlock, CheckPolicy, CheckBump, Reheaded, Spliced;
    PrepareImpliesGateIff(init, changelog, files, version, treeReady, date);
    if files == [] {
      var current, target, fragments := PreparedFacts(init, changelog, files, version, false, treeReady, date);
      ReadFragmentsGood(files);
      BodyIs(changelog, UNRELEASED);
    }
  }

  /** The version that is prepared when none is named is never refused for its number, and has no section yet unless the
      next patch was released ahead. */
  lemma DefaultIsAllowed(current: Version, changelog: seq<string>)
    ensures var target := DefaultTarget(current, changelog);
            && CheckBump(current, target, false) == None
            && (HasSection(changelog, FormatVersion(target)) ==> HasSection(changelog, FormatVersion(current)) && target != current)
  {
    hide HasSection, FormatVersion;
  }

  /** A release cannot be prepared twice: the prepared tree has no fragments and nothing under Unreleased. */
  lemma PreparedOnce(init: seq<string>, changelog: seq<string>, files: seq<FragmentFile>, version: string,
                     treeReady: bool, date: string, again: string, laterDate: string)
    requires Prepare(init, changelog, files, version, false, treeReady, date).Ok? && files != []
    ensures var p := Prepare(init, changelog, files, version, false, treeReady, date).value;
            Prepare(p.init, p.changelog, [], again, false, treeReady, laterDate).Err?
  {
    hide ReadVersion, ParseVersion, FormatVersion, WriteVersion, DateForm, SectionBody, GoodFragments, CheckBump,
         Prepare, Promote, Merged, Trimmed, UnreleasedText;
    var current, target, fragments := PreparedFacts(init, changelog, files, version, false, treeReady, date);
    var p := Prepare(init, changelog, files, version, false, treeReady, date).value;
    FormattedVersion(target);
    ReadFragmentsGood(files);
    PromotedBody(changelog, FormatVersion(target), date, fragments);
    if Prepare(p.init, p.changelog, [], again, false, treeReady, laterDate).Ok? {
      var _, later, none := PreparedFacts(p.init, p.changelog, [], again, false, treeReady, laterDate);
      NothingToPromote(p.changelog, FormatVersion(later), laterDate);
    }
  }

  lemma NothingToPromote(lines: seq<string>, version: string, date: string)
    requires SectionBody(lines, UNRELEASED).Err?
    ensures Promote(lines, version, date, map[]).Err?
  {
    hide HasSection, SectionBody, UnreleasedCount, FirstUnreleased;
  }

  // ----- Where the gate fails -----

  function VersionLine(version: string): string { ASSIGNED + "=" + ['"'] + version + ['"'] }

  lemma VersionLineRead(version: string)
    requires version != "" && '"' !in version
    ensures ReadVersion([VersionLine(version)]) == Ok(version)
  {
    hide IsSpace, ASSIGNED;
    var line := VersionLine(version);
    var end := 13 + |version|;
    AssignedLength();
    assert line == ASSIGNED + ("=" + ['"'] + version + ['"']);
    assert line[..11] == ASSIGNED && line[11] == '=' && line[12] == '"' && line[end] == '"';
    EqualsIsNoSpace();
    SkipSpacesIs(line, 11, 11);
    SkipSpacesIs(line, 12, 12);
    assert forall k :: 13 <= k < end ==> line[k] == version[k - 13] && version[k - 13] in version;
    SkipToQuoteIs(line, 13, end);
    assert line[13..end] == version;
  }

  lemma AssignedLength()
    ensures |ASSIGNED| == 11
  {
  }

  /** A dated heading named Unreleased with some text, then the plain heading with nothing under it. */
  function DatedFirst(date: string, text: string): seq<string>
  {
    [Heading(UNRELEASED, date), text, UNRELEASED_HEADING]
  }

  lemma DatedBlocks(date: string, text: string)
    requires DateForm(date) && Strip(text) != "" && !IsSection(text)
    ensures SectionsOf(DatedFirst(date, text)) == [Block(Heading(UNRELEASED, date), [text]), Block(UNRELEASED_HEADING, [])]
    ensures UnreleasedCount(DatedFirst(date, text)) == 1 && !IsUnreleased(Heading(UNRELEASED, date)) && IsUnreleased(UNRELEASED_HEADING)
    ensures NameOf(Heading(UNRELEASED, date)) == UNRELEASED == NameOf(UNRELEASED_HEADING)
  {
    hide Heading, DateForm, Strip, SectionName, IsUnreleased, Flat, UnreleasedCount, UNRELEASED_HEADING;
    var blocks := [Block(Heading(UNRELEASED, date), [text]), Block(UNRELEASED_HEADING, [])];
    HeadingName(UNRELEASED, date);
    PlainUnreleased();
    UnreleasedName(UNRELEASED_HEADING);
    FlatTwo(blocks[0], blocks[1]);
    assert Flat(blocks) == DatedFirst(date, text);
    assert [] + Flat(blocks) == Flat(blocks);
    assert GoodBlock(blocks[0], IsSection) && GoodBlock(blocks[1], IsSection);
    SplitOfFlat([], blocks, IsSection);
    CountTwo(blocks[0], blocks[1]);
  }

  lemma NotTheName(v: Version)
    ensures FormatVersion(v) != UNRELEASED
  {
    hide Decimal;
    assert FormatVersion(v)[0] == Decimal(v.major)[0] && IsDigit(Decimal(v.major)[0]);
    assert UNRELEASED[0] == 'U';
  }

  lemma OneLineText(text: string)
    requires Strip(text) != ""
    ensures Trimmed([text]) == [text] && !Blank([text]) && Blank(Trimmed([]))
  {
    hide Strip, Trimmed;
    StripOfEmpty();
    TrimmedIsTidy([text]);
    TrimmedEmpty([]);
    assert text in [text];
  }

  lemma DatedPromotes(date: string, text: string, version: string)
    requires DateForm(date) && Strip(text) != "" && !IsSection(text) && version != UNRELEASED
    ensures Promote(DatedFirst(date, text), version, date, map[]).Ok? && !HasSection(DatedFirst(date, text), version)
    ensures FirstBlock(SectionsOf(DatedFirst(date, text)), UNRELEASED) == 0 && PlainBlock(SectionsOf(DatedFirst(date, text))) == 1
  {
    hide Heading, DateForm, Strip, IsSection, IsUnreleased, Flat, UnreleasedCount, UNRELEASED_HEADING, UNRELEASED,
         DatedFirst, NameOf, SectionsOf, HasSection, SectionBody, Reheaded, FirstUnreleased, Blank, Trimmed;
    var lines := DatedFirst(date, text);
    DatedBlocks(date, text);
    var blocks := SectionsOf(lines);
    assert blocks[0].head == Heading(UNRELEASED, date) && blocks[1].head == UNRELEASED_HEADING;
    FirstIs(lines, version);
    FirstIs(lines, UNRELEASED);
    FirstIsAt(blocks, UNRELEASED, 0);
    BodyIs(lines, UNRELEASED);
    OneLineText(text);
  }

  /** With such a changelog and no fragments, prepare succeeds on the text under the dated heading, promotes the empty
      section, and the tag is refused. */
  lemma DatedUnreleasedFailsGate(current: Version, text: string, date: string)
    requires CheckPolicy(current, false) == None && IsoDate(date) && Strip(text) != "" && !IsSection(text)
    ensures var init, changelog := [VersionLine(FormatVersion(current))], DatedFirst(date, text);
            var plan := Prepare(init, changelog, [], "", false, true, date);
            && plan.Ok?
            && CheckTag(plan.value.init, plan.value.changelog, [], "v" + plan.value.version, false) != None
  {
    hide ReadVersion, ParseVersion, FormatVersion, WriteVersion, SectionBody, IsSection, Promote, Strip, SectionsOf,
         DatedFirst, HasSection, PlainBlock, Blank, Trimmed, VersionLine, CheckTag, ParseDecimal, UNRELEASED;
    var init, changelog, name := [VersionLine(FormatVersion(current))], DatedFirst(date, text), FormatVersion(current);
    FormattedVersion(current);
    NotTheName(current);
    VersionLineRead(name);
    VersionRoundTrip(current);
    ReadWritten(init, name);
    DatedPromotes(date, text, name);
    DatedBlocks(date, text);
    assert ReadFragments([]) == Ok(map[]);
    OneLineText(text);
    PrepareImpliesGateIff(init, changelog, [], "", true, date);
  }
}
