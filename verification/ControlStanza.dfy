// Control stanzas and the Packages index (apt_repo.py; section 5.1 of Debian Policy): parsing, printing, and what comes
// back when the index is split and parsed again.
module ControlStanza {
  import opened Prelude
  import opened Text

  /** One field. The source keeps the value as one string, the lines of this one joined by newlines. */
  datatype Field = Field(name: string, lines: seq<string>)

  datatype AptError = BadLine

  /** A dict in insertion order: names are distinct. */
  type Fields = seq<Field>

  function Names(fields: Fields): (names: seq<string>)
    ensures |names| == |fields| && forall i :: 0 <= i < |names| ==> names[i] == fields[i].name
  {
    seq(|fields|, i requires 0 <= i < |fields| => fields[i].name)
  }

  ghost predicate DistinctNames(fields: Fields)
  {
    forall i, j :: 0 <= i < j < |fields| ==> fields[i].name != fields[j].name
  }

  /** Where a name is, or |fields|. */
  function Place(fields: Fields, name: string): (at: nat)
    ensures at <= |fields| && (at < |fields| ==> fields[at].name == name)
    ensures forall i :: 0 <= i < at ==> fields[i].name != name
  {
    if fields == [] || fields[0].name == name then 0 else 1 + Place(fields[1..], name)
  }

  /** `fields[name] = value`: in place when the name is known, else at the end. */
  function Put(fields: Fields, name: string, lines: seq<string>): Fields
  {
    var at := Place(fields, name);
    if at < |fields| then fields[at := Field(name, lines)] else fields + [Field(name, lines)]
  }

  /** The value of a name; the empty list of lines when it is not there. */
  function Get(fields: Fields, name: string): seq<string>
  {
    var at := Place(fields, name);
    if at < |fields| then fields[at].lines else []
  }

  function FirstColon(line: string): (n: nat)
    ensures n <= |line| && (n < |line| ==> line[n] == ':')
    ensures forall i :: 0 <= i < n ==> line[i] != ':'
  {
    if line == "" || line[0] == ':' then 0 else 1 + FirstColon(line[1..])
  }

  predicate Continues(line: string) { line != "" && (line[0] == ' ' || line[0] == '\t') }

  /** The loop variables of `parse_control`. */
  datatype State = State(fields: Fields, last: string)

  /** One turn of the loop. */
  function ParseLine(st: State, line: string): Result<State, AptError>
  {
    if Strip(line) == "" then Ok(st)
    else if Continues(line) && st.last != "" then
      Ok(st.(fields := Put(st.fields, st.last, Get(st.fields, st.last) + [line])))
    else
      var n := FirstColon(line);
      if n == |line| then Err(BadLine)
      else
        var key := Strip(line[..n]);
        Ok(State(Put(st.fields, key, [Strip(line[n + 1..])]), key))
  }

  function ParseFrom(st: State, lines: seq<string>): Result<State, AptError>
    decreases |lines|
  {
    if lines == [] then Ok(st)
    else
      match ParseLine(st, lines[0])
      case Err(e) => Err(e)
      case Ok(next) => ParseFrom(next, lines[1..])
  }

  const START := State([], "")

  function ParseControl(text: string): Result<Fields, AptError>
  {
    match ParseFrom(START, SplitLines(text))
    case Err(e) => Err(e)
    case Ok(st) => Ok(st.fields)
  }

  /** `parse_control`: the loop over the lines. */
  method Parse(text: string) returns (r: Result<Fields, AptError>)
    ensures r == ParseControl(text)
  {
    hide Put, Get, Strip, Continues;
    var lines := SplitLines(text);
    var fields: Fields, last := [], "";
    for i := 0 to |lines|
      invariant ParseFrom(START, lines) == ParseFrom(State(fields, last), lines[i..])
    {
      var line := lines[i];
      assert lines[i..][0] == line && lines[i..][1..] == lines[i + 1..];
      if Strip(line) == "" {
        continue;
      }
      if Continues(line) && last != "" {
        fields := Put(fields, last, Get(fields, last) + [line]);
        continue;
      }
      var n := FirstColon(line);
      if n == |line| {
        return Err(BadLine);
      }
      last := Strip(line[..n]);
      fields := Put(fields, last, [Strip(line[n + 1..])]);
    }
    r := Ok(fields);
  }

  // ----- Printing -----

  function FieldLines(f: Field): seq<string>
    requires f.lines != []
  {
    [f.name + ": " + f.lines[0]] + f.lines[1..]
  }

  function PrintLines(fields: Fields): seq<string>
    requires forall f :: f in fields ==> f.lines != []
  {
    if fields == [] then [] else PrintLines(fields[..|fields| - 1]) + FieldLines(fields[|fields| - 1])
  }

  /** `f"{key}: {value}"` for every field, joined by newlines. */
  function Print(fields: Fields): string
    requires forall f :: f in fields ==> f.lines != []
  {
    Join(PrintLines(fields))
  }

  // ----- What the parser produces -----

  predicate GoodMore(line: string) { NoBreak(line) && Continues(line) && Strip(line) != "" }

  /** A field as the parser leaves it: stripped name and first line, continuation lines as they stood. */
  ghost predicate GoodField(f: Field)
  {
    && NoBreak(f.name) && Stripped(f.name) && ':' !in f.name
    && f.lines != [] && NoBreak(f.lines[0]) && Stripped(f.lines[0])
    && (forall i :: 1 <= i < |f.lines| ==> GoodMore(f.lines[i]))
    && (f.name == "" ==> |f.lines| == 1)
  }

  ghost predicate GoodFields(fields: Fields)
  {
    DistinctNames(fields) && forall i :: 0 <= i < |fields| ==> GoodField(fields[i])
  }

  ghost predicate GoodState(st: State)
  {
    GoodFields(st.fields) && (st.last != "" ==> Place(st.fields, st.last) < |st.fields|)
  }

  lemma PutGood(fields: Fields, name: string, lines: seq<string>)
    requires GoodFields(fields) && GoodField(Field(name, lines))
    ensures GoodFields(Put(fields, name, lines)) && Place(Put(fields, name, lines), name) < |Put(fields, name, lines)|
  {
    var at, now := Place(fields, name), Put(fields, name, lines);
    assert now[at].name == name;
  }

  lemma StripNoBreak(s: string)
    requires NoBreak(s)
    ensures NoBreak(Strip(s)) && Stripped(Strip(s))
  {
    StripGivesStripped(s);
  }

  lemma NewFieldGood(line: string)
    requires NoBreak(line) && FirstColon(line) < |line|
    ensures var n := FirstColon(line); GoodField(Field(Strip(line[..n]), [Strip(line[n + 1..])]))
  {
    hide Strip, IsBreak, IsSpace, FirstColon, Stripped;
    var n := FirstColon(line);
    assert forall c :: c in line[..n] || c in line[n + 1..] ==> c in line;
    assert ':' !in line[..n];
    StripNoBreak(line[..n]);
    StripNoBreak(line[n + 1..]);
    StripGivesStripped(line[..n]);
  }

  lemma ContinuationGood(st: State, line: string)
    requires GoodState(st) && GoodMore(line) && st.last != ""
    ensures GoodState(State(Put(st.fields, st.last, Get(st.fields, st.last) + [line]), st.last))
  {
    hide GoodMore, NoBreak;
    var f := st.fields[Place(st.fields, st.last)];
    assert GoodField(f);
    assert GoodField(Field(st.last, f.lines + [line])) by {
      var more := f.lines + [line];
      assert more[0] == f.lines[0];
      assert forall i :: 1 <= i < |f.lines| ==> GoodMore(f.lines[i]);
    }
    PutGood(st.fields, st.last, f.lines + [line]);
  }

  lemma NewLineGood(st: State, key: string, value: string)
    requires GoodState(st) && GoodField(Field(key, [value]))
    ensures GoodState(State(Put(st.fields, key, [value]), key))
  {
    PutGood(st.fields, key, [value]);
  }

  lemma LineGood(st: State, line: string)
    requires GoodState(st) && NoBreak(line) && ParseLine(st, line).Ok?
    ensures GoodState(ParseLine(st, line).value)
  {
    hide GoodField, GoodFields, Put, Place, Get, Strip, NoBreak;
    if Strip(line) == "" {
    } else if Continues(line) && st.last != "" {
      ContinuationGood(st, line);
    } else {
      NewFieldGood(line);
      NewLineGood(st, Strip(line[..FirstColon(line)]), Strip(line[FirstColon(line) + 1..]));
    }
  }

  lemma {:induction false} ParseGood(st: State, lines: seq<string>)
    requires GoodState(st) && (forall i :: 0 <= i < |lines| ==> NoBreak(lines[i])) && ParseFrom(st, lines).Ok?
    ensures GoodState(ParseFrom(st, lines).value)
    decreases |lines|
  {
    hide ParseLine, GoodState;
    if lines == [] {
    } else {
      LineGood(st, lines[0]);
      ParseGood(ParseLine(st, lines[0]).value, lines[1..]);
    }
  }

  // ----- Reading a printed stanza back -----

  lemma {:induction false} ParseAppend(st: State, a: seq<string>, b: seq<string>)
    requires ParseFrom(st, a).Ok?
    ensures ParseFrom(st, a + b) == ParseFrom(ParseFrom(st, a).value, b)
    decreases |a|
  {
    hide ParseLine;
    if a == [] {
      assert a + b == b;
    } else {
      assert (a + b)[1..] == a[1..] + b;
      ParseAppend(ParseLine(st, a[0]).value, a[1..], b);
    }
  }

  lemma ColonAt(name: string, rest: string)
    requires ':' !in name
    ensures FirstColon(name + ": " + rest) == |name|
  {
    hide FirstColon;
    var line := name + ": " + rest;
    assert line == name + (": " + rest);
    assert line[|name|] == ':' && forall i :: 0 <= i < |name| ==> line[i] == name[i] && line[i] in name;
  }

  lemma NotContinued(name: string, rest: string)
    requires Stripped(name)
    ensures !Continues(name + ": " + rest)
  {
    var line := name + ": " + rest;
    assert line[0] == if name == "" then ':' else name[0];
  }

  /** The first line of a printed field is read as that field. */
  lemma FirstLineRead(st: State, f: Field)
    requires GoodField(f) && Place(st.fields, f.name) == |st.fields|
    ensures ParseLine(st, f.name + ": " + f.lines[0]) == Ok(State(st.fields + [Field(f.name, [f.lines[0]])], f.name))
  {
    hide Strip, Place, NoBreak, IsSpace, Stripped, Continues, FirstColon;
    var line, n := f.name + ": " + f.lines[0], |f.name|;
    ColonAt(f.name, f.lines[0]);
    ColonIsNoSpace();
    NotBlank(line, n);
    NotContinued(f.name, f.lines[0]);
    assert line[..n] == f.name && line[n + 1..] == " " + f.lines[0];
    StripGivesStripped(f.name);
    StripSpaceBefore(f.lines[0]);
  }

  lemma ParseStep(st: State, lines: seq<string>, next: State)
    requires lines != [] && ParseLine(st, lines[0]) == Ok(next)
    ensures ParseFrom(st, lines) == ParseFrom(next, lines[1..])
  {
  }

  lemma MoreLineRead(fields: Fields, name: string, lines: seq<string>, line: string)
    requires name != "" && Place(fields, name) == |fields| && GoodMore(line)
    ensures ParseLine(State(fields + [Field(name, lines)], name), line)
         == Ok(State(fields + [Field(name, lines + [line])], name))
  {
    PlaceLast(fields, name, lines);
    var now := fields + [Field(name, lines)];
    assert now[|fields| := Field(name, lines + [line])] == fields + [Field(name, lines + [line])];
  }

  /** Its continuation lines are added one by one. */
  lemma {:induction false} MoreLinesRead(fields: Fields, f: Field, n: nat)
    requires GoodField(f) && 1 <= n <= |f.lines| && Place(fields, f.name) == |fields|
    ensures ParseFrom(State(fields + [Field(f.name, f.lines[..n])], f.name), f.lines[n..])
         == Ok(State(fields + [f], f.name))
    decreases |f.lines| - n
  {
    hide ParseLine, Place, GoodMore, NoBreak;
    if n == |f.lines| {
      assert f.lines[..n] == f.lines;
    } else {
      assert GoodMore(f.lines[n]);
      MoreLineRead(fields, f.name, f.lines[..n], f.lines[n]);
      assert f.lines[..n] + [f.lines[n]] == f.lines[..n + 1];
      var next := State(fields + [Field(f.name, f.lines[..n + 1])], f.name);
      ParseStep(State(fields + [Field(f.name, f.lines[..n])], f.name), f.lines[n..], next);
      assert f.lines[n..][1..] == f.lines[n + 1..];
      MoreLinesRead(fields, f, n + 1);
    }
  }

  lemma PlaceLast(fields: Fields, name: string, lines: seq<string>)
    requires Place(fields, name) == |fields|
    ensures Place(fields + [Field(name, lines)], name) == |fields|
  {
    var now := fields + [Field(name, lines)];
    assert forall i :: 0 <= i < |fields| ==> now[i].name != name;
    assert now[|fields|].name == name;
  }

  lemma FieldRead(st: State, f: Field)
    requires GoodField(f) && Place(st.fields, f.name) == |st.fields|
    ensures ParseFrom(st, FieldLines(f)) == Ok(State(st.fields + [f], f.name))
  {
    FirstLineRead(st, f);
    assert f.lines[..1] == [f.lines[0]];
    assert FieldLines(f)[1..] == f.lines[1..];
    ParseStep(st, FieldLines(f), State(st.fields + [Field(f.name, [f.lines[0]])], f.name));
    MoreLinesRead(st.fields, f, 1);
  }

  function LastName(fields: Fields): string { if fields == [] then "" else fields[|fields| - 1].name }

  lemma GoodFront(fields: Fields)
    requires GoodFields(fields) && fields != []
    ensures var n := |fields| - 1;
            GoodFields(fields[..n]) && GoodField(fields[n]) && Place(fields[..n], fields[n].name) == n
  {
  }

  lemma ParseBoth(st: State, a: seq<string>, middle: State, b: seq<string>, end: State)
    requires ParseFrom(st, a) == Ok(middle) && ParseFrom(middle, b) == Ok(end)
    ensures ParseFrom(st, a + b) == Ok(end)
  {
    hide ParseLine;
    ParseAppend(st, a, b);
  }

  lemma OneMoreField(front: Fields, f: Field, a: seq<string>, st: State)
    requires GoodField(f) && Place(front, f.name) == |front| && ParseFrom(st, a) == Ok(State(front, LastName(front)))
    ensures ParseFrom(st, a + FieldLines(f)) == Ok(State(front + [f], f.name))
  {
    hide ParseFrom, FieldLines, Place;
    FieldRead(State(front, LastName(front)), f);
    ParseBoth(st, a, State(front, LastName(front)), FieldLines(f), State(front + [f], f.name));
  }

  lemma PrintLinesStep(front: Fields, f: Field)
    requires f.lines != [] && forall g :: g in front ==> g.lines != []
    ensures PrintLines(front + [f]) == PrintLines(front) + FieldLines(f)
  {
    assert (front + [f])[..|front|] == front;
  }

  lemma HaveLines(fields: Fields)
    requires GoodFields(fields)
    ensures forall f :: f in fields ==> f.lines != []
  {
  }

  lemma FieldsStep(fields: Fields, st: State)
    requires GoodFields(fields) && fields != [] && GoodFields(fields[..|fields| - 1])
    requires var front := fields[..|fields| - 1];
             ParseFrom(st, PrintLines(front)) == Ok(State(front, LastName(front)))
    ensures ParseFrom(st, PrintLines(fields)) == Ok(State(fields, LastName(fields)))
  {
    hide GoodFields, GoodField, ParseFrom, FieldLines, PrintLines, Place;
    var front, f := fields[..|fields| - 1], fields[|fields| - 1];
    HaveLines(fields);
    GoodFront(fields);
    OneMoreField(front, f, PrintLines(front), st);
    PrintLinesStep(front, f);
    assert fields == front + [f];
  }

  lemma {:induction false} FieldsRead(fields: Fields, st: State)
    requires GoodFields(fields) && st == START
    ensures ParseFrom(st, PrintLines(fields)) == Ok(State(fields, LastName(fields)))
  {
    hide GoodField;
    if fields == [] {
      assert PrintLines(fields) == [];
    } else {
      GoodFront(fields);
      FieldsRead(fields[..|fields| - 1], st);
      FieldsStep(fields, st);
    }
  }

  lemma {:induction false} PrintLinesGood(fields: Fields)
    requires GoodFields(fields)
    ensures forall line :: line in PrintLines(fields) ==> NoBreak(line) && line != ""
  {
    if fields == [] {
    } else {
      var f := fields[|fields| - 1];
      PrintLinesGood(fields[..|fields| - 1]);
      assert GoodField(f);
      assert NoBreak(f.name + ": " + f.lines[0]);
      assert forall i :: 1 <= i < |f.lines| ==> GoodMore(f.lines[i]);
    }
  }

  lemma ParseSplit(text: string, lines: seq<string>, st: State)
    requires SplitLines(text) == lines && ParseFrom(START, lines) == Ok(st)
    ensures ParseControl(text) == Ok(st.fields)
  {
  }

  lemma SomeLines(fields: Fields)
    requires fields != [] && forall f :: f in fields ==> f.lines != []
    ensures PrintLines(fields) != []
  {
    hide GoodFields;
  }

  lemma PrintedParses(fields: Fields)
    requires GoodFields(fields)
    ensures ParseControl(Print(fields)) == Ok(fields)
    ensures fields != [] ==> ParseControl(Print(fields) + "\n") == Ok(fields)
  {
    hide GoodField, GoodFields, NoBreak, ParseControl, ParseFrom, PrintLines, Join;
    HaveLines(fields);
    FieldsRead(fields, START);
    var lines, end := PrintLines(fields), State(fields, LastName(fields));
    assert forall i :: 0 <= i < |lines| ==> NoBreak(lines[i]) && lines[i] != "" by {
      PrintLinesGood(fields);
      assert forall i :: 0 <= i < |lines| ==> lines[i] in lines;
    }
    SplitLinesOfJoin(lines);
    ParseSplit(Join(lines), lines, end);
    if fields != [] {
      SomeLines(fields);
      ParseSplit(Join(lines) + "\n", lines, end);
    }
  }

  /** Stanzas have a normal form: whatever the parser accepts, printing its fields and parsing again gives the same
      fields in the same order, multi-line values included. */
  lemma ParsePrintParse(text: string)
    requires ParseControl(text).Ok?
    ensures var fields := ParseControl(text).value;
            && GoodFields(fields)
            && ParseControl(Print(fields)) == Ok(fields)
  {
    ParseGood(START, SplitLines(text));
    PrintedParses(ParseControl(text).value);
  }

  // ----- The Packages index -----

  datatype DebEntry = DebEntry(name: string, control: Fields, size: nat, sha256: string, md5: string, sha1: string)

  const INDEX_NAMES: seq<string> := ["Filename", "Size", "MD5sum", "SHA1", "SHA256"]

  function IndexFields(e: DebEntry): (fields: Fields)
    ensures Names(fields) == INDEX_NAMES
  {
    [Field("Filename", ["./" + e.name]), Field("Size", [Decimal(e.size)]), Field("MD5sum", [e.md5]),
     Field("SHA1", [e.sha1]), Field("SHA256", [e.sha256])]
  }

  /** Everything the index says about one package file. */
  function Stanza(e: DebEntry): Fields { e.control + IndexFields(e) }

  /** A value is at least one line. */
  ghost predicate Printable(e: DebEntry) { forall f :: f in e.control ==> f.lines != [] }

  /** An entry `read_deb` can produce, for a file name without line breaks. */
  ghost predicate GoodEntry(e: DebEntry)
  {
    && GoodFields(e.control) && e.control != []
    && (forall i :: 0 <= i < |e.control| ==> e.control[i].name !in INDEX_NAMES)
    && NoBreak(e.name) && e.name != "" && !IsSpace(e.name[|e.name| - 1])
    && NoBreak(e.sha256) && Stripped(e.sha256) && NoBreak(e.md5) && Stripped(e.md5) && NoBreak(e.sha1) && Stripped(e.sha1)
  }

  ghost predicate GoodEntries(entries: seq<DebEntry>)
  {
    (forall e :: e in entries ==> GoodEntry(e)) && forall e :: e in entries ==> Printable(e)
  }

  /** Every entry that can be read can be printed. */
  lemma GoodIsPrintable(entries: seq<DebEntry>)
    requires forall e :: e in entries ==> GoodEntry(e)
    ensures GoodEntries(entries)
  {
    forall e | e in entries ensures Printable(e) {
      assert GoodEntry(e);
      HaveLines(e.control);
    }
  }

  // The order: package name, then version, newest first.

  /** `re.split(r"[.+~:-]", version)`. */
  function VersionParts(version: string, part: string): seq<string>
    decreases version
  {
    if version == "" then [part]
    else if version[0] in ".+~:-" then [part] + VersionParts(version[1..], "")
    else VersionParts(version[1..], part + [version[0]])
  }

  function PartNumber(part: string): nat
  {
    if part != "" && forall i :: 0 <= i < |part| ==> IsDigit(part[i]) then ParseDecimal(part) else 0
  }

  function VersionKey(version: string): seq<nat>
  {
    var parts := VersionParts(version, "");
    seq(|parts|, i requires 0 <= i < |parts| => PartNumber(parts[i]))
  }

  function Codes(s: string): seq<nat> { seq(|s|, i requires 0 <= i < |s| => s[i] as nat) }

  /** Lexicographic order, a proper prefix first. */
  predicate Less(a: seq<nat>, b: seq<nat>)
  {
    if b == [] then false
    else if a == [] then true
    else a[0] < b[0] || (a[0] == b[0] && Less(a[1..], b[1..]))
  }

  datatype SortKey = SortKey(package: seq<nat>, version: seq<nat>)

  function KeyOf(e: DebEntry): SortKey
  {
    SortKey(Codes(Join(Get(e.control, "Package"))), VersionKey(Join(Get(e.control, "Version"))))
  }

  predicate KeyLess(a: SortKey, b: SortKey)
  {
    Less(a.package, b.package) || (a.package == b.package && Less(a.version, b.version))
  }

  function Insert(e: DebEntry, sorted: seq<DebEntry>): seq<DebEntry>
  {
    if sorted == [] || !KeyLess(KeyOf(e), KeyOf(sorted[0])) then [e] + sorted
    else [sorted[0]] + Insert(e, sorted[1..])
  }

  /** `sorted(entries, key=..., reverse=True)`: stable, largest key first. */
  function Ordered(entries: seq<DebEntry>): seq<DebEntry>
  {
    if entries == [] then [] else Insert(entries[0], Ordered(entries[1..]))
  }

  lemma {:induction false} LessAsymmetric(a: seq<nat>, b: seq<nat>)
    requires Less(a, b)
    ensures !Less(b, a) && a != b
  {
    if a != [] && a[0] == b[0] {
      LessAsymmetric(a[1..], b[1..]);
    }
  }

  lemma KeyLessAsymmetric(a: SortKey, b: SortKey)
    requires KeyLess(a, b)
    ensures !KeyLess(b, a)
  {
    if Less(a.package, b.package) {
      LessAsymmetric(a.package, b.package);
    } else {
      LessAsymmetric(a.version, b.version);
      if Less(b.package, a.package) { LessAsymmetric(b.package, a.package); }
    }
  }

  ghost predicate NewestFirst(entries: seq<DebEntry>)
  {
    forall i :: 0 <= i < |entries| - 1 ==> !KeyLess(KeyOf(entries[i]), KeyOf(entries[i + 1]))
  }

  lemma NewestFirstTail(sorted: seq<DebEntry>)
    requires sorted != [] && NewestFirst(sorted)
    ensures NewestFirst(sorted[1..])
  {
    var rest := sorted[1..];
    forall i | 0 <= i < |rest| - 1 ensures !KeyLess(KeyOf(rest[i]), KeyOf(rest[i + 1])) {
      assert rest[i] == sorted[i + 1] && rest[i + 1] == sorted[i + 1 + 1];
    }
  }

  lemma NewestFirstPut(e: DebEntry, rest: seq<DebEntry>)
    requires NewestFirst(rest) && (rest != [] ==> !KeyLess(KeyOf(e), KeyOf(rest[0])))
    ensures NewestFirst([e] + rest)
  {
    var all := [e] + rest;
    forall i | 0 <= i < |all| - 1 ensures !KeyLess(KeyOf(all[i]), KeyOf(all[i + 1])) {
      if i > 0 { assert all[i] == rest[i - 1] && all[i + 1] == rest[i - 1 + 1]; }
    }
  }

  lemma {:induction false} InsertOrdered(e: DebEntry, sorted: seq<DebEntry>)
    requires NewestFirst(sorted)
    ensures multiset(Insert(e, sorted)) == multiset{e} + multiset(sorted) && NewestFirst(Insert(e, sorted))
    ensures Insert(e, sorted)[0] == e || (sorted != [] && Insert(e, sorted)[0] == sorted[0])
  {
    if sorted == [] || !KeyLess(KeyOf(e), KeyOf(sorted[0])) {
      NewestFirstPut(e, sorted);
    } else {
      var rest := sorted[1..];
      assert sorted == [sorted[0]] + rest;
      NewestFirstTail(sorted);
      InsertOrdered(e, rest);
      KeyLessAsymmetric(KeyOf(e), KeyOf(sorted[0]));
      assert rest != [] ==> !KeyLess(KeyOf(sorted[0]), KeyOf(sorted[0 + 1]));
      NewestFirstPut(sorted[0], Insert(e, rest));
    }
  }

  lemma OrderedStep(entries: seq<DebEntry>)
    requires entries != []
    ensures Ordered(entries) == Insert(entries[0], Ordered(entries[1..]))
  {
    hide Insert;
  }

  lemma InsertKeeps(e: DebEntry, sorted: seq<DebEntry>, rest: seq<DebEntry>)
    requires NewestFirst(sorted) && multiset(sorted) == multiset(rest)
    ensures multiset(Insert(e, sorted)) == multiset([e] + rest) && NewestFirst(Insert(e, sorted))
  {
    hide NewestFirst, Insert;
    InsertOrdered(e, sorted);
  }

  lemma NoneSorted()
    ensures Ordered([]) == [] && NewestFirst([])
  {
  }

  /** The index lists the same entries, newest version of each package first. */
  lemma {:induction false} OrderedSorts(entries: seq<DebEntry>)
    ensures multiset(Ordered(entries)) == multiset(entries) && NewestFirst(Ordered(entries))
  {
    hide NewestFirst, Insert, Ordered;
    if entries == [] {
      NoneSorted();
    } else {
      OrderedSorts(entries[1..]);
      OrderedStep(entries);
      InsertKeeps(entries[0], Ordered(entries[1..]), entries[1..]);
      assert entries == [entries[0]] + entries[1..];
    }
  }

  lemma {:induction false} LessTotal(a: seq<nat>, b: seq<nat>)
    requires !Less(a, b) && !Less(b, a)
    ensures a == b
  {
    if a == [] || b == [] {
    } else {
      LessTotal(a[1..], b[1..]);
      assert a == [a[0]] + a[1..] && b == [b[0]] + b[1..];
    }
  }

  lemma {:induction false} NotLessTransitive(a: seq<nat>, b: seq<nat>, c: seq<nat>)
    requires !Less(a, b) && !Less(b, c)
    ensures !Less(a, c)
  {
    if a == [] || b == [] || c == [] {
    } else if a[0] == b[0] == c[0] {
      NotLessTransitive(a[1..], b[1..], c[1..]);
    }
  }

  lemma NotKeyLessTransitive(a: SortKey, b: SortKey, c: SortKey)
    requires !KeyLess(a, b) && !KeyLess(b, c)
    ensures !KeyLess(a, c)
  {
    hide Less;
    NotLessTransitive(a.package, b.package, c.package);
    if a.package == c.package {
      LessTotal(a.package, b.package);
      NotLessTransitive(a.version, b.version, c.version);
    }
  }

  /** Of any two entries of the index the later one has no larger key. */
  lemma {:induction false} OrderedEveryPair(entries: seq<DebEntry>, i: nat, j: nat)
    requires i < j < |Ordered(entries)|
    ensures !KeyLess(KeyOf(Ordered(entries)[i]), KeyOf(Ordered(entries)[j]))
    decreases j - i
  {
    hide Ordered, KeyLess, KeyOf;
    OrderedSorts(entries);
    var all := Ordered(entries);
    assert !KeyLess(KeyOf(all[j - 1]), KeyOf(all[j - 1 + 1]));
    if i >= j - 1 {
    } else {
      OrderedEveryPair(entries, i, j - 1);
      NotKeyLessTransitive(KeyOf(all[i]), KeyOf(all[j - 1]), KeyOf(all[j]));
    }
  }

  function WithKey(entries: seq<DebEntry>, key: SortKey): seq<DebEntry>
  {
    if entries == [] then []
    else if KeyOf(entries[0]) == key then [entries[0]] + WithKey(entries[1..], key)
    else WithKey(entries[1..], key)
  }

  lemma WithKeyFirst(e: DebEntry, rest: seq<DebEntry>, key: SortKey)
    ensures WithKey([e] + rest, key) == if KeyOf(e) == key then [e] + WithKey(rest, key) else WithKey(rest, key)
  {
    hide KeyOf;
    assert ([e] + rest)[1..] == rest;
  }

  lemma {:induction false} InsertStable(e: DebEntry, sorted: seq<DebEntry>, key: SortKey)
    ensures WithKey(Insert(e, sorted), key) == WithKey([e] + sorted, key)
  {
    hide KeyOf, KeyLess, WithKey;
    if sorted == [] || !KeyLess(KeyOf(e), KeyOf(sorted[0])) {
    } else {
      var first, rest := sorted[0], sorted[1..];
      assert sorted == [first] + rest;
      InsertStable(e, rest, key);
      KeyLessAsymmetric(KeyOf(e), KeyOf(first));
      WithKeyFirst(first, Insert(e, rest), key);
      WithKeyFirst(e, rest, key);
      WithKeyFirst(e, sorted, key);
      WithKeyFirst(first, rest, key);
    }
  }

  /** The sort is stable: entries with the same key keep the order they had. */
  lemma {:induction false} OrderedStable(entries: seq<DebEntry>, key: SortKey)
    ensures WithKey(Ordered(entries), key) == WithKey(entries, key)
  {
    hide Ordered, Insert, WithKey, KeyOf;
    if entries == [] {
      NoneSorted();
    } else {
      OrderedStable(entries[1..], key);
      OrderedStep(entries);
      InsertStable(entries[0], Ordered(entries[1..]), key);
      WithKeyFirst(entries[0], Ordered(entries[1..]), key);
      WithKeyFirst(entries[0], entries[1..], key);
      assert entries == [entries[0]] + entries[1..];
    }
  }

  function JoinStanzas(stanzas: seq<string>): string
  {
    if stanzas == [] then "" else if |stanzas| == 1 then stanzas[0]
    else stanzas[0] + ['\n', '\n'] + JoinStanzas(stanzas[1..])
  }

  function StanzaTexts(entries: seq<DebEntry>): seq<string>
    requires forall e :: e in entries ==> Printable(e)
  {
    if entries == [] then []
    else
      StanzaPrintable(entries[0]);
      [Print(Stanza(entries[0]))] + StanzaTexts(entries[1..])
  }

  lemma StanzaPrintable(e: DebEntry)
    requires Printable(e)
    ensures forall f :: f in Stanza(e) ==> f.lines != []
  {
    hide Decimal;
    forall f | f in Stanza(e) ensures f.lines != [] {
      if f !in e.control { assert f in IndexFields(e); }
    }
  }

  lemma StanzaGood(e: DebEntry)
    requires GoodEntry(e)
    ensures GoodFields(Stanza(e)) && forall f :: f in Stanza(e) ==> f.lines != []
  {
    var fields := Stanza(e);
    DecimalPlain(e.size);
    assert NoBreak("./" + e.name) && Stripped("./" + e.name);
    IndexFieldsGood(e);
    forall i | 0 <= i < |fields| ensures GoodField(fields[i]) {
      if i < |e.control| { assert fields[i] == e.control[i]; } else { assert fields[i] == IndexFields(e)[i - |e.control|]; }
    }
    IndexNamesDistinct();
    forall i, j | 0 <= i < j < |fields| ensures fields[i].name != fields[j].name {
      if j >= |e.control| {
        assert fields[j].name == Names(IndexFields(e))[j - |e.control|] == INDEX_NAMES[j - |e.control|];
        if i >= |e.control| {
          assert fields[i].name == Names(IndexFields(e))[i - |e.control|] == INDEX_NAMES[i - |e.control|];
        }
      }
    }
  }

  lemma IndexNamesDistinct()
    ensures forall i, j :: 0 <= i < j < |INDEX_NAMES| ==> INDEX_NAMES[i] != INDEX_NAMES[j]
  {
  }

  lemma DecimalPlain(n: nat)
    ensures NoBreak(Decimal(n)) && Stripped(Decimal(n))
  {
    var s := Decimal(n);
    forall c | c in s ensures !IsBreak(c) && !IsSpace(c) {
      var i :| 0 <= i < |s| && s[i] == c;
      assert IsDigit(s[i]);
    }
    assert s[0] in s && s[|s| - 1] in s;
  }

  lemma SimpleField(name: string, value: string)
    requires NoBreak(name) && Stripped(name) && ':' !in name && name != "" && NoBreak(value) && Stripped(value)
    ensures GoodField(Field(name, [value]))
  {
  }

  predicate PlainName(name: string)
  {
    name != "" && forall i :: 0 <= i < |name| ==> 'A' <= name[i] <= 'Z' || 'a' <= name[i] <= 'z' || IsDigit(name[i])
  }

  lemma PlainNameGood(name: string)
    requires PlainName(name)
    ensures NoBreak(name) && Stripped(name) && ':' !in name
  {
  }

  lemma IndexNamesPlain()
    ensures forall i :: 0 <= i < |INDEX_NAMES| ==> PlainName(INDEX_NAMES[i])
  {
    assert PlainName("Filename") && PlainName("Size") && PlainName("MD5sum") && PlainName("SHA1") && PlainName("SHA256");
  }

  lemma IndexFieldsGood(e: DebEntry)
    requires GoodEntry(e) && NoBreak("./" + e.name) && Stripped("./" + e.name)
    requires NoBreak(Decimal(e.size)) && Stripped(Decimal(e.size))
    ensures forall i :: 0 <= i < 5 ==> GoodField(IndexFields(e)[i])
  {
    IndexNamesPlain();
    var fields := IndexFields(e);
    var values := ["./" + e.name, Decimal(e.size), e.md5, e.sha1, e.sha256];
    forall i | 0 <= i < 5 ensures GoodField(fields[i]) {
      PlainNameGood(INDEX_NAMES[i]);
      SimpleField(INDEX_NAMES[i], values[i]);
      assert fields[i] == Field(INDEX_NAMES[i], [values[i]]);
    }
  }

  lemma {:induction false} TextsAt(entries: seq<DebEntry>)
    requires forall e :: e in entries ==> Printable(e)
    ensures |StanzaTexts(entries)| == |entries|
    ensures forall i :: 0 <= i < |entries| ==> TextAt(entries[i], StanzaTexts(entries)[i])
  {
    if entries == [] {
    } else {
      TextsAt(entries[1..]);
      StanzaPrintable(entries[0]);
    }
  }

  ghost predicate TextAt(e: DebEntry, text: string)
  {
    (forall f :: f in Stanza(e) ==> f.lines != []) && text == Print(Stanza(e))
  }

  /** The loop of `packages_text`. */
  method StanzaLoop(ordered: seq<DebEntry>, target: seq<string>) returns (stanzas: seq<string>)
    requires |target| == |ordered| && forall i :: 0 <= i < |ordered| ==> TextAt(ordered[i], target[i])
    ensures stanzas == target
  {
    hide Print, Stanza;
    stanzas := [];
    for i := 0 to |ordered|
      invariant stanzas == target[..i]
    {
      assert TextAt(ordered[i], target[i]);
      stanzas := stanzas + [Print(Stanza(ordered[i]))];
      assert target[..i + 1] == target[..i] + [target[i]];
    }
    assert target[..|ordered|] == target;
  }

  /** The text of the index. */
  function IndexText(entries: seq<DebEntry>): string
    requires forall e :: e in entries ==> Printable(e)
  {
    OrderedMembers(entries);
    JoinStanzas(StanzaTexts(Ordered(entries))) + "\n"
  }

  /** `packages_text`. */
  method PackagesText(entries: seq<DebEntry>) returns (text: string)
    requires forall e :: e in entries ==> Printable(e)
    ensures text == IndexText(entries)
  {
    hide Printable, Ordered, JoinStanzas, StanzaTexts;
    OrderedMembers(entries);
    var ordered := Ordered(entries);
    TextsAt(ordered);
    var stanzas := StanzaLoop(ordered, StanzaTexts(ordered));
    text := JoinStanzas(stanzas) + "\n";
  }

  lemma OrderedMembers(entries: seq<DebEntry>)
    ensures forall e :: e in Ordered(entries) <==> e in entries
  {
    OrderedSorts(entries);
    forall e ensures e in Ordered(entries) <==> e in entries {
      assert e in Ordered(entries) <==> e in multiset(Ordered(entries));
      assert e in entries <==> e in multiset(entries);
    }
  }

  // ----- Splitting the index and parsing every stanza -----

  /** `text.split("\n\n")`. */
  function SplitStanzas(text: string): seq<string>
    decreases |text|
  {
    match SplitPair(text, '\n')
    case None => [text]
    case Some((before, after)) =>
      SplitPairShrinks(text, '\n');
      [before] + SplitStanzas(after)
  }

  lemma {:induction false} SplitPairShrinks(s: string, c: char)
    ensures SplitPair(s, c).Some? ==> |SplitPair(s, c).value.1| < |s|
  {
    if |s| >= 2 && !(s[0] == c && s[1] == c) {
      SplitPairShrinks(s[1..], c);
    }
  }

  function ParseStanzas(stanzas: seq<string>): Result<seq<Fields>, AptError>
  {
    if stanzas == [] then Ok([])
    else if Strip(stanzas[0]) == "" then ParseStanzas(stanzas[1..])
    else
      match ParseControl(stanzas[0])
      case Err(e) => Err(e)
      case Ok(fields) =>
        match ParseStanzas(stanzas[1..])
        case Err(e) => Err(e)
        case Ok(more) => Ok([fields] + more)
  }

  /** `published_packages` of an index text. */
  function Published(text: string): Result<seq<Fields>, AptError>
  {
    ParseStanzas(SplitStanzas(text))
  }

  /** A printed stanza has no blank line and does not end in a newline. */
  lemma {:induction false} JoinedHasNoPair(lines: seq<string>)
    requires forall i :: 0 <= i < |lines| ==> NoBreak(lines[i]) && lines[i] != ""
    ensures NoPair(Join(lines), '\n') && (lines != [] ==> Join(lines) != "" && Join(lines)[0] != '\n')
  {
    if lines == [] {
    } else {
      var n := |lines| - 1;
      var last := lines[n];
      assert NoBreak(lines[n]) && IsBreak('\n');
      assert forall i :: 0 <= i < |last| ==> last[i] in last && last[i] != '\n';
      if n > 0 {
        JoinedHasNoPair(lines[..n]);
        var front := Join(lines[..n]);
        var s := front + "\n" + last;
        assert |front + "\n"| == |front| + 1;
        forall i | 0 <= i < |s| - 1 ensures s[i] != '\n' || s[i + 1] != '\n' {
          if i < |front| - 1 {
            assert s[i] == front[i] && s[i + 1] == front[i + 1];
          } else if i == |front| - 1 {
            assert s[i] == front[i];
          } else {
            assert s[i + 1] == last[i + 1 - (|front| + 1)];
          }
        }
      }
    }
  }

  lemma ColonIsNoSpace()
    ensures !IsSpace(':')
  {
  }

  lemma NotBlankAtAll(fields: Fields)
    requires fields != [] && forall f :: f in fields ==> f.lines != []
    ensures Print(fields) != "" && Strip(Print(fields)) != "" && Strip(Print(fields) + "\n") != ""
  {
    hide Strip, Print, IsSpace;
    PrintHasColon(fields);
    ColonIsNoSpace();
    var text := Print(fields);
    var i :| 0 <= i < |text| && text[i] == ':';
    NotBlank(text, i);
    assert (text + "\n")[i] == ':';
    NotBlank(text + "\n", i);
  }

  lemma PrintNoPair(fields: Fields)
    requires GoodFields(fields)
    ensures NoPair(Print(fields), '\n')
  {
    PrintLinesGood(fields);
    var lines := PrintLines(fields);
    assert forall i :: 0 <= i < |lines| ==> lines[i] in lines;
    JoinedHasNoPair(lines);
  }

  lemma PrintedStanza(e: DebEntry)
    requires GoodEntry(e)
    ensures GoodFields(Stanza(e)) && (forall f :: f in Stanza(e) ==> f.lines != [])
    ensures var text := Print(Stanza(e));
            && NoPair(text, '\n') && text != "" && Strip(text) != "" && Strip(text + "\n") != ""
            && ParseControl(text) == Ok(Stanza(e)) && ParseControl(text + "\n") == Ok(Stanza(e))
  {
    StanzaGood(e);
    PrintedParses(Stanza(e));
    PrintNoPair(Stanza(e));
    NotBlankAtAll(Stanza(e));
  }

  lemma PrintHasColon(fields: Fields)
    requires fields != [] && forall f :: f in fields ==> f.lines != []
    ensures ':' in Print(fields)
  {
    var lines := PrintLines(fields);
    var f := fields[|fields| - 1];
    var at := |lines| - |FieldLines(f)|;
    assert lines[at] == f.name + ": " + f.lines[0];
    assert lines[at][|f.name|] == ':';
    JoinHolds(lines, at, ':');
  }

  lemma {:induction false} JoinHolds(lines: seq<string>, i: nat, c: char)
    requires i < |lines| && c in lines[i]
    ensures c in Join(lines)
  {
    if i >= |lines| - 1 {
    } else {
      JoinHolds(lines[..|lines| - 1], i, c);
    }
  }

  function Stanzas(entries: seq<DebEntry>): (all: seq<Fields>)
    ensures |all| == |entries| && forall i :: 0 <= i < |all| ==> all[i] == Stanza(entries[i])
  {
    seq(|entries|, i requires 0 <= i < |entries| => Stanza(entries[i]))
  }

  lemma ParseStanzasStep(stanza: string, fields: Fields, rest: seq<string>, more: seq<Fields>)
    requires Strip(stanza) != "" && ParseControl(stanza) == Ok(fields) && ParseStanzas(rest) == Ok(more)
    ensures ParseStanzas([stanza] + rest) == Ok([fields] + more)
  {
    assert ([stanza] + rest)[1..] == rest;
  }

  lemma BlankStanza(text: string)
    requires |text| == 1 && text[0] == '\n'
    ensures Published(text) == Ok([])
  {
    hide ParseControl, ParseStanzas, Strip;
    StripNewline(text);
    assert SplitPair(text, '\n') == None;
    SkipBlank([text]);
  }

  lemma StripNewline(text: string)
    requires |text| == 1 && text[0] == '\n'
    ensures Strip(text) == ""
  {
    assert text[1..] == "";
    assert StripLeft(text) == StripLeft(text[1..]) == "";
  }

  lemma SkipBlank(stanzas: seq<string>)
    requires |stanzas| == 1 && Strip(stanzas[0]) == ""
    ensures ParseStanzas(stanzas) == Ok([])
  {
    hide ParseControl, Strip;
    assert stanzas[1..] == [];
  }

  lemma GoodTail(entries: seq<DebEntry>)
    requires entries != [] && GoodEntries(entries)
    ensures GoodEntry(entries[0]) && Printable(entries[0]) && GoodEntries(entries[1..])
  {
    hide GoodEntry, Printable;
    assert entries[0] in entries && forall e :: e in entries[1..] ==> e in entries;
  }

  lemma TextsFirst(entries: seq<DebEntry>)
    requires entries != [] && GoodEntries(entries)
    requires GoodEntries(entries[1..]) && forall f :: f in Stanza(entries[0]) ==> f.lines != []
    ensures StanzaTexts(entries) == [Print(Stanza(entries[0]))] + StanzaTexts(entries[1..])
    ensures Stanzas(entries) == [Stanza(entries[0])] + Stanzas(entries[1..])
  {
    hide Print, GoodEntry, Stanza, GoodEntries, Printable;
  }

  lemma LastReadBack(text: string, fields: Fields)
    requires NoPair(text, '\n') && text != "" && Strip(text + "\n") != "" && ParseControl(text + "\n") == Ok(fields)
    ensures Published(text + "\n") == Ok([fields])
  {
    LastStanza(text);
    ParseStanzasStep(text + "\n", fields, [], []);
    PublishedOne(text + "\n", fields);
  }

  lemma PublishedOne(text: string, fields: Fields)
    requires SplitStanzas(text) == [text] && ParseStanzas([text] + []) == Ok([fields] + [])
    ensures Published(text) == Ok([fields])
  {
    hide ParseStanzas, SplitStanzas;
    assert [text] + [] == [text] && [fields] + [] == [fields];
  }

  lemma NextReadBack(text: string, fields: Fields, more: string, read: seq<Fields>)
    requires NoPair(text, '\n') && Strip(text) != "" && ParseControl(text) == Ok(fields) && Published(more) == Ok(read)
    ensures Published(text + ['\n', '\n'] + more) == Ok([fields] + read)
  {
    SplitPairOf(text, more, '\n');
    ParseStanzasStep(text, fields, SplitStanzas(more), read);
  }

  lemma {:induction false} IndexReadBack(entries: seq<DebEntry>)
    requires GoodEntries(entries)
    ensures Published(JoinStanzas(StanzaTexts(entries)) + "\n") == Ok(Stanzas(entries))
  {
    hide GoodEntry, GoodFields, Stanza, ParseControl, Published, Strip, NoPair, Printable, Stanzas, Print, StanzaTexts;
    if entries == [] {
      NoTexts();
      BlankStanza("" + "\n");
    } else {
      GoodTail(entries);
      PrintedStanza(entries[0]);
      TextsFirst(entries);
      var text, rest := Print(Stanza(entries[0])), entries[1..];
      if rest == [] {
        NoTexts();
        LastReadBack(text, Stanza(entries[0]));
        assert StanzaTexts(entries) == [text];
        assert Stanzas(entries) == [Stanza(entries[0])];
      } else {
        IndexReadBack(rest);
        var more := JoinStanzas(StanzaTexts(rest)) + "\n";
        NextReadBack(text, Stanza(entries[0]), more, Stanzas(rest));
        TextsSome(rest);
        JoinStanzasStep(text, StanzaTexts(rest));
      }
    }
  }

  lemma NoTexts()
    ensures StanzaTexts([]) == [] && Stanzas([]) == []
  {
  }

  lemma TextsSome(entries: seq<DebEntry>)
    requires entries != [] && forall e :: e in entries ==> Printable(e)
    ensures StanzaTexts(entries) != []
  {
    hide Print, Stanza;
  }

  lemma JoinStanzasStep(first: string, rest: seq<string>)
    requires rest != []
    ensures JoinStanzas([first] + rest) + "\n" == first + ['\n', '\n'] + (JoinStanzas(rest) + "\n")
  {
    assert ([first] + rest)[1..] == rest;
  }

  lemma LastStanza(text: string)
    requires NoPair(text, '\n') && text != ""
    ensures SplitStanzas(text + "\n") == [text + "\n"]
  {
    var s := text + "\n";
    forall i | 0 <= i < |s| - 1 ensures s[i] != '\n' || s[i + 1] != '\n' {
      if i < |text| - 1 { assert s[i] == text[i] && s[i + 1] == text[i + 1]; }
    }
    SplitPairNone(s, '\n');
  }

  /** The entry's own values stand under the names of the index. */
  ghost predicate Recovers(fields: Fields, e: DebEntry)
  {
    && |fields| == |e.control| + 5 && fields[..|e.control|] == e.control
    && Get(fields, "Filename") == ["./" + e.name] && Get(fields, "Size") == [Decimal(e.size)]
    && Get(fields, "MD5sum") == [e.md5] && Get(fields, "SHA1") == [e.sha1] && Get(fields, "SHA256") == [e.sha256]
  }

  lemma StanzaRecovers(e: DebEntry)
    requires GoodEntry(e)
    ensures Recovers(Stanza(e), e)
  {
    hide Get, GoodField, GoodFields, GoodEntry, Decimal;
    StanzaGood(e);
    var n := |e.control|;
    GetAt(Stanza(e), n);
    GetAt(Stanza(e), n + 1);
    GetAt(Stanza(e), n + 2);
    GetAt(Stanza(e), n + 3);
    GetAt(Stanza(e), n + 4);
  }

  /** Parsing the split index recovers every entry once, in the sorted order: its control fields, then its file name,
      size and checksums. */
  lemma PackagesRoundTrip(entries: seq<DebEntry>)
    requires GoodEntries(entries)
    ensures multiset(Ordered(entries)) == multiset(entries)
    ensures var read := Published(IndexText(entries));
            && read.Ok? && |read.value| == |Ordered(entries)|
            && forall i :: 0 <= i < |read.value| ==> Recovers(read.value[i], Ordered(entries)[i])
  {
    hide Get, GoodEntry, Printable, Published, StanzaTexts, NewestFirst, JoinStanzas, Recovers, Stanza, Ordered;
    OrderedMembers(entries);
    IndexReadBack(Ordered(entries));
    OrderedSorts(entries);
    var ordered := Ordered(entries);
    forall i | 0 <= i < |ordered| ensures Recovers(Stanza(ordered[i]), ordered[i]) {
      assert ordered[i] in ordered;
      StanzaRecovers(ordered[i]);
    }
  }

  lemma GetAt(fields: Fields, i: nat)
    requires GoodFields(fields) && i < |fields|
    ensures Get(fields, fields[i].name) == fields[i].lines
  {
    hide GoodField, Place;
    var at := Place(fields, fields[i].name);
    assert at <= i;
    assert fields[at].name == fields[i].name;
  }
}
