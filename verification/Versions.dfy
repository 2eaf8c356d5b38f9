// Versions, which of them may be released, and the version line of the source (release.py).
module Versions {
  import opened Prelude
  import opened Text
  import opened Sections

  datatype Version = Version(major: nat, minor: nat, patch: nat)

  function FirstDot(s: string): (n: nat)
    ensures n <= |s| && (n < |s| ==> s[n] == '.') && forall i :: 0 <= i < n ==> s[i] != '.'
  {
    if s == "" || s[0] == '.' then 0 else 1 + FirstDot(s[1..])
  }

  /** The text between the first two dots, before and after them. */
  function Parts(s: string): Option<(string, string, string)>
  {
    var i := FirstDot(s);
    if i == |s| then None
    else
      var rest := s[i + 1..];
      var j := FirstDot(rest);
      if j == |rest| then None else Some((s[..i], rest[..j], rest[j + 1..]))
  }

  predicate Digits(s: string) { s != "" && forall i :: 0 <= i < |s| ==> IsDigit(s[i]) }

  /** `0|[1-9]\d*`. */
  predicate Number(s: string) { Digits(s) && (|s| > 1 ==> s[0] != '0') }

  /** `parse_version`. */
  function ParseVersion(text: string): Result<Version, Error>
  {
    match Parts(Strip(text))
    case Some((a, b, c)) =>
      if Number(a) && Number(b) && Number(c) then Ok(Version(ParseDecimal(a), ParseDecimal(b), ParseDecimal(c)))
      else Err(NotAVersion(text))
    case None => Err(NotAVersion(text))
  }

  /** `format_version`. */
  function FormatVersion(v: Version): string { Decimal(v.major) + "." + Decimal(v.minor) + "." + Decimal(v.patch) }

  /** `tag_version`. */
  function TagVersion(tag: string): Result<string, Error>
  {
    if tag == "" || tag[0] != 'v' then Err(BadTag)
    else
      match Parts(tag[1..])
      case Some((a, b, c)) => if Digits(a) && Digits(b) && Digits(c) then Ok(tag[1..]) else Err(BadTag)
      case None => Err(BadTag)
  }

  lemma FirstDotOf(a: string, rest: string)
    requires Digits(a)
    ensures FirstDot(a + "." + rest) == |a|
  {
    var s := a + "." + rest;
    assert forall i :: 0 <= i < |a| ==> s[i] == a[i] && IsDigit(a[i]);
    assert s[|a|] == '.';
  }

  lemma PartsOf(a: string, b: string, c: string)
    requires Digits(a) && Digits(b)
    ensures Parts(a + "." + b + "." + c) == Some((a, b, c))
  {
    hide Digits, FirstDot;
    var rest := b + "." + c;
    var s := a + "." + rest;
    assert a + "." + b + "." + c == s;
    FirstDotOf(a, rest);
    FirstDotOf(b, c);
    assert s[..|a|] == a && s[|a| + 1..] == rest;
    assert rest[..|b|] == b && rest[|b| + 1..] == c;
  }

  lemma DecimalIsNumber(n: nat)
    ensures Number(Decimal(n)) && ParseDecimal(Decimal(n)) == n
  {
    ParseOfDecimal(n);
  }

  lemma DigitsAreNoSpace(s: string)
    requires s != "" && IsDigit(s[0]) && IsDigit(s[|s| - 1])
    ensures Strip(s) == s
  {
    StripGivesStripped(s);
  }

  /** A formatted version is read back, also as a tag. */
  lemma VersionRoundTrip(v: Version)
    ensures ParseVersion(FormatVersion(v)) == Ok(v)
    ensures TagVersion("v" + FormatVersion(v)) == Ok(FormatVersion(v))
  {
    hide Strip, Parts, Decimal, ParseDecimal;
    var a, b, c := Decimal(v.major), Decimal(v.minor), Decimal(v.patch);
    var s := FormatVersion(v);
    DecimalIsNumber(v.major);
    DecimalIsNumber(v.minor);
    DecimalIsNumber(v.patch);
    PartsOf(a, b, c);
    assert s[0] == a[0] && s[|s| - 1] == c[|c| - 1];
    DigitsAreNoSpace(s);
    assert ("v" + s)[1..] == s;
  }

  /** A formatted version can stand in a heading and in the version line, and is not "Unreleased". */
  lemma FormattedVersion(v: Version)
    ensures var s := FormatVersion(v); s != "" && ']' !in s && '"' !in s
  {
    hide Decimal;
    forall c | c in FormatVersion(v) ensures IsDigit(c) || c == '.' {
    }
  }

  // ----- Which versions may be released -----

  predicate Less(a: Version, b: Version)
  {
    || a.major < b.major || (a.major == b.major && a.minor < b.minor)
    || (a.major == b.major && a.minor == b.minor && a.patch < b.patch)
  }

  /** `check_bump`. */
  function CheckBump(current: Version, next: Version, ownerApproved: bool): Option<Error>
  {
    if Less(next, current) then Some(Older)
    else if (next.major != current.major || next.minor != current.minor) && !ownerApproved then Some(NeedsOwner)
    else None
  }

  /** `check_policy`. */
  function CheckPolicy(version: Version, ownerApproved: bool): Option<Error>
  {
    if (version.major != 0 || version.minor != 0) && !ownerApproved then Some(NeedsOwner) else None
  }

  /** A run of versions, each allowed without the owner from the one before, never leaves its major and minor and never
      goes back; from 0.0.x every one of them passes the CI form of the rule. */
  lemma {:induction false} UnapprovedRuns(versions: seq<Version>)
    requires versions != []
    requires forall i :: 0 <= i < |versions| - 1 ==> CheckBump(versions[i], versions[i + 1], false) == None
    ensures var first, last := versions[0], versions[|versions| - 1];
            && last.major == first.major && last.minor == first.minor && last.patch >= first.patch
            && (CheckPolicy(first, false) == None ==> CheckPolicy(last, false) == None)
  {
    if |versions| <= 1 {
    } else {
      var n := |versions| - 1;
      UnapprovedRuns(versions[..n]);
      assert CheckBump(versions[n - 1], versions[n - 1 + 1], false) == None;
    }
  }

  // ----- The version line -----

  function SkipSpaces(s: string, i: nat): (j: nat)
    requires i <= |s|
    ensures i <= j <= |s| && (j < |s| ==> !IsSpace(s[j])) && forall k :: i <= k < j ==> IsSpace(s[k])
    decreases |s| - i
  {
    if i < |s| && IsSpace(s[i]) then SkipSpaces(s, i + 1) else i
  }

  function SkipToQuote(s: string, i: nat): (j: nat)
    requires i <= |s|
    ensures i <= j <= |s| && (j < |s| ==> s[j] == '"') && forall k :: i <= k < j ==> s[k] != '"'
    decreases |s| - i
  {
    if i < |s| && s[i] != '"' then SkipToQuote(s, i + 1) else i
  }

  datatype Match = Match(start: nat, end: nat)

  const ASSIGNED := "__version__"

  /** VERSION_LINE on one line: where the text between the quotes starts and ends. */
  function MatchVersion(line: string): (m: Option<Match>)
    ensures m.Some? ==> m.value.start < m.value.end < |line|
  {
    if |line| < 11 || line[..11] != ASSIGNED then None
    else
      var i := SkipSpaces(line, 11);
      if i == |line| || line[i] != '=' then None
      else
        var j := SkipSpaces(line, i + 1);
        if j == |line| || line[j] != '"' then None
        else
          var end := SkipToQuote(line, j + 1);
          if end == |line| || end == j + 1 then None else Some(Match(j + 1, end))
  }

  function FirstMatch(lines: seq<string>): (i: nat)
    ensures i <= |lines| && (i < |lines| ==> MatchVersion(lines[i]).Some?)
    ensures forall k :: 0 <= k < i ==> MatchVersion(lines[k]).None?
  {
    if lines == [] || MatchVersion(lines[0]).Some? then 0 else 1 + FirstMatch(lines[1..])
  }

  /** `read_version`. */
  function ReadVersion(lines: seq<string>): Result<string, Error>
  {
    var i := FirstMatch(lines);
    if i == |lines| then Err(NoVersionLine)
    else var m := MatchVersion(lines[i]).value; Ok(lines[i][m.start..m.end])
  }

  /** `write_version`. */
  function WriteVersion(lines: seq<string>, version: string): Result<seq<string>, Error>
  {
    var i := FirstMatch(lines);
    if i == |lines| then Err(NoVersionLine)
    else
      var m := MatchVersion(lines[i]).value;
      Ok(lines[i := lines[i][..m.start] + version + lines[i][m.end..]])
  }

  lemma SkipSpacesIs(s: string, i: nat, j: nat)
    requires i <= j < |s| && !IsSpace(s[j]) && forall k :: i <= k < j ==> IsSpace(s[k])
    ensures SkipSpaces(s, i) == j
  {
    hide IsSpace;
  }

  lemma SkipToQuoteIs(s: string, i: nat, j: nat)
    requires i <= j < |s| && s[j] == '"' && forall k :: i <= k < j ==> s[k] != '"'
    ensures SkipToQuote(s, i) == j
  {
  }

  /** The line with another version between the quotes is a version line again. */
  lemma Rewritten(line: string, version: string)
    requires MatchVersion(line).Some? && version != "" && '"' !in version
    ensures var m := MatchVersion(line).value;
            MatchVersion(line[..m.start] + version + line[m.end..]) == Some(Match(m.start, m.start + |version|))
  {
    hide IsSpace, ASSIGNED;
    var m := MatchVersion(line).value;
    var now := line[..m.start] + version + line[m.end..];
    var i := SkipSpaces(line, 11);
    assert forall k :: 0 <= k < m.start ==> now[k] == line[k];
    assert now[..11] == line[..11];
    EqualsIsNoSpace();
    SkipSpacesIs(now, 11, i);
    SkipSpacesIs(now, i + 1, m.start - 1);
    var end := m.start + |version|;
    assert now[end] == line[m.end];
    assert forall k :: m.start <= k < end ==> now[k] == version[k - m.start] && version[k - m.start] in version;
    SkipToQuoteIs(now, m.start, end);
  }

  lemma EqualsIsNoSpace()
    ensures !IsSpace('=') && !IsSpace('"')
  {
  }

  /** What is written is what is read; every other line, and the line around the quotes, stays. */
  lemma ReadWritten(lines: seq<string>, version: string)
    requires ReadVersion(lines).Ok? && version != "" && '"' !in version
    ensures WriteVersion(lines, version).Ok? && ReadVersion(WriteVersion(lines, version).value) == Ok(version)
    ensures var now, i := WriteVersion(lines, version).value, FirstMatch(lines);
            && |now| == |lines| && forall k :: 0 <= k < |lines| && k != i ==> now[k] == lines[k]
  {
    hide MatchVersion;
    var i := FirstMatch(lines);
    var now := WriteVersion(lines, version).value;
    Rewritten(lines[i], version);
    var m := MatchVersion(lines[i]).value;
    assert now[i] == lines[i][..m.start] + version + lines[i][m.end..];
    FirstMatchSame(lines, now, i);
    assert now[i][m.start..m.start + |version|] == version;
  }

  lemma FirstMatchSame(lines: seq<string>, now: seq<string>, i: nat)
    requires |now| == |lines| && i < |lines| && MatchVersion(now[i]).Some?
    requires forall k :: 0 <= k < i ==> now[k] == lines[k] && MatchVersion(lines[k]).None?
    ensures FirstMatch(now) == i
  {
    hide MatchVersion;
    assert FirstMatch(now) <= |now|;
  }
}
