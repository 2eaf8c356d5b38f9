// Text functions shared by the other modules: spaces, decimals, lines, stripping and splitting.
module Text {
  import opened Prelude

  /** The characters `str.isspace` accepts. */
  predicate IsSpace(c: char)
  {
    || '\U{9}' <= c <= '\U{D}' || '\U{1C}' <= c <= '\U{20}' || c == '\U{85}' || c == '\U{A0}' || c == '\U{1680}'
    || '\U{2000}' <= c <= '\U{200A}' || c == '\U{2028}' || c == '\U{2029}' || c == '\U{202F}' || c == '\U{205F}'
    || c == '\U{3000}'
  }

  // ----- Decimal numbers -----

  predicate IsDigit(c: char) { '0' <= c <= '9' }

  function Digit(n: nat): (c: char)
    requires n < 10
    ensures IsDigit(c) && DigitValue(c) == n
  {
    (n + 48) as char
  }

  function DigitValue(c: char): (n: nat)
    requires IsDigit(c)
    ensures n < 10
  {
    c as int - 48
  }

  /** `str(n)`. */
  function Decimal(n: nat): (s: string)
    ensures s != "" && forall i :: 0 <= i < |s| ==> IsDigit(s[i])
    ensures |s| > 1 ==> s[0] != '0'
  {
    if n < 10 then [Digit(n)] else Decimal(n / 10) + [Digit(n % 10)]
  }

  /** `int(s)` for a string of digits. */
  function ParseDecimal(s: string): nat
    requires forall i :: 0 <= i < |s| ==> IsDigit(s[i])
  {
    if s == "" then 0 else 10 * ParseDecimal(s[..|s| - 1]) + DigitValue(s[|s| - 1])
  }

  lemma {:induction false} ParseOfDecimal(n: nat)
    ensures ParseDecimal(Decimal(n)) == n
  {
    var s := Decimal(n);
    if n < 10 {
      assert s[..0] == "";
    } else {
      ParseOfDecimal(n / 10);
      assert s[..|s| - 1] == Decimal(n / 10);
    }
  }

  lemma DecimalInjective(a: nat, b: nat)
    requires Decimal(a) == Decimal(b)
    ensures a == b
  {
    ParseOfDecimal(a);
    ParseOfDecimal(b);
  }

  // ----- Lines: `s.split("\n")` and `"\n".join(lines)` -----

  predicate OneLine(s: string) { '\n' !in s }

  function PushChar(lines: seq<string>, c: char): (more: seq<string>)
    requires lines != []
    ensures more != []
  {
    if c == '\n' then lines + [""] else lines[..|lines| - 1] + [lines[|lines| - 1] + [c]]
  }

  function Lines(s: string): (lines: seq<string>)
    ensures lines != [] && forall i :: 0 <= i < |lines| ==> OneLine(lines[i])
  {
    if s == "" then [""] else PushChar(Lines(s[..|s| - 1]), s[|s| - 1])
  }

  function Join(lines: seq<string>): string
  {
    if lines == [] then "" else if |lines| == 1 then lines[0]
    else Join(lines[..|lines| - 1]) + "\n" + lines[|lines| - 1]
  }

  /** Two line lists glued where the texts meet. */
  function Glue(a: seq<string>, b: seq<string>): (lines: seq<string>)
    requires a != [] && b != []
    ensures |lines| == |a| + |b| - 1
  {
    a[..|a| - 1] + [a[|a| - 1] + b[0]] + b[1..]
  }

  lemma LinesPush(s: string, c: char)
    ensures Lines(s + [c]) == PushChar(Lines(s), c)
  {
    assert (s + [c])[..|s|] == s;
  }

  lemma GluePush(a: seq<string>, b: seq<string>, c: char)
    requires a != [] && b != []
    ensures Glue(a, PushChar(b, c)) == PushChar(Glue(a, b), c)
  {
    if |b| == 1 && c != '\n' {
      assert a[|a| - 1] + (b[0] + [c]) == a[|a| - 1] + b[0] + [c];
    }
  }

  lemma GlueEmpty(a: seq<string>)
    requires a != []
    ensures Glue(a, [""]) == a
  {
    assert a[|a| - 1] + "" == a[|a| - 1];
  }

  lemma {:induction false} LinesAppend(a: string, b: string)
    ensures Lines(a + b) == Glue(Lines(a), Lines(b))
  {
    if b == "" {
      assert a + b == a;
      GlueEmpty(Lines(a));
    } else {
      var t, c := b[..|b| - 1], b[|b| - 1];
      LinesAppend(a, t);
      assert a + b == (a + t) + [c];
      LinesPush(a + t, c);
      GluePush(Lines(a), Lines(t), c);
    }
  }

  lemma {:induction false} LinesOfOneLine(s: string)
    requires OneLine(s)
    ensures Lines(s) == [s]
  {
    if s == "" {
    } else {
      var n := |s| - 1;
      assert s == s[..n] + [s[n]];
      assert s[n] in s && forall c :: c in s[..n] ==> c in s;
      LinesOfOneLine(s[..n]);
    }
  }

  /** A newline between two texts puts their lines one after the other. */
  lemma LinesNewline(a: string, b: string)
    ensures Lines(a + "\n" + b) == Lines(a) + Lines(b)
  {
    LinesAppend(a + "\n", b);
    LinesPush(a, '\n');
    assert a + "\n" == a + ['\n'];
    assert "" + Lines(b)[0] == Lines(b)[0];
  }

  /** Text without a newline lands on the last line. */
  lemma LinesTail(a: string, tail: string)
    requires OneLine(tail)
    ensures Lines(a + tail) == Lines(a)[..|Lines(a)| - 1] + [Lines(a)[|Lines(a)| - 1] + tail]
  {
    LinesAppend(a, tail);
    LinesOfOneLine(tail);
  }

  lemma {:induction false} LinesOfJoin(lines: seq<string>)
    requires lines != [] && forall i :: 0 <= i < |lines| ==> OneLine(lines[i])
    ensures Lines(Join(lines)) == lines
  {
    var n := |lines| - 1;
    LinesOfOneLine(lines[n]);
    assert lines == lines[..n] + [lines[n]];
    if n == 0 {
    } else {
      LinesOfJoin(lines[..n]);
      LinesNewline(Join(lines[..n]), lines[n]);
    }
  }

  lemma JoinPush(lines: seq<string>, c: char)
    requires lines != []
    ensures Join(PushChar(lines, c)) == Join(lines) + [c]
  {
    var n, more := |lines| - 1, PushChar(lines, c);
    if c == '\n' {
      assert more[..|more| - 1] == lines;
      assert Join(lines) + "\n" + "" == Join(lines) + ['\n'];
    } else {
      assert more[..n] == lines[..n];
      if n > 0 {
        assert Join(lines[..n]) + "\n" + (lines[n] + [c]) == Join(lines[..n]) + "\n" + lines[n] + [c];
      }
    }
  }

  lemma {:induction false} JoinOfLines(s: string)
    ensures Join(Lines(s)) == s
  {
    if s == "" {
    } else {
      hide Join, PushChar;
      var n := |s| - 1;
      JoinOfLines(s[..n]);
      JoinPush(Lines(s[..n]), s[n]);
      assert s == s[..n] + [s[n]];
    }
  }

  lemma {:induction false} JoinFront(line: string, rest: seq<string>)
    requires rest != []
    ensures Join([line] + rest) == line + "\n" + Join(rest)
  {
    var all, n := [line] + rest, |rest| - 1;
    assert all[..|all| - 1] == [line] + rest[..n];
    if n == 0 {
      assert [line] + rest[..0] == [line];
    } else {
      JoinFront(line, rest[..n]);
      assert line + "\n" + Join(rest[..n]) + "\n" + rest[n] == line + "\n" + (Join(rest[..n]) + "\n" + rest[n]);
    }
  }

  // ----- Two separators in a row: `s.split(cc)` for a doubled character -----

  /** The text before and after the first doubled c. */
  function SplitPair(s: string, c: char): Option<(string, string)>
  {
    if |s| < 2 then None
    else if s[0] == c && s[1] == c then Some(("", s[2..]))
    else
      match SplitPair(s[1..], c)
      case None => None
      case Some((before, after)) => Some(([s[0]] + before, after))
  }

  /** No doubled c inside, and no c at the end that could become one. */
  predicate NoPair(s: string, c: char)
  {
    (s != "" ==> s[|s| - 1] != c) && forall i :: 0 <= i < |s| - 1 ==> s[i] != c || s[i + 1] != c
  }

  lemma {:induction false} SplitPairOf(before: string, after: string, c: char)
    requires NoPair(before, c)
    ensures SplitPair(before + [c, c] + after, c) == Some((before, after))
  {
    var s := before + [c, c] + after;
    if before == "" {
      assert s[2..] == after;
    } else {
      assert s[1..] == before[1..] + [c, c] + after;
      assert s[0] == before[0] && (s[0] != c || s[1] != c) by {
        if |before| > 1 { assert s[1] == before[1]; }
      }
      SplitPairOf(before[1..], after, c);
      assert [s[0]] + before[1..] == before;
    }
  }

  lemma {:induction false} SplitPairNone(s: string, c: char)
    requires forall i :: 0 <= i < |s| - 1 ==> s[i] != c || s[i + 1] != c
    ensures SplitPair(s, c) == None
  {
    if |s| < 2 {
    } else {
      assert s[0] != c || s[0 + 1] != c;
      forall i | 0 <= i < |s[1..]| - 1 ensures s[1..][i] != c || s[1..][i + 1] != c {
        assert s[i + 1] != c || s[i + 1 + 1] != c;
      }
      SplitPairNone(s[1..], c);
    }
  }

  // ----- `str.strip` and `str.splitlines` -----

  function StripLeft(s: string): (t: string)
    ensures t != "" ==> !IsSpace(t[0])
    ensures |t| <= |s| && t == s[|s| - |t|..]
  {
    if s != "" && IsSpace(s[0]) then StripLeft(s[1..]) else s
  }

  function StripRight(s: string): (t: string)
    ensures t != "" ==> !IsSpace(t[|t| - 1])
    ensures |t| <= |s| && t == s[..|t|]
  {
    if s != "" && IsSpace(s[|s| - 1]) then StripRight(s[..|s| - 1]) else s
  }

  function Strip(s: string): string { StripRight(StripLeft(s)) }

  /** Text that `strip` leaves alone. */
  predicate Stripped(s: string)
  {
    s != "" ==> !IsSpace(s[0]) && !IsSpace(s[|s| - 1])
  }

  lemma StripGivesStripped(s: string)
    ensures Stripped(Strip(s)) && (forall c :: c in Strip(s) ==> c in s) && (Stripped(s) ==> Strip(s) == s)
  {
    var t := StripLeft(s);
    var r := StripRight(t);
    assert r == t[..|r|] && t == s[|s| - |t|..];
    assert r != "" ==> r[0] == t[0];
    forall c | c in r ensures c in s {
      assert c in t;
    }
  }

  lemma StripSpaceBefore(s: string)
    requires Stripped(s)
    ensures Strip(" " + s) == s
  {
    assert (" " + s)[1..] == s && IsSpace((" " + s)[0]);
    assert StripLeft(" " + s) == StripLeft(s) == s;
  }

  /** Text with something other than spaces in it is not blank. */
  lemma {:induction false} NotBlank(s: string, i: nat)
    requires i < |s| && !IsSpace(s[i])
    ensures Strip(s) != ""
  {
    LeftKeeps(s, i);
    var t := StripLeft(s);
    RightKeeps(t, i - (|s| - |t|));
  }

  lemma {:induction false} LeftKeeps(s: string, i: nat)
    requires i < |s| && !IsSpace(s[i])
    ensures |s| - |StripLeft(s)| <= i
  {
    if IsSpace(s[0]) {
      LeftKeeps(s[1..], i - 1);
    }
  }

  lemma {:induction false} RightKeeps(s: string, i: nat)
    requires i < |s| && !IsSpace(s[i])
    ensures StripRight(s) != ""
  {
    if IsSpace(s[|s| - 1]) {
      RightKeeps(s[..|s| - 1], i);
    }
  }

  /** The characters at which `splitlines` breaks; all of them are spaces. */
  predicate IsBreak(c: char)
  {
    || '\U{A}' <= c <= '\U{D}' || '\U{1C}' <= c <= '\U{1E}' || c == '\U{85}' || c == '\U{2028}' || c == '\U{2029}'
  }

  predicate NoBreak(s: string) { forall c :: c in s ==> !IsBreak(c) }

  function FirstBreak(s: string): (n: nat)
    ensures n <= |s| && (n < |s| ==> IsBreak(s[n]))
    ensures forall i :: 0 <= i < n ==> !IsBreak(s[i])
  {
    if s == "" || IsBreak(s[0]) then 0 else 1 + FirstBreak(s[1..])
  }

  /** A carriage return and a newline are one break. */
  function BreakLength(s: string, n: nat): (length: nat)
    requires n < |s|
    ensures 1 <= length && n + length <= |s|
  {
    if s[n] == '\U{D}' && n + 1 < |s| && s[n + 1] == '\U{A}' then 2 else 1
  }

  /** What follows the break at n. */
  function AfterBreak(s: string, n: nat): (rest: string)
    requires n < |s|
    ensures |rest| < |s|
  {
    s[n + BreakLength(s, n)..]
  }

  function SplitLines(s: string): (lines: seq<string>)
    ensures forall i :: 0 <= i < |lines| ==> NoBreak(lines[i])
    decreases |s|
  {
    if s == "" then []
    else
      var n := FirstBreak(s);
      if n == |s| then [s] else [s[..n]] + SplitLines(AfterBreak(s, n))
  }

  lemma FirstBreakOf(line: string, rest: string)
    requires NoBreak(line) && (rest != "" ==> IsBreak(rest[0]))
    ensures FirstBreak(line + rest) == |line|
  {
    var s := line + rest;
    assert forall i :: 0 <= i < |line| ==> s[i] == line[i] && s[i] in line;
    assert rest != "" ==> s[|line|] == rest[0];
  }

  lemma SplitLinesFirst(line: string, rest: string)
    requires NoBreak(line)
    ensures SplitLines(line + "\n" + rest) == [line] + SplitLines(rest)
  {
    var s := line + "\n" + rest;
    assert s == line + ("\n" + rest);
    FirstBreakOf(line, "\n" + rest);
    assert s[..|line|] == line && s[|line| + 1..] == rest;
  }

  /** Joined nonempty lines without breaks are split again, with or without a final newline. */
  lemma {:induction false} SplitLinesOfJoin(lines: seq<string>)
    requires forall i :: 0 <= i < |lines| ==> NoBreak(lines[i]) && lines[i] != ""
    ensures SplitLines(Join(lines)) == lines
    ensures lines != [] ==> SplitLines(Join(lines) + "\n") == lines
  {
    if |lines| == 1 {
      var line := lines[0];
      FirstBreakOf(line, "");
      assert line + "" == line;
      SplitLinesFirst(line, "");
      assert line + "\n" + "" == line + "\n";
    } else if |lines| > 1 {
      var rest := lines[1..];
      assert lines == [lines[0]] + rest;
      JoinFront(lines[0], rest);
      SplitLinesOfJoin(rest);
      SplitLinesFirst(lines[0], Join(rest));
      SplitLinesFirst(lines[0], Join(rest) + "\n");
      assert lines[0] + "\n" + Join(rest) + "\n" == lines[0] + "\n" + (Join(rest) + "\n");
    }
  }
}
