// Re-rendering an edited post into the lines it already has (wee_most.py): the text is cut or padded so that the files
// and attachments stay where they are, and each buffer line is written once.
module PostRendering {
  import opened Prelude
  import opened Text

  /** A post as the renderer sees it: its text after tabs, outer newlines and links are handled, the rendered
      attachments and files, and the suffixes that may be added. */
  datatype Post = Post(
    id: string, text: string, attachments: string, files: string, edited: bool, reactions: string)

  datatype Suffixes = Suffixes(truncated: string, edited: string)

  datatype RenderError = IndexError

  ghost predicate GoodSuffixes(s: Suffixes) { OneLine(s.truncated) && OneLine(s.edited) }

  function LineCount(text: string): nat { if text == "" then 0 else |Lines(text)| }

  /** The lines left for the text: what the attachments, the files and the separating blank line do not take. */
  function Room(p: Post, count: int): int
  {
    count - LineCount(p.attachments) - LineCount(p.files) - (if p.attachments != "" && p.text != "" then 1 else 0)
  }

  /** `lines[0:n]`; a negative n counts from the end. */
  function Take(lines: seq<string>, n: int): seq<string>
  {
    if n >= 0 then (if n <= |lines| then lines[..n] else lines)
    else if |lines| + n > 0 then lines[..|lines| + n]
    else []
  }

  function Blanks(n: nat): (lines: seq<string>)
    ensures |lines| == n && forall i :: 0 <= i < n ==> lines[i] == ""
  {
    seq(n, i => "")
  }

  function AddToLast(lines: seq<string>, tail: string): (more: seq<string>)
    requires lines != []
    ensures |more| == |lines|
  {
    lines[..|lines| - 1] + [lines[|lines| - 1] + tail]
  }

  /** The text cut or padded to the room; the cut is marked on the last line that stays. */
  function Fitted(text: string, room: int, s: Suffixes): Result<string, RenderError>
  {
    var lines := if text == "" then [] else Lines(text);
    if |lines| > room then
      var kept := Take(lines, room);
      if kept == [] then Err(IndexError) else Ok(Join(AddToLast(kept, " " + s.truncated)))
    else Ok(Join(lines + Blanks(room - |lines|)))
  }

  /** `render_message`, before `format_style`. */
  method RenderMessage(p: Post, s: Suffixes, linesCount: Option<nat>) returns (r: Result<string, RenderError>)
    ensures r == Rendered(p, s, linesCount)
  {
    hide Lines, Assembled, Fitted;
    var mainText := p.text;
    if linesCount.Some? && linesCount.value > 0 {
      var room := linesCount.value as int;
      if p.attachments != "" {
        room := room - |Lines(p.attachments)|;
      }
      if p.files != "" {
        room := room - |Lines(p.files)|;
      }
      if p.attachments != "" && mainText != "" {
        room := room - 1;
      }
      var fitted := FitText(mainText, room, s);
      if fitted.Err? {
        return fitted;
      }
      mainText := fitted.value;
    }
    var fullText := Assemble(p, s, mainText);
    r := Ok(fullText);
  }

  /** The middle of `render_message`: truncate, or pad with blank lines. */
  method FitText(text: string, room: int, s: Suffixes) returns (r: Result<string, RenderError>)
    ensures r == Fitted(text, room, s)
  {
    var lines := if text == "" then [] else Lines(text);
    if |lines| > room {
      lines := Take(lines, room);
      if lines == [] {
        return Err(IndexError);
      }
      lines := lines[..|lines| - 1] + [lines[|lines| - 1] + (" " + s.truncated)];
    } else if |lines| < room {
      lines := lines + Blanks(room - |lines|);
    } else {
      assert lines + Blanks(0) == lines;
    }
    r := Ok(Join(lines));
  }

  /** The second half of `render_message`. */
  method Assemble(p: Post, s: Suffixes, text: string) returns (fullText: string)
    ensures fullText == Assembled(text, p, s)
  {
    var mainText := text;
    if p.edited && mainText != "" {
      mainText := mainText + (" " + s.edited);
    }
    fullText := mainText;
    if p.attachments != "" && fullText != "" {
      fullText := fullText + "\n\n";
    }
    fullText := fullText + p.attachments;
    if p.files != "" && fullText != "" {
      fullText := fullText + "\n";
    }
    fullText := fullText + p.files;
    if p.edited && mainText == "" {
      fullText := fullText + (" " + s.edited);
    }
    assert text + "" == text && WithFiles(p.attachments, p.files) + "" == WithFiles(p.attachments, p.files);
    assert "" + p.attachments == p.attachments && "" + p.files == p.files;
  }

  function WithAttachments(main: string, attachments: string): string
  {
    if attachments == "" then main
    else if main == "" then attachments
    else main + "\n\n" + attachments
  }

  function WithFiles(text: string, files: string): string
  {
    if files == "" then text else if text == "" then files else text + "\n" + files
  }

  /** The text, the attachments after a blank line, and the files; the edited mark follows the text, or everything. */
  function Assembled(main: string, p: Post, s: Suffixes): string
  {
    var mark := if p.edited then " " + s.edited else "";
    if main != "" then WithFiles(WithAttachments(main + mark, p.attachments), p.files)
    else WithFiles(p.attachments, p.files) + mark
  }

  function Rendered(p: Post, s: Suffixes, linesCount: Option<nat>): Result<string, RenderError>
  {
    if linesCount.None? || linesCount.value == 0 then Ok(Assembled(p.text, p, s))
    else
      var main :- Fitted(p.text, Room(p, linesCount.value), s);
      Ok(Assembled(main, p, s))
  }

  // ----- Line counts -----

  lemma JoinEmpty(lines: seq<string>)
    requires lines != [] && Join(lines) == ""
    ensures lines == [""]
  {
    assert lines == lines[..|lines| - 1] + [lines[|lines| - 1]];
  }

  lemma NonemptyLines(text: string)
    requires text != ""
    ensures Lines(text) != [""]
  {
    JoinOfLines(text);
  }

  function AttachmentLines(p: Post): seq<string>
  {
    if p.attachments == "" then [] else Lines(p.attachments)
  }

  function FileLines(p: Post): seq<string>
  {
    if p.files == "" then [] else Lines(p.files)
  }

  /** What follows a nonempty text. */
  function TailLines(p: Post): seq<string>
  {
    (if p.attachments == "" then [] else [""] + Lines(p.attachments)) + FileLines(p)
  }

  lemma WithFilesLines(text: string, files: string)
    requires text != "" && files != ""
    ensures Lines(WithFiles(text, files)) == Lines(text) + Lines(files)
  {
    LinesNewline(text, files);
  }

  lemma NewlineLines(main: string)
    ensures Lines(main + "\n") == Lines(main) + [""]
  {
    LinesPush(main, '\n');
    assert main + "\n" == main + ['\n'];
  }

  lemma WithAttachmentsLines(main: string, attachments: string)
    requires main != "" && attachments != ""
    ensures Lines(WithAttachments(main, attachments)) == Lines(main) + [""] + Lines(attachments)
  {
    hide Lines, PushChar;
    LinesNewline(main + "\n", attachments);
    NewlineLines(main);
    assert main + "\n\n" + attachments == main + "\n" + "\n" + attachments;
  }

  /** The mark that an edited post gets. */
  function Mark(p: Post, s: Suffixes): string { if p.edited then " " + s.edited else "" }

  lemma MarkOneLine(p: Post, s: Suffixes)
    requires GoodSuffixes(s)
    ensures OneLine(Mark(p, s)) && OneLine(" " + s.truncated)
  {
  }

  lemma TailAppended(text: string, p: Post)
    requires text != ""
    ensures Lines(WithFiles(WithAttachments(text, p.attachments), p.files)) == Lines(text) + TailLines(p)
  {
    hide Lines;
    var body := WithAttachments(text, p.attachments);
    if p.attachments != "" {
      WithAttachmentsLines(text, p.attachments);
    }
    if p.files != "" {
      WithFilesLines(body, p.files);
    }
    if p.attachments != "" {
      assert Lines(text) + [""] + Lines(p.attachments) + FileLines(p) == Lines(text) + TailLines(p);
    }
  }

  /** The lines of an assembled message with a text. */
  lemma AssembledWithText(main: string, p: Post, s: Suffixes)
    requires main != "" && GoodSuffixes(s)
    ensures Lines(Assembled(main, p, s)) == AddToLast(Lines(main), Mark(p, s)) + TailLines(p)
  {
    MarkOneLine(p, s);
    LinesTail(main, Mark(p, s));
    TailAppended(main + Mark(p, s), p);
  }

  /** The line count of an assembled message without a text. */
  lemma AssembledWithoutText(p: Post, s: Suffixes)
    requires GoodSuffixes(s)
    ensures var n := |AttachmentLines(p)| + |FileLines(p)|;
            |Lines(Assembled("", p, s))| == if n == 0 then 1 else n
  {
    MarkOneLine(p, s);
    LinesTail(WithFiles(p.attachments, p.files), Mark(p, s));
    if p.attachments != "" && p.files != "" {
      WithFilesLines(p.attachments, p.files);
    }
  }

  /** The fitted text, line by line. */
  function FittedLines(text: string, room: nat, s: Suffixes): (lines: seq<string>)
    requires room >= 1 && text != ""
    ensures |lines| == room
  {
    var lines := Lines(text);
    if |lines| > room then AddToLast(lines[..room], " " + s.truncated) else lines + Blanks(room - |lines|)
  }

  lemma FittedText(text: string, room: nat, s: Suffixes)
    requires room >= 1 && text != "" && GoodSuffixes(s)
    ensures Fitted(text, room, s).Ok? && Fitted(text, room, s).value != ""
    ensures Lines(Fitted(text, room, s).value) == FittedLines(text, room, s)
  {
    var lines := FittedLines(text, room, s);
    assert forall i :: 0 <= i < |lines| ==> OneLine(lines[i]);
    LinesOfJoin(lines);
    if Join(lines) == "" {
      JoinEmpty(lines);
      NonemptyLines(text);
    }
  }

  lemma RoomAndTail(p: Post, count: nat)
    requires p.text != ""
    ensures Room(p, count) + |TailLines(p)| == count
  {
  }

  lemma RenderedIsAssembled(p: Post, s: Suffixes, count: nat, main: string)
    requires count > 0 && Fitted(p.text, Room(p, count), s) == Ok(main)
    ensures Rendered(p, s, Some(count)) == Ok(Assembled(main, p, s))
  {
  }

  /** The lines of a post with a text, rendered into a given number of lines. */
  function RenderedLines(p: Post, s: Suffixes, count: nat): seq<string>
    requires p.text != "" && Room(p, count) >= 1
  {
    AddToLast(FittedLines(p.text, Room(p, count), s), Mark(p, s)) + TailLines(p)
  }

  /** With a text and at least one line of room, the message has exactly the given number of lines: the fitted text,
      then the attachments and the files, still last. */
  lemma RenderFits(p: Post, s: Suffixes, count: nat) returns (message: string)
    requires GoodSuffixes(s) && count > 0 && p.text != "" && Room(p, count) >= 1
    ensures Rendered(p, s, Some(count)) == Ok(message)
    ensures Lines(message) == RenderedLines(p, s, count) && |Lines(message)| == count
  {
    var room := Room(p, count);
    FittedText(p.text, room, s);
    var main := Fitted(p.text, room, s).value;
    RenderedIsAssembled(p, s, count, main);
    AssembledWithText(main, p, s);
    RoomAndTail(p, count);
    message := Assembled(main, p, s);
  }

  /** When the line counts come out right. */
  predicate ExactFit(p: Post, count: nat)
  {
    var room := Room(p, count);
    if p.text != "" then room >= 1
    else room == 0 || (p.attachments == "" && room >= 1 && (p.files == "" || room >= 2))
  }

  lemma BlanksText(room: nat)
    ensures room <= 1 ==> Join(Blanks(room)) == ""
    ensures room >= 2 ==> Join(Blanks(room)) != "" && |Lines(Join(Blanks(room)))| == room
  {
    if room >= 2 {
      LinesOfJoin(Blanks(room));
    }
  }

  lemma EmptyTextCount(p: Post, s: Suffixes, count: nat)
    requires GoodSuffixes(s) && count > 0 && p.text == ""
    ensures (Rendered(p, s, Some(count)).Ok? && |Lines(Rendered(p, s, Some(count)).value)| == count) <==> ExactFit(p, count)
  {
    var room := Room(p, count);
    EmptyRoom(p, count);
    if room >= 0 {
      var main := BlankText(p, s, room);
      RenderedIsAssembled(p, s, count, main);
      EmptyTextLines(p, s, main, room);
    }
  }

  lemma EmptyRoom(p: Post, count: nat)
    requires p.text == ""
    ensures Room(p, count) == count - |AttachmentLines(p)| - |FileLines(p)|
    ensures (AttachmentLines(p) == [] <==> p.attachments == "") && (FileLines(p) == [] <==> p.files == "")
    ensures |TailLines(p)| == |AttachmentLines(p)| + |FileLines(p)| + (if p.attachments == "" then 0 else 1)
  {
  }

  lemma BlankText(p: Post, s: Suffixes, room: nat) returns (main: string)
    requires p.text == ""
    ensures Fitted(p.text, room, s) == Ok(main)
    ensures if room <= 1 then main == "" else main != "" && |Lines(main)| == room
  {
    BlanksText(room);
    assert [] + Blanks(room) == Blanks(room);
    main := Join(Blanks(room));
  }

  lemma EmptyTextLines(p: Post, s: Suffixes, main: string, room: nat)
    requires GoodSuffixes(s)
    requires if room <= 1 then main == "" else main != "" && |Lines(main)| == room
    ensures |Lines(Assembled(main, p, s))| ==
            if room >= 2 then room + |TailLines(p)|
            else if p.attachments == "" && p.files == "" then 1
            else |AttachmentLines(p)| + |FileLines(p)|
  {
    if main == "" {
      AssembledWithoutText(p, s);
    } else {
      AssembledWithText(main, p, s);
    }
  }

  lemma NoRoomCount(p: Post, s: Suffixes, count: nat)
    requires GoodSuffixes(s) && count > 0 && p.text != "" && Room(p, count) <= 0
    ensures Rendered(p, s, Some(count)).Ok? ==> |Lines(Rendered(p, s, Some(count)).value)| > count
  {
    var room := Room(p, count);
    if Take(Lines(p.text), room) != [] {
      var main := CutText(p.text, room, s);
      RenderedIsAssembled(p, s, count, main);
      AssembledWithText(main, p, s);
      RoomAndTail(p, count);
    }
  }

  lemma CutText(text: string, room: int, s: Suffixes) returns (main: string)
    requires text != "" && room <= 0 && Take(Lines(text), room) != [] && GoodSuffixes(s)
    ensures Fitted(text, room, s) == Ok(main) && main != "" && |Lines(main)| == |Lines(text)| + room
  {
    var cut := AddToLast(Take(Lines(text), room), " " + s.truncated);
    assert OneLine(" " + s.truncated);
    assert forall i :: 0 <= i < |cut| ==> OneLine(cut[i]);
    LinesOfJoin(cut);
    if Join(cut) == "" { JoinEmpty(cut); }
    main := Join(cut);
  }

  /** The rendered message has exactly the number of lines asked for if and only if the counts fit. */
  lemma RenderExactIff(p: Post, s: Suffixes, count: nat)
    requires GoodSuffixes(s) && count > 0
    ensures (Rendered(p, s, Some(count)).Ok? && |Lines(Rendered(p, s, Some(count)).value)| == count) <==> ExactFit(p, count)
  {
    if p.text == "" {
      EmptyTextCount(p, s, count);
    } else if Room(p, count) >= 1 {
      var _ := RenderFits(p, s, count);
    } else {
      NoRoomCount(p, s, count);
    }
  }
}
