// The channel buffer: finding the lines of a post and overwriting them in place.
module PostBuffer {
  import opened Prelude
  import opened Text
  import opened PostRendering

  /** One line of the buffer: the post it belongs to (by its tags) and what it shows. */
  datatype BufferLine = BufferLine(postId: string, message: string)

  /** The prefix of the first line of a post in a thread, and the blank one of the others. */
  datatype ThreadPrefix = ThreadPrefix(first: string, others: string)

  ghost predicate GoodPrefix(prefix: Option<ThreadPrefix>)
  {
    prefix.Some? ==> OneLine(prefix.value.first) && OneLine(prefix.value.others)
  }

  function PrefixedLines(lines: seq<string>, prefix: ThreadPrefix): (more: seq<string>)
    requires lines != []
    ensures |more| == |lines|
  {
    seq(|lines|, i requires 0 <= i < |lines| => if i == 0 then prefix.first + lines[0] else prefix.others + lines[i])
  }

  /** `_prefix_thread_message`: as many lines as before, each with its prefix. */
  method PrefixThreadMessage(message: string, prefix: ThreadPrefix) returns (prefixed: string)
    requires OneLine(prefix.first) && OneLine(prefix.others)
    ensures Lines(prefixed) == PrefixedLines(Lines(message), prefix)
  {
    var lines := Lines(message);
    var more := PrefixedLines(lines, prefix);
    assert forall i :: 0 <= i < |more| ==> OneLine(more[i]);
    LinesOfJoin(more);
    prefixed := Join(more);
  }

  /** The end of the last lines of a post: 0 when the buffer has none. */
  function BlockEnd(lines: seq<BufferLine>, id: string): (b: nat)
    ensures b <= |lines| && (b > 0 ==> lines[b - 1].postId == id) && forall i :: b <= i < |lines| ==> lines[i].postId != id
  {
    if lines == [] then 0
    else if lines[|lines| - 1].postId == id then |lines|
    else BlockEnd(lines[..|lines| - 1], id)
  }

  /** Where the lines of the post that end at b start. */
  function StartBefore(lines: seq<BufferLine>, id: string, b: nat): (a: nat)
    requires b <= |lines|
    ensures a <= b && (a > 0 ==> lines[a - 1].postId != id) && forall i :: a <= i < b ==> lines[i].postId == id
  {
    if b > 0 && lines[b - 1].postId == id then StartBefore(lines, id, b - 1) else b
  }

  function BlockStart(lines: seq<BufferLine>, id: string): (a: nat)
    ensures a <= BlockEnd(lines, id)
  {
    StartBefore(lines, id, BlockEnd(lines, id))
  }

  /** The lines of one post: a block of adjacent lines, the last one of that post in the buffer. */
  ghost predicate IsBlock(lines: seq<BufferLine>, id: string, a: nat, b: nat)
  {
    && a <= b <= |lines|
    && (forall i :: a <= i < b ==> lines[i].postId == id)
    && (forall i :: b <= i < |lines| ==> lines[i].postId != id)
    && (a == b ==> a == 0)
    && (0 < a ==> lines[a - 1].postId != id)
  }

  /** There is exactly one such block. */
  lemma OneBlock(lines: seq<BufferLine>, id: string, a: nat, b: nat)
    ensures IsBlock(lines, id, a, b) <==> a == BlockStart(lines, id) && b == BlockEnd(lines, id)
  {
    var end := BlockEnd(lines, id);
    if IsBlock(lines, id, a, b) {
      assert b > 0 ==> lines[b - 1].postId == id;
      assert b == end;
      var start := BlockStart(lines, id);
      assert start > 0 ==> lines[start - 1].postId != id;
    }
  }

  /** What the post's lines show after the update. */
  function UpdatedLines(p: Post, s: Suffixes, prefix: Option<ThreadPrefix>, count: nat): seq<string>
    requires p.text != "" && count > 0 && Room(p, count) >= 1
  {
    var lines := RenderedLines(p, s, count);
    assert lines != [] by { RoomAndTail(p, count); }
    var reacted := AddToLast(lines, p.reactions);
    if prefix.Some? then PrefixedLines(reacted, prefix.value) else reacted
  }

  /** The lines `update_post` splits its message into. */
  function NewText(p: Post, s: Suffixes, prefix: Option<ThreadPrefix>, count: nat): Result<seq<string>, RenderError>
  {
    match Rendered(p, s, Some(count))
    case Err(e) => Err(e)
    case Ok(message) =>
      var reacted := AddToLast(Lines(message), p.reactions);
      Ok(if prefix.Some? then PrefixedLines(reacted, prefix.value) else reacted)
  }

  /** With a text and room for it these are the given number of lines. */
  lemma NewTextFits(p: Post, s: Suffixes, prefix: Option<ThreadPrefix>, count: nat)
    requires GoodSuffixes(s) && p.text != "" && count > 0 && Room(p, count) >= 1
    ensures |UpdatedLines(p, s, prefix, count)| == count
    ensures NewText(p, s, prefix, count) == Ok(UpdatedLines(p, s, prefix, count))
  {
    hide Rendered, RenderedLines, Lines;
    var _ := RenderFits(p, s, count);
  }

  /** Every line of the post gets exactly one new line if and only if the counts fit. */
  lemma EachLineOnceIff(p: Post, s: Suffixes, prefix: Option<ThreadPrefix>, count: nat)
    requires GoodSuffixes(s) && count > 0
    ensures (NewText(p, s, prefix, count).Ok? && |NewText(p, s, prefix, count).value| == count) <==> ExactFit(p, count)
  {
    hide Rendered, Lines, ExactFit;
    RenderExactIff(p, s, count);
  }

  function Range(a: nat, n: nat): (places: seq<nat>)
    ensures |places| == n && forall i :: 0 <= i < n ==> places[i] == a + i
  {
    seq(n, i requires 0 <= i < n => a + i)
  }

  class Channel {
    var buffer: array<BufferLine>

    constructor (buffer: array<BufferLine>)
      ensures this.buffer == buffer
    {
      this.buffer := buffer;
    }

    /** `_get_lines_pointers`: walk back from the last line of the buffer. */
    method GetLinesPointers(id: string) returns (pointers: seq<nat>)
      ensures var a, b := BlockStart(buffer[..], id), BlockEnd(buffer[..], id); pointers == Range(a, b - a)
    {
      var line: nat := buffer.Length;
      while line > 0 && buffer[line - 1].postId != id
        invariant line <= buffer.Length
        invariant forall i :: line <= i < buffer.Length ==> buffer[i].postId != id
      {
        line := line - 1;
      }
      ghost var b := line;
      var reversed: seq<nat> := [];
      while line > 0 && buffer[line - 1].postId == id
        invariant line <= b
        invariant forall i :: line <= i < b ==> buffer[i].postId == id
        invariant |reversed| == b - line && forall i :: 0 <= i < |reversed| ==> reversed[i] == b - 1 - i
      {
        line := line - 1;
        reversed := reversed + [line];
      }
      assert IsBlock(buffer[..], id, line, b);
      OneBlock(buffer[..], id, line, b);
      pointers := seq(|reversed|, i requires 0 <= i < |reversed| => reversed[|reversed| - 1 - i]);
    }

    /** `update_post`: the post's lines are overwritten with the new lines in order, as far as both go; nothing else
        changes, and an error changes nothing. */
    method UpdatePost(p: Post, s: Suffixes, prefix: Option<ThreadPrefix>) returns (r: Result<(), RenderError>)
      requires GoodSuffixes(s) && GoodPrefix(prefix) && OneLine(p.reactions)
      modifies buffer
      ensures forall i :: 0 <= i < buffer.Length ==> buffer[i].postId == old(buffer[i].postId)
      ensures var a, b := BlockStart(old(buffer[..]), p.id), BlockEnd(old(buffer[..]), p.id);
              var lines := if a == b then Ok([]) else NewText(p, s, prefix, b - a);
              && (lines.Err? ==> r == Err(lines.error) && buffer[..] == old(buffer[..]))
              && (lines.Ok? ==> r == Ok(()))
              && (lines.Ok? ==> forall i :: 0 <= i < buffer.Length ==>
                   buffer[i].message == if a <= i < b && i - a < |lines.value| then lines.value[i - a]
                                        else old(buffer[i].message))
    {
      hide NewText;
      var pointers := GetLinesPointers(p.id);
      if pointers == [] {
        return Ok(());
      }
      var lines := NewLines(p, s, prefix, |pointers|);
      if lines.Err? {
        return Err(lines.error);
      }
      WriteLines(pointers, lines.value, BlockStart(buffer[..], p.id));
      r := Ok(());
    }

    /** The lines `update_post` is about to write. */
    method NewLines(p: Post, s: Suffixes, prefix: Option<ThreadPrefix>, count: nat)
      returns (r: Result<seq<string>, RenderError>)
      requires GoodSuffixes(s) && GoodPrefix(prefix) && OneLine(p.reactions) && count > 0
      ensures r == NewText(p, s, prefix, count)
    {
      hide Lines, Rendered;
      var rendered := RenderMessage(p, s, Some(count));
      if rendered.Err? {
        return Err(rendered.error);
      }
      var message := rendered.value + p.reactions;
      LinesTail(rendered.value, p.reactions);
      if prefix.Some? {
        message := PrefixThreadMessage(message, prefix.value);
      }
      r := Ok(Lines(message));
    }

    /** `for pointer, line in zip(pointers, lines)`. */
    method WriteLines(pointers: seq<nat>, lines: seq<string>, ghost a: nat)
      requires a + |pointers| <= buffer.Length && pointers == Range(a, |pointers|)
      modifies buffer
      ensures forall i :: 0 <= i < buffer.Length ==> buffer[i].postId == old(buffer[i].postId)
      ensures forall i :: 0 <= i < buffer.Length && !(a <= i < a + |pointers|) ==> buffer[i] == old(buffer[i])
      ensures forall i :: a <= i < a + |pointers| ==>
                buffer[i].message == if i - a < |lines| then lines[i - a] else old(buffer[i].message)
    {
      var n := if |pointers| <= |lines| then |pointers| else |lines|;
      for k := 0 to n
        invariant forall i :: 0 <= i < buffer.Length && !(a <= i < a + k) ==> buffer[i] == old(buffer[i])
        invariant forall i :: a <= i < a + k ==> buffer[i] == BufferLine(old(buffer[i].postId), lines[i - a])
      {
        var at := pointers[k];
        buffer[at] := BufferLine(buffer[at].postId, lines[k]);
      }
    }
  }

  lemma TailEndsWithFiles(p: Post, k: nat)
    requires p.files != "" && k < |Lines(p.files)|
    ensures |TailLines(p)| >= |Lines(p.files)|
    ensures TailLines(p)[|TailLines(p)| - |Lines(p.files)| + k] == Lines(p.files)[k]
  {
  }

  lemma RenderedEndsWithFiles(p: Post, s: Suffixes, count: nat, k: nat)
    requires p.text != "" && count > 0 && Room(p, count) >= 1 && p.files != "" && k < |Lines(p.files)|
    ensures |RenderedLines(p, s, count)| == count && count > |Lines(p.files)|
    ensures RenderedLines(p, s, count)[count - |Lines(p.files)| + k] == Lines(p.files)[k]
  {
    hide Lines, TailLines, Room, AddToLast, FittedLines;
    RoomAndTail(p, count);
    TailEndsWithFiles(p, k);
    assert RenderedLines(p, s, count)[Room(p, count)..] == TailLines(p);
  }

  /** Reactions go to the last line, the prefix to all. */
  lemma UpdatedAt(p: Post, s: Suffixes, prefix: Option<ThreadPrefix>, count: nat, i: nat)
    requires p.text != "" && count > 0 && Room(p, count) >= 1
    requires 0 < i < count == |RenderedLines(p, s, count)|
    ensures |UpdatedLines(p, s, prefix, count)| == count
    ensures var line := RenderedLines(p, s, count)[i];
            UpdatedLines(p, s, prefix, count)[i]
            == (if prefix.Some? then prefix.value.others else "") + (if i == count - 1 then line + p.reactions else line)
  {
    hide RenderedLines, Room;
    var reacted := AddToLast(RenderedLines(p, s, count), p.reactions);
    assert "" + reacted[i] == reacted[i];
  }

  /** The file lines are still the last ones: only a thread prefix and, on the very last line, the reactions are added. */
  lemma FilesStayLast(p: Post, s: Suffixes, prefix: Option<ThreadPrefix>, count: nat, k: nat)
    requires p.text != "" && count > 0 && Room(p, count) >= 1 && p.files != "" && k < |Lines(p.files)|
    ensures |UpdatedLines(p, s, prefix, count)| == count && count > |Lines(p.files)|
    ensures var files := Lines(p.files);
            UpdatedLines(p, s, prefix, count)[count - |files| + k] ==
            (if prefix.Some? then prefix.value.others else "") + (if k == |files| - 1 then files[k] + p.reactions else files[k])
  {
    hide Lines, RenderedLines, UpdatedLines, Room;
    RenderedEndsWithFiles(p, s, count, k);
    UpdatedAt(p, s, prefix, count, count - |Lines(p.files)| + k);
  }
}
