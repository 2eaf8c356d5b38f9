// The changelog as a sequence of lines (release.py): a text is the list its lines make, so that joining texts with a
// newline is appending their lines, and the empty text is one empty line.
module Blocks {

  /** A heading line and the lines up to the next one. */
  datatype Block = Block(head: string, body: seq<string>)

  function Before(lines: seq<string>, isHead: string -> bool): seq<string>
  {
    if lines == [] || isHead(lines[0]) then [] else [lines[0]] + Before(lines[1..], isHead)
  }

  function BlocksOf(lines: seq<string>, isHead: string -> bool): seq<Block>
  {
    if lines == [] then []
    else if isHead(lines[0]) then [Block(lines[0], Before(lines[1..], isHead))] + BlocksOf(lines[1..], isHead)
    else BlocksOf(lines[1..], isHead)
  }

  function Flat(blocks: seq<Block>): seq<string>
  {
    if blocks == [] then [] else [blocks[0].head] + blocks[0].body + Flat(blocks[1..])
  }

  ghost predicate NoHead(lines: seq<string>, isHead: string -> bool) { forall line :: line in lines ==> !isHead(line) }

  ghost predicate GoodBlock(block: Block, isHead: string -> bool) { isHead(block.head) && NoHead(block.body, isHead) }

  ghost predicate GoodBlocks(blocks: seq<Block>, isHead: string -> bool)
  {
    forall i :: 0 <= i < |blocks| ==> GoodBlock(blocks[i], isHead)
  }

  lemma FlatCons(block: Block, blocks: seq<Block>, isHead: string -> bool)
    ensures Flat([block] + blocks) == [block.head] + block.body + Flat(blocks)
    ensures GoodBlock(block, isHead) && GoodBlocks(blocks, isHead) ==> GoodBlocks([block] + blocks, isHead)
  {
    assert ([block] + blocks)[1..] == blocks;
  }

  lemma SplitFirst(line: string, rest: seq<string>, isHead: string -> bool)
    ensures Before([line] + rest, isHead) == if isHead(line) then [] else [line] + Before(rest, isHead)
    ensures BlocksOf([line] + rest, isHead)
         == if isHead(line) then [Block(line, Before(rest, isHead))] + BlocksOf(rest, isHead) else BlocksOf(rest, isHead)
  {
    assert ([line] + rest)[1..] == rest;
  }

  lemma NothingToSplit(isHead: string -> bool)
    ensures Before([], isHead) == [] && BlocksOf([], isHead) == [] && Flat([]) == []
    ensures NoHead([], isHead) && GoodBlocks([], isHead)
  {
  }

  lemma NoHeadPush(line: string, rest: seq<string>, isHead: string -> bool)
    requires NoHead(rest, isHead) && !isHead(line)
    ensures NoHead([line] + rest, isHead)
  {
  }

  /** Splitting loses nothing. */
  lemma {:induction false} SplitFlat(lines: seq<string>, isHead: string -> bool)
    ensures Before(lines, isHead) + Flat(BlocksOf(lines, isHead)) == lines
    ensures NoHead(Before(lines, isHead), isHead) && GoodBlocks(BlocksOf(lines, isHead), isHead)
  {
    hide Before, BlocksOf, Flat, GoodBlocks, NoHead;
    NothingToSplit(isHead);
    if lines == [] {
    } else {
      var line, rest := lines[0], lines[1..];
      SplitFlat(rest, isHead);
      assert lines == [line] + rest;
      SplitFirst(line, rest, isHead);
      if isHead(line) {
        FlatCons(Block(line, Before(rest, isHead)), BlocksOf(rest, isHead), isHead);
      } else {
        NoHeadPush(line, Before(rest, isHead), isHead);
      }
    }
  }

  lemma {:induction false} BeforeOf(before: seq<string>, rest: seq<string>, isHead: string -> bool)
    requires NoHead(before, isHead) && (rest == [] || isHead(rest[0]))
    ensures Before(before + rest, isHead) == before
    ensures BlocksOf(before + rest, isHead) == BlocksOf(rest, isHead)
  {
    if before == [] {
      assert before + rest == rest;
    } else {
      assert before[0] in before;
      assert (before + rest)[1..] == before[1..] + rest;
      assert NoHead(before[1..], isHead) by { assert forall line :: line in before[1..] ==> line in before; }
      BeforeOf(before[1..], rest, isHead);
      assert before == [before[0]] + before[1..];
    }
  }

  /** There is one way to split: whatever was put together from headings and bodies is found again. */
  lemma {:induction false} SplitOfFlat(before: seq<string>, blocks: seq<Block>, isHead: string -> bool)
    requires NoHead(before, isHead) && GoodBlocks(blocks, isHead)
    ensures Before(before + Flat(blocks), isHead) == before && BlocksOf(before + Flat(blocks), isHead) == blocks
    decreases |blocks|
  {
    if blocks == [] {
      BeforeOf(before, [], isHead);
    } else {
      var first, rest := blocks[0], blocks[1..];
      assert GoodBlock(first, isHead);
      assert GoodBlocks(rest, isHead) by { assert forall i :: 0 <= i < |rest| ==> rest[i] == blocks[i + 1]; }
      SplitOfFlat(first.body, rest, isHead);
      var tail := first.body + Flat(rest);
      assert Flat(blocks) == [first.head] + tail;
      assert Flat(blocks)[1..] == tail;
      BeforeOf(before, Flat(blocks), isHead);
      assert blocks == [first] + rest;
    }
  }

  lemma {:induction false} FlatAppend(a: seq<Block>, b: seq<Block>)
    ensures Flat(a + b) == Flat(a) + Flat(b)
  {
    if a == [] {
      assert a + b == b;
    } else {
      assert (a + b)[1..] == a[1..] + b;
      FlatAppend(a[1..], b);
    }
  }

  lemma {:induction false} HeadInFlat(blocks: seq<Block>, i: nat)
    requires i < |blocks|
    ensures blocks[i].head in Flat(blocks)
  {
    if i == 0 {
    } else {
      HeadInFlat(blocks[1..], i - 1);
    }
  }

  // ----- Empty lines around a text -----

  lemma TailOfTail(lines: seq<string>, n: nat)
    requires 0 < n <= |lines|
    ensures lines[1..][n - 1..] == lines[n..]
  {
  }

  function DropEmptyFront(lines: seq<string>): (rest: seq<string>)
    ensures |rest| <= |lines| && rest == lines[|lines| - |rest|..] && (rest != [] ==> rest[0] != "")
    ensures forall i :: 0 <= i < |lines| - |rest| ==> lines[i] == ""
  {
    if lines != [] && lines[0] == "" then
      var rest := DropEmptyFront(lines[1..]);
      TailOfTail(lines, |lines| - |rest|);
      rest
    else lines
  }

  function DropEmptyBack(lines: seq<string>): (rest: seq<string>)
    ensures |rest| <= |lines| && rest == lines[..|rest|] && (rest != [] ==> rest[|rest| - 1] != "")
    ensures forall i :: |rest| <= i < |lines| ==> lines[i] == ""
  {
    if lines != [] && lines[|lines| - 1] == "" then
      var rest := DropEmptyBack(lines[..|lines| - 1]);
      assert lines[..|lines| - 1][..|rest|] == lines[..|rest|];
      rest
    else lines
  }

  /** `text.strip("\n")`. */
  function Trimmed(lines: seq<string>): (text: seq<string>)
    ensures text != []
  {
    var rest := DropEmptyBack(DropEmptyFront(lines));
    if rest == [] then [""] else rest
  }

  /** A text that `strip("\n")` leaves alone. */
  predicate Tidy(lines: seq<string>)
  {
    lines == [""] || (lines != [] && lines[0] != "" && lines[|lines| - 1] != "")
  }

  lemma TrimmedLines(lines: seq<string>)
    ensures forall line :: line in Trimmed(lines) ==> line in lines || line == ""
  {
    hide DropEmptyFront, DropEmptyBack;
    var front := DropEmptyFront(lines);
    assert forall line :: line in DropEmptyBack(front) ==> line in front;
    assert forall line :: line in front ==> line in lines;
  }

  lemma TidyIsTrimmed(lines: seq<string>)
    requires Tidy(lines)
    ensures Trimmed(lines) == lines
  {
    hide DropEmptyFront, DropEmptyBack;
    var front := DropEmptyFront(lines);
    if lines == [""] {
      assert front == [];
    } else {
      assert front == lines && DropEmptyBack(front) == lines;
    }
  }

  lemma TrimmedIsTidy(lines: seq<string>)
    ensures Tidy(Trimmed(lines)) && (forall line :: line in Trimmed(lines) ==> line in lines || line == "")
    ensures Trimmed(lines) == lines <==> Tidy(lines)
  {
    hide DropEmptyFront, DropEmptyBack;
    var front := DropEmptyFront(lines);
    var rest := DropEmptyBack(front);
    assert rest != [] ==> rest[0] == front[0];
    assert Tidy(Trimmed(lines));
    hide Trimmed, Tidy;
    TrimmedLines(lines);
    if Tidy(lines) { TidyIsTrimmed(lines); }
  }

  lemma {:induction false} FrontOfEmpty(lines: seq<string>)
    requires forall i :: 0 <= i < |lines| ==> lines[i] == ""
    ensures DropEmptyFront(lines) == []
  {
    if lines == [] {
    } else {
      FrontOfEmpty(lines[1..]);
    }
  }

  lemma TrimmedEmpty(lines: seq<string>)
    requires forall i :: 0 <= i < |lines| ==> lines[i] == ""
    ensures Trimmed(lines) == [""]
  {
    FrontOfEmpty(lines);
  }

  lemma {:induction false} FrontSkips(text: seq<string>)
    ensures DropEmptyFront([""] + text) == DropEmptyFront(text)
  {
    assert ([""] + text)[1..] == text;
  }

  lemma BackSkips(text: seq<string>)
    ensures DropEmptyBack(text + [""]) == DropEmptyBack(text)
  {
    assert (text + [""])[..|text|] == text;
  }

  lemma FrontFirst(line: string, rest: seq<string>)
    ensures DropEmptyFront([line] + rest) == if line == "" then DropEmptyFront(rest) else [line] + rest
  {
    assert ([line] + rest)[1..] == rest;
  }

  lemma {:induction false} FrontOfMore(text: seq<string>)
    ensures DropEmptyFront(text + [""]) == if DropEmptyFront(text) == [] then [] else DropEmptyFront(text) + [""]
  {
    if text == [] {
      FrontOfEmpty([""]);
      assert text + [""] == [""];
    } else {
      hide DropEmptyFront;
      var line, rest := text[0], text[1..];
      assert text == [line] + rest && text + [""] == [line] + (rest + [""]);
      FrontOfMore(rest);
      FrontFirst(line, rest);
      FrontFirst(line, rest + [""]);
    }
  }

  /** Empty lines around a text do not matter to `strip("\n")`. */
  lemma TrimmedSkips(text: seq<string>)
    ensures Trimmed([""] + text) == Trimmed(text) && Trimmed(text + [""]) == Trimmed(text)
  {
    FrontSkips(text);
    FrontOfMore(text);
    BackSkips(DropEmptyFront(text));
  }
}
