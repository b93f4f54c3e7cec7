/** app/interfaces/formatter.py: `chunk_html`, the greedy splitter of long messages.

    The specification cuts the lines of the text into blocks; a block may get a `<pre>` before
    its first line and a `</pre>` after its last. */
module ChunkHtml {
  import opened Text

  const OPEN := "<pre>"
  const CLOSE := "</pre>"

  /** `text.split("\n")`. */
  function Split(text: string): (lines: seq<string>)
    ensures lines != []
  {
    SplitAt(text, '\n')
  }

  /** `"\n".join(lines)`. */
  function Join(lines: seq<string>): string {
    JoinWith(lines, '\n')
  }

  predicate OccursAt(s: string, part: string, i: nat) {
    i + |part| <= |s| && s[i..i + |part|] == part
  }

  predicate Contains(s: string, part: string) {
    exists i: nat :: i <= |s| && OccursAt(s, part, i)
  }

  predicate EndsWith(s: string, part: string) {
    |part| <= |s| && s[|s| - |part|..] == part
  }

  /** Consecutive lines of the text, with the tags a split adds around them. */
  datatype Block = Block(lines: seq<string>, opens: bool, closes: bool)

  function Opening(opens: bool): string {
    if opens then OPEN else ""
  }

  function Closing(closes: bool): string {
    if closes then CLOSE else ""
  }

  function Render(b: Block): string {
    Opening(b.opens) + Join(b.lines) + Closing(b.closes)
  }

  function RenderAll(blocks: seq<Block>): seq<string> {
    if blocks == [] then [] else [Render(blocks[0])] + RenderAll(blocks[1..])
  }

  function AllLines(blocks: seq<Block>): seq<string> {
    if blocks == [] then [] else blocks[0].lines + AllLines(blocks[1..])
  }

  /** The `in_pre` flag after one more line. */
  function PreAfter(inPre: bool, line: string): bool {
    if !inPre && Contains(line, OPEN) then true
    else if inPre && Contains(line, CLOSE) && !Contains(line, OPEN) then false
    else inPre
  }

  /** Whether `line` no longer fits behind the lines collected so far. */
  predicate Overflows(cur: seq<string>, opens: bool, line: string, max: int) {
    cur != [] && |Opening(opens) + Join(cur + [line])| > max
  }

  /** Whether the end of the text, reached with the lines `cur` collected, needs a closing tag. */
  predicate NeedsClosing(cur: seq<string>, opens: bool, inPre: bool)
    requires cur != []
  {
    inPre && !EndsWith((if |cur| == 1 then Opening(opens) else "") + cur[|cur| - 1], CLOSE)
  }

  /** The blocks of the lines `rest`, given the lines `cur` collected for the current block. */
  function Blocks(rest: seq<string>, cur: seq<string>, opens: bool, inPre: bool, max: int): seq<Block>
    decreases |rest|
  {
    if rest == [] then
      if cur == [] then []
      else [Block(cur, opens, NeedsClosing(cur, opens, inPre))]
    else if Overflows(cur, opens, rest[0], max) then
      [Block(cur, opens, inPre)]
      + Blocks(rest[1..], [rest[0]], inPre, PreAfter(inPre, Opening(inPre) + rest[0]), max)
    else
      Blocks(rest[1..], cur + [rest[0]], opens, PreAfter(inPre, rest[0]), max)
  }

  function BlocksOf(text: string, max: int): seq<Block> {
    Blocks(Split(text), [], false, false, max)
  }

  // ----- Lines and joins -----

  lemma {:induction false} JoinSnoc(lines: seq<string>, line: string)
    ensures Join(lines + [line]) == if lines == [] then line else Join(lines) + "\n" + line
  {
    if |lines| <= 1 {
      if |lines| == 1 {
        assert (lines + [line])[1..] == [line] && Join([line]) == line;
        assert Join(lines + [line]) == (lines + [line])[0] + "\n" + Join([line]);
      }
    } else {
      JoinSnoc(lines[1..], line);
      assert (lines + [line])[1..] == lines[1..] + [line];
    }
  }

  lemma {:induction false} JoinConcat(a: seq<string>, b: seq<string>)
    requires a != [] && b != []
    ensures Join(a + b) == Join(a) + "\n" + Join(b)
  {
    if |a| == 1 {
      assert (a + b)[1..] == b;
    } else {
      JoinConcat(a[1..], b);
      assert (a + b)[1..] == a[1..] + b;
    }
  }

  // ----- What the blocks are -----

  /** The blocks cover all lines, each line once and in order, and none of them is empty. */
  lemma {:induction false} BlocksPartition(rest: seq<string>, cur: seq<string>, opens: bool, inPre: bool, max: int)
    ensures var blocks := Blocks(rest, cur, opens, inPre, max);
            && AllLines(blocks) == cur + rest
            && (forall b :: b in blocks ==> b.lines != [])
            && (cur + rest != [] ==> blocks != [])
    decreases |rest|
  {
    if rest == [] {
    } else if Overflows(cur, opens, rest[0], max) {
      BlocksPartition(rest[1..], [rest[0]], inPre, PreAfter(inPre, Opening(inPre) + rest[0]), max);
      assert [rest[0]] + rest[1..] == rest;
    } else {
      BlocksPartition(rest[1..], cur + [rest[0]], opens, PreAfter(inPre, rest[0]), max);
      assert cur + [rest[0]] + rest[1..] == cur + rest;
    }
  }

  /** The first block continues the current one. */
  lemma {:induction false} FirstBlock(rest: seq<string>, cur: seq<string>, opens: bool, inPre: bool, max: int)
    requires cur != []
    ensures var blocks := Blocks(rest, cur, opens, inPre, max);
            blocks != [] && blocks[0].opens == opens && cur <= blocks[0].lines
    decreases |rest|
  {
    if rest == [] {
    } else if Overflows(cur, opens, rest[0], max) {
    } else {
      FirstBlock(rest[1..], cur + [rest[0]], opens, PreAfter(inPre, rest[0]), max);
    }
  }

  /** Between two neighbours: a tag closed at the end of one is opened again in the next, and the
      next begins only because its first line would not have fitted. */
  ghost predicate SplitsWell(b: Block, next: Block, max: int) {
    && b.lines != [] && next.lines != []
    && next.opens == b.closes
    && |Opening(b.opens) + Join(b.lines + [next.lines[0]])| > max
  }

  ghost predicate AllSplitWell(blocks: seq<Block>, max: int) {
    forall i, k :: 0 <= i && k == i + 1 < |blocks| ==> SplitsWell(blocks[i], blocks[k], max)
  }

  lemma {:induction false} BlocksSplitWell(rest: seq<string>, cur: seq<string>, opens: bool, inPre: bool, max: int)
    ensures AllSplitWell(Blocks(rest, cur, opens, inPre, max), max)
    decreases |rest|
  {
    if rest == [] {
    } else if Overflows(cur, opens, rest[0], max) {
      var inPre' := PreAfter(inPre, Opening(inPre) + rest[0]);
      var later := Blocks(rest[1..], [rest[0]], inPre, inPre', max);
      FirstBlock(rest[1..], [rest[0]], inPre, inPre', max);
      BlocksSplitWell(rest[1..], [rest[0]], inPre, inPre', max);
      BlocksPartition(rest[1..], [rest[0]], inPre, inPre', max);
      assert later[0].lines[0] == rest[0];
      assert SplitsWell(Block(cur, opens, inPre), later[0], max);
      assert AllSplitWell([Block(cur, opens, inPre)] + later, max);
    } else {
      BlocksSplitWell(rest[1..], cur + [rest[0]], opens, PreAfter(inPre, rest[0]), max);
    }
  }

  /** A block exceeds the limit by no more than the tags added to it. */
  ghost predicate Fits(b: Block, max: int) {
    |Render(b)| <= max + |Opening(b.opens)| + |Closing(b.closes)|
  }

  lemma {:induction false} BlocksFit(rest: seq<string>, cur: seq<string>, opens: bool, inPre: bool, max: int)
    requires forall i :: 0 <= i < |rest| ==> |rest[i]| <= max
    requires cur != [] ==> |Opening(opens) + Join(cur)| <= max + |Opening(opens)|
    ensures forall b :: b in Blocks(rest, cur, opens, inPre, max) ==> Fits(b, max)
    decreases |rest|
  {
    if rest == [] {
    } else if Overflows(cur, opens, rest[0], max) {
      BlocksFit(rest[1..], [rest[0]], inPre, PreAfter(inPre, Opening(inPre) + rest[0]), max);
      assert Fits(Block(cur, opens, inPre), max);
    } else {
      if cur == [] {
        assert cur + [rest[0]] == [rest[0]];
      }
      BlocksFit(rest[1..], cur + [rest[0]], opens, PreAfter(inPre, rest[0]), max);
    }
  }

  /** Without `<pre>` in the text no tag is ever added. */
  lemma {:induction false} NoTags(rest: seq<string>, cur: seq<string>, max: int)
    requires forall line :: line in rest ==> !Contains(line, OPEN)
    ensures forall b :: b in Blocks(rest, cur, false, false, max) ==> !b.opens && !b.closes
    decreases |rest|
  {
    if rest == [] {
    } else {
      assert Opening(false) + rest[0] == rest[0];
      assert rest[0] in rest;
      assert !PreAfter(false, rest[0]);
      if Overflows(cur, false, rest[0], max) {
        NoTags(rest[1..], [rest[0]], max);
      } else {
        NoTags(rest[1..], cur + [rest[0]], max);
      }
    }
  }

  lemma {:induction false} JoinPlainBlocks(blocks: seq<Block>)
    requires forall b :: b in blocks ==> b.lines != [] && !b.opens && !b.closes
    ensures Join(RenderAll(blocks)) == Join(AllLines(blocks))
    ensures |RenderAll(blocks)| == |blocks|
  {
    if blocks == [] {
    } else {
      JoinPlainBlocks(blocks[1..]);
      var b, tail := blocks[0], blocks[1..];
      assert Render(b) == Join(b.lines);
      assert RenderAll(blocks)[1..] == RenderAll(tail);
      if tail == [] {
        assert AllLines(blocks) == b.lines;
      } else {
        assert AllLines(tail) != [];
        JoinConcat(b.lines, AllLines(tail));
      }
    }
  }

  lemma {:induction false} RenderAllAt(blocks: seq<Block>)
    ensures |RenderAll(blocks)| == |blocks|
    ensures forall i :: 0 <= i < |blocks| ==> RenderAll(blocks)[i] == Render(blocks[i])
  {
    if blocks == [] {
    } else {
      RenderAllAt(blocks[1..]);
    }
  }

  // ----- Main results -----

  /** Chunking partitions the text: the chunks are the rendered blocks, the blocks are non-empty
      runs of lines, and their lines joined give the text back.  Splits are forced, and a tag
      closed by a split is opened again right after it; the first block is never opened. */
  lemma ChunksPartitionText(text: string, max: int)
    ensures var blocks := BlocksOf(text, max);
            && blocks != [] && !blocks[0].opens
            && AllLines(blocks) == Split(text) && Join(AllLines(blocks)) == text
            && (forall b :: b in blocks ==> b.lines != [])
            && AllSplitWell(blocks, max)
  {
    var lines := Split(text);
    JoinSplit(text, '\n');
    BlocksPartition(lines, [], false, false, max);
    BlocksSplitWell(lines, [], false, false, max);
    assert [] + lines == lines;
    assert Blocks(lines, [], false, false, max) == Blocks(lines[1..], [] + [lines[0]], false, PreAfter(false, lines[0]), max);
    FirstBlock(lines[1..], [] + [lines[0]], false, PreAfter(false, lines[0]), max);
  }

  /** If every line is within the limit, every chunk is within the limit plus the two tags. */
  lemma ChunksAreBounded(text: string, max: int)
    requires forall line :: line in Split(text) ==> |line| <= max
    ensures forall chunk :: chunk in RenderAll(BlocksOf(text, max)) ==> |chunk| <= max + 11
  {
    var blocks := BlocksOf(text, max);
    BlocksFit(Split(text), [], false, false, max);
    RenderAllAt(blocks);
    forall i | 0 <= i < |blocks| ensures |RenderAll(blocks)[i]| <= max + 11 {
      assert blocks[i] in blocks && Fits(blocks[i], max);
    }
  }

  /** A tag inside a line stands in the text too. */
  lemma LineTagIsInText(text: string, k: nat, tag: string)
    requires k < |Split(text)| && Contains(Split(text)[k], tag)
    ensures Contains(text, tag)
  {
    var line := Split(text)[k];
    var off := PartIsInText(text, '\n', k);
    assert text == text[..off] + line + text[off + |line|..];
    ContainsWithin(text[..off], line, text[off + |line|..], tag);
  }

  lemma ContainsWithin(before: string, s: string, after: string, part: string)
    requires Contains(s, part)
    ensures Contains(before + s + after, part)
  {
    var i: nat :| i <= |s| && OccursAt(s, part, i);
    var whole := before + s + after;
    var k := |before| + i;
    assert whole[k..k + |part|] == s[i..i + |part|];
    assert OccursAt(whole, part, k);
  }

  lemma ContainsItself(s: string)
    ensures Contains(s, s)
  {
    assert OccursAt(s, s, 0);
  }

  /** A line stands whole in the text of its block. */
  lemma {:induction false} LineWithinJoin(lines: seq<string>, k: nat)
    requires k < |lines|
    ensures Contains(Join(lines), lines[k])
  {
    ContainsItself(lines[k]);
    if |lines| == 1 {
    } else if k == 0 {
      ContainsWithin("", lines[0], "\n" + Join(lines[1..]), lines[0]);
      assert Join(lines) == "" + lines[0] + ("\n" + Join(lines[1..]));
    } else {
      LineWithinJoin(lines[1..], k - 1);
      ContainsWithin(lines[0] + "\n", Join(lines[1..]), "", lines[k]);
      assert Join(lines) == lines[0] + "\n" + Join(lines[1..]) + "";
    }
  }

  lemma {:induction false} LineInBlock(blocks: seq<Block>, line: string) returns (i: nat, k: nat)
    requires line in AllLines(blocks)
    ensures i < |blocks| && k < |blocks[i].lines| && blocks[i].lines[k] == line
  {
    if line in blocks[0].lines {
      i := 0;
      k :| k < |blocks[0].lines| && blocks[0].lines[k] == line;
    } else {
      var m, n := LineInBlock(blocks[1..], line);
      i, k := m + 1, n;
    }
  }

  /** No line is ever cut: each stands whole in some chunk; so no limit can hold that a line
      exceeds. */
  lemma LinesStayWhole(text: string, max: int, line: string) returns (chunk: string)
    requires line in Split(text)
    ensures chunk in RenderAll(BlocksOf(text, max)) && Contains(chunk, line) && |line| <= |chunk|
  {
    var blocks := BlocksOf(text, max);
    BlocksPartition(Split(text), [], false, false, max);
    assert [] + Split(text) == Split(text);
    var i, k := LineInBlock(blocks, line);
    var b := blocks[i];
    LineWithinJoin(b.lines, k);
    ContainsWithin(Opening(b.opens), Join(b.lines), Closing(b.closes), line);
    RenderAllAt(blocks);
    chunk := RenderAll(blocks)[i];
  }

  // ----- When nothing is added, and when the limit holds -----

  /** Cutting the lines greedily, no cut finds the flag up, and the end needs no closing tag. */
  predicate Undisturbed(rest: seq<string>, cur: seq<string>, inPre: bool, max: int)
    decreases |rest|
  {
    if rest == [] then cur == [] || !NeedsClosing(cur, false, inPre)
    else if Overflows(cur, false, rest[0], max) then
      !inPre && Undisturbed(rest[1..], [rest[0]], PreAfter(false, rest[0]), max)
    else Undisturbed(rest[1..], cur + [rest[0]], PreAfter(inPre, rest[0]), max)
  }

  predicate Untagged(blocks: seq<Block>) {
    forall b :: b in blocks ==> !b.opens && !b.closes
  }

  lemma {:induction false} UndisturbedIsUntagged(rest: seq<string>, cur: seq<string>, inPre: bool, max: int)
    ensures Undisturbed(rest, cur, inPre, max) <==> Untagged(Blocks(rest, cur, false, inPre, max))
    decreases |rest|
  {
    if rest == [] {
    } else if Overflows(cur, false, rest[0], max) {
      var b := Block(cur, false, inPre);
      assert b in Blocks(rest, cur, false, inPre, max);
      if !inPre {
        assert Opening(inPre) + rest[0] == rest[0];
        UndisturbedIsUntagged(rest[1..], [rest[0]], PreAfter(false, rest[0]), max);
        var later := Blocks(rest[1..], [rest[0]], false, PreAfter(false, rest[0]), max);
        assert Blocks(rest, cur, false, inPre, max) == [b] + later;
        assert forall x :: x in [b] + later <==> x == b || x in later;
      }
    } else {
      UndisturbedIsUntagged(rest[1..], cur + [rest[0]], PreAfter(inPre, rest[0]), max);
    }
  }

  /** The characters that the tags add to the text. */
  function TagLength(blocks: seq<Block>): nat {
    if blocks == [] then 0
    else |Opening(blocks[0].opens)| + |Closing(blocks[0].closes)| + TagLength(blocks[1..])
  }

  lemma {:induction false} TagLengthZero(blocks: seq<Block>)
    ensures TagLength(blocks) == 0 <==> Untagged(blocks)
  {
    if blocks == [] {
    } else {
      TagLengthZero(blocks[1..]);
      assert blocks[0] in blocks;
      assert forall b :: b in blocks <==> b == blocks[0] || b in blocks[1..];
    }
  }

  lemma {:induction false} RenderedLength(blocks: seq<Block>)
    requires forall b :: b in blocks ==> b.lines != []
    ensures |Join(RenderAll(blocks))| == |Join(AllLines(blocks))| + TagLength(blocks)
  {
    if blocks == [] {
    } else {
      RenderedLength(blocks[1..]);
      var b, tail := blocks[0], blocks[1..];
      RenderAllAt(tail);
      assert b in blocks;
      assert RenderAll(blocks)[1..] == RenderAll(tail);
      if tail == [] {
        assert AllLines(blocks) == b.lines;
      } else {
        assert tail[0] in blocks && AllLines(tail) != [];
        JoinConcat(b.lines, AllLines(tail));
      }
    }
  }

  /** Joining the chunks gives the text back exactly if the greedy cuts never find the flag up and
      the end needs no closing tag: for every text, with blocks in it or without. */
  lemma RecoveredIffUndisturbed(text: string, max: int)
    ensures Join(RenderAll(BlocksOf(text, max))) == text <==> Undisturbed(Split(text), [], false, max)
  {
    var blocks := BlocksOf(text, max);
    ChunksPartitionText(text, max);
    UndisturbedIsUntagged(Split(text), [], false, max);
    TagLengthZero(blocks);
    RenderedLength(blocks);
    if Undisturbed(Split(text), [], false, max) {
      JoinPlainBlocks(blocks);
    }
  }

  /** And then the chunks are within the limit if and only if the lines are. */
  lemma UndisturbedFits(text: string, max: int)
    requires Undisturbed(Split(text), [], false, max)
    ensures (forall line :: line in Split(text) ==> |line| <= max) <==>
              forall chunk :: chunk in RenderAll(BlocksOf(text, max)) ==> |chunk| <= max
  {
    var blocks := BlocksOf(text, max);
    UndisturbedIsUntagged(Split(text), [], false, max);
    if forall line :: line in Split(text) ==> |line| <= max {
      BlocksFit(Split(text), [], false, false, max);
      RenderAllAt(blocks);
      forall i | 0 <= i < |blocks| ensures |RenderAll(blocks)[i]| <= max {
        assert blocks[i] in blocks && Fits(blocks[i], max);
      }
    } else {
      var line :| line in Split(text) && |line| > max;
      var chunk := LinesStayWhole(text, max, line);
    }
  }

  /** The room that the chunks need.  A line that begins a chunk must fit, with five characters to
      spare if it is opened after a cut that found the flag up; and where a closing tag is added,
      at such a cut or at the end, the text collected must leave six. */
  predicate HasRoom(rest: seq<string>, cur: seq<string>, opens: bool, inPre: bool, max: int)
    decreases |rest|
  {
    if rest == [] then
      cur != [] && NeedsClosing(cur, opens, inPre) ==> |Opening(opens) + Join(cur)| <= max - 6
    else if Overflows(cur, opens, rest[0], max) then
      && (inPre ==> |Opening(opens) + Join(cur)| <= max - 6)
      && |rest[0]| <= (if inPre then max - 5 else max)
      && HasRoom(rest[1..], [rest[0]], inPre, PreAfter(inPre, Opening(inPre) + rest[0]), max)
    else
      && (cur == [] ==> |rest[0]| <= (if opens then max - 5 else max))
      && HasRoom(rest[1..], cur + [rest[0]], opens, PreAfter(inPre, rest[0]), max)
  }

  predicate AllFit(blocks: seq<Block>, max: int) {
    forall b :: b in blocks ==> |Render(b)| <= max
  }

  lemma FitCons(b: Block, later: seq<Block>, max: int)
    ensures AllFit([b] + later, max) <==> |Render(b)| <= max && AllFit(later, max)
  {
    assert forall x :: x in [b] + later <==> x == b || x in later;
  }

  /** A first line that leaves no room makes the first block too long. */
  lemma FirstTooLong(rest: seq<string>, line: string, opens: bool, inPre: bool, max: int)
    requires |Opening(opens)| + |line| > max
    ensures !AllFit(Blocks(rest, [line], opens, inPre, max), max)
  {
    var blocks := Blocks(rest, [line], opens, inPre, max);
    FirstBlock(rest, [line], opens, inPre, max);
    assert blocks[0].lines[0] == [line][0];
    FirstWithinJoin(blocks[0].lines);
    assert blocks[0] in blocks;
  }

  lemma FirstWithinJoin(lines: seq<string>)
    requires lines != []
    ensures |lines[0]| <= |Join(lines)|
  {
  }

  lemma {:induction false} RoomIsFit(rest: seq<string>, cur: seq<string>, opens: bool, inPre: bool, max: int)
    requires cur != [] ==> |Opening(opens) + Join(cur)| <= max
    ensures HasRoom(rest, cur, opens, inPre, max) <==> AllFit(Blocks(rest, cur, opens, inPre, max), max)
    decreases |rest|
  {
    if rest == [] {
      if cur != [] {
        var b := Block(cur, opens, NeedsClosing(cur, opens, inPre));
        assert Blocks(rest, cur, opens, inPre, max) == [b] + [];
        FitCons(b, [], max);
        assert |Render(b)| == |Opening(opens) + Join(cur)| + |Closing(b.closes)|;
      }
    } else if Overflows(cur, opens, rest[0], max) {
      var b, inPre' := Block(cur, opens, inPre), PreAfter(inPre, Opening(inPre) + rest[0]);
      var later := Blocks(rest[1..], [rest[0]], inPre, inPre', max);
      assert Blocks(rest, cur, opens, inPre, max) == [b] + later;
      FitCons(b, later, max);
      assert |Render(b)| == |Opening(opens) + Join(cur)| + |Closing(inPre)|;
      if |Opening(inPre)| + |rest[0]| > max {
        FirstTooLong(rest[1..], rest[0], inPre, inPre', max);
      } else {
        RoomIsFit(rest[1..], [rest[0]], inPre, inPre', max);
      }
    } else if cur == [] && |Opening(opens)| + |rest[0]| > max {
      assert cur + [rest[0]] == [rest[0]];
      FirstTooLong(rest[1..], rest[0], opens, PreAfter(inPre, rest[0]), max);
    } else {
      if cur == [] {
        assert cur + [rest[0]] == [rest[0]];
      }
      RoomIsFit(rest[1..], cur + [rest[0]], opens, PreAfter(inPre, rest[0]), max);
    }
  }

  /** The promised limit holds exactly when there is that room: for every text and every limit. */
  lemma LimitHoldsIffRoom(text: string, max: int)
    ensures (forall chunk :: chunk in RenderAll(BlocksOf(text, max)) ==> |chunk| <= max) <==>
              HasRoom(Split(text), [], false, false, max)
  {
    var blocks := BlocksOf(text, max);
    RoomIsFit(Split(text), [], false, false, max);
    RenderAllAt(blocks);
    if forall chunk :: chunk in RenderAll(blocks) ==> |chunk| <= max {
      forall b | b in blocks ensures |Render(b)| <= max {
        var i :| 0 <= i < |blocks| && blocks[i] == b;
        assert RenderAll(blocks)[i] in RenderAll(blocks);
      }
    }
  }

  lemma {:induction false} NoTagUndisturbed(rest: seq<string>, cur: seq<string>, max: int)
    requires forall line :: line in rest ==> !Contains(line, OPEN)
    ensures Undisturbed(rest, cur, false, max)
  {
    NoTags(rest, cur, max);
    UndisturbedIsUntagged(rest, cur, false, max);
  }

  /** In particular, text without `<pre>` is recovered exactly by joining the chunks, and every
      chunk is within the limit if and only if every line is. */
  lemma PlainTextSurvives(text: string, max: int)
    requires !Contains(text, "<pre>")
    ensures Join(RenderAll(BlocksOf(text, max))) == text
    ensures (forall line :: line in Split(text) ==> |line| <= max) <==>
              forall chunk :: chunk in RenderAll(BlocksOf(text, max)) ==> |chunk| <= max
  {
    forall line | line in Split(text) ensures !Contains(line, OPEN) {
      var k: nat :| k < |Split(text)| && Split(text)[k] == line;
      if Contains(line, OPEN) {
        LineTagIsInText(text, k, OPEN);
      }
    }
    NoTagUndisturbed(Split(text), [], max);
    RecoveredIffUndisturbed(text, max);
    UndisturbedFits(text, max);
  }

  /** The `in_pre` flag after these lines, when no split comes between them. */
  function FlagAfter(lines: seq<string>): bool {
    if lines == [] then false else PreAfter(FlagAfter(lines[..|lines| - 1]), lines[|lines| - 1])
  }

  /** The flag is up iff some line holds the opening tag and no later one holds the closing tag alone. */
  lemma {:induction false} FlagIff(lines: seq<string>)
    ensures FlagAfter(lines) <==>
              exists i :: 0 <= i < |lines| && Contains(lines[i], "<pre>")
                          && forall k :: i < k < |lines| ==> Contains(lines[k], "</pre>") ==> Contains(lines[k], "<pre>")
  {
    if lines != [] {
      var n := |lines| - 1;
      var front, last := lines[..n], lines[n];
      FlagIff(front);
      if Contains(last, "<pre>") {
        assert Contains(lines[n], "<pre>");
      } else if i :| 0 <= i < n && Contains(front[i], "<pre>")
                     && forall k :: i < k < n ==> Contains(front[k], "</pre>") ==> Contains(front[k], "<pre>") {
        assert lines[i] == front[i];
        if !Contains(last, "</pre>") {
          assert forall k :: i < k < |lines| ==> Contains(lines[k], "</pre>") ==> Contains(lines[k], "<pre>");
        }
      }
      if i :| 0 <= i < |lines| && Contains(lines[i], "<pre>")
              && forall k :: i < k < |lines| ==> Contains(lines[k], "</pre>") ==> Contains(lines[k], "<pre>") {
        FlagStays(lines, i);
      }
    }
  }

  lemma {:induction false} FlagStays(lines: seq<string>, i: nat)
    requires i < |lines| && Contains(lines[i], "<pre>")
    requires forall k :: i < k < |lines| ==> Contains(lines[k], "</pre>") ==> Contains(lines[k], "<pre>")
    ensures FlagAfter(lines)
  {
    var n := |lines| - 1;
    if i < n {
      assert lines[..n][i] == lines[i];
      FlagStays(lines[..n], i);
    }
  }

  lemma {:induction false} NoSplit(lines: seq<string>, i: nat, max: int)
    requires i <= |lines| && |Join(lines)| <= max && lines != []
    ensures Blocks(lines[i..], lines[..i], false, FlagAfter(lines[..i]), max)
         == [Block(lines, false, FlagAfter(lines) && !EndsWith(lines[|lines| - 1], CLOSE))]
    decreases |lines| - i
  {
    if i == |lines| {
      assert lines[..i] == lines;
      assert Opening(false) + lines[|lines| - 1] == lines[|lines| - 1];
    } else {
      var cur := lines[..i];
      assert lines[..i + 1] == cur + [lines[i]] && lines[..i + 1][..i] == cur;
      assert lines[i..][0] == lines[i] && lines[i..][1..] == lines[i + 1..];
      PrefixWithinJoin(lines, i + 1);
      assert !Overflows(cur, false, lines[i], max);
      NoSplit(lines, i + 1, max);
    }
  }

  lemma PrefixWithinJoin(lines: seq<string>, i: nat)
    requires 0 < i <= |lines|
    ensures |Join(lines[..i])| <= |Join(lines)|
  {
    if i == |lines| {
      assert lines[..i] == lines;
    } else {
      assert lines == lines[..i] + lines[i..];
      JoinConcat(lines[..i], lines[i..]);
    }
  }

  lemma RenderOne(lines: seq<string>, closes: bool)
    ensures RenderAll([Block(lines, false, closes)]) == [Join(lines) + Closing(closes)]
  {
    assert Opening(false) + Join(lines) == Join(lines);
  }

  lemma ClosingShows(text: string, closes: bool)
    ensures text + Closing(closes) == text <==> !closes
  {
    assert |text + CLOSE| == |text| + 6;
  }

  /** Text within the limit becomes one chunk.  The chunk is the text itself if and only if the
      flag ends low or the last line ends with the closing tag; otherwise a closing tag is
      appended. */
  lemma ShortText(text: string, max: int)
    requires |text| <= max
    ensures var lines := Split(text);
            var added := FlagAfter(lines) && !EndsWith(lines[|lines| - 1], CLOSE);
            && RenderAll(BlocksOf(text, max)) == [text + Closing(added)]
            && (text + Closing(added) == text <==> !added)
  {
    var lines := Split(text);
    var added := FlagAfter(lines) && !EndsWith(lines[|lines| - 1], CLOSE);
    JoinSplit(text, '\n');
    assert lines[0..] == lines && lines[..0] == [];
    NoSplit(lines, 0, max);
    RenderOne(lines, added);
    ClosingShows(text, added);
  }

  lemma FlagAfterTwo(first: string, second: string)
    ensures FlagAfter([first, second]) == PreAfter(PreAfter(false, first), second)
  {
    var one, two := [first], [first, second];
    assert one[..0] == [] && two[..1] == one;
    assert FlagAfter(one) == PreAfter(FlagAfter([]), first);
    assert FlagAfter(two) == PreAfter(FlagAfter(one), second);
  }

  lemma SuffixOccurs(s: string, part: string)
    requires EndsWith(s, part)
    ensures Contains(s, part)
  {
    assert OccursAt(s, part, |s| - |part|);
  }

  /** So tags are not always balanced: a block on one line leaves the flag up, and text that was
      balanced gets a second closing tag even though nothing was split. */
  lemma OneLineBlockUnbalances(code: string, tail: string, max: int)
    requires '\n' !in code && '\n' !in tail && !Contains(tail, CLOSE)
    requires |OPEN + code + CLOSE + "\n" + tail| <= max
    ensures var text := OPEN + code + CLOSE + "\n" + tail; RenderAll(BlocksOf(text, max)) == [text + CLOSE]
  {
    var first, text := OPEN + code + CLOSE, OPEN + code + CLOSE + "\n" + tail;
    SplitOne(tail, '\n');
    SplitFirst(first, '\n', tail);
    assert Split(text) == [first, tail];
    assert OccursAt(first, OPEN, 0);
    FlagAfterTwo(first, tail);
    if EndsWith(tail, CLOSE) {
      SuffixOccurs(tail, CLOSE);
    }
    ShortText(text, max);
  }

  /** Behind an opening tag alone on its line, a line that fills the limit is a block of its own,
      with a tag added at both ends. */
  lemma FullLineBlocks(line: string, max: int)
    requires |line| == max >= 5
    ensures var blocks := Blocks([OPEN, line, "x"], [], false, false, max);
            |blocks| > 1 && blocks[1] == Block([line], true, true)
  {
    var lines := [OPEN, line, "x"];
    assert OccursAt(OPEN, OPEN, 0) && OccursAt(OPEN + line, OPEN, 0);
    assert lines[1..] == [line, "x"] && lines[1..][1..] == ["x"];
    assert [] + [OPEN] == [OPEN];
    assert Blocks(lines, [], false, false, max) == Blocks([line, "x"], [OPEN], false, true, max);
    JoinSnoc([OPEN], line);
    JoinSnoc([line], "x");
  }

  /** And the limit is not always kept: at every limit from five on, a text all of whose lines are
      within the limit has a chunk that exceeds it by both tags. */
  lemma BoundIsReached(line: string)
    requires |line| >= 5 && '\n' !in line
    ensures var max, text := |line|, "<pre>\n" + line + "\nx";
            && (forall l :: l in Split(text) ==> |l| <= max)
            && "<pre>" + line + "</pre>" in RenderAll(BlocksOf(text, max))
            && |"<pre>" + line + "</pre>"| == max + 11
  {
    var max, text := |line|, OPEN + "\n" + line + "\nx";
    assert OPEN + "\n" == "<pre>\n";
    SplitOne("x", '\n');
    SplitFirst(line, '\n', "x");
    SplitFirst(OPEN, '\n', line + "\n" + "x");
    assert text == OPEN + "\n" + (line + "\n" + "x");
    assert Split(text) == [OPEN, line, "x"];
    FullLineBlocks(line, max);
    var blocks := BlocksOf(text, max);
    RenderAllAt(blocks);
    assert RenderAll(blocks)[1] == OPEN + line + CLOSE;
  }

  // ----- The loop -----

  /** The collected lines as the code keeps them, with the opening tag already in place. */
  function Kept(cur: seq<string>, opens: bool): seq<string> {
    if cur == [] then [] else [Opening(opens) + cur[0]] + cur[1..]
  }

  lemma JoinKept(cur: seq<string>, opens: bool)
    requires cur != []
    ensures Join(Kept(cur, opens)) == Opening(opens) + Join(cur)
  {
    if |cur| > 1 {
      assert Kept(cur, opens)[1..] == cur[1..];
      assert Join(cur) == cur[0] + "\n" + Join(cur[1..]);
    }
  }

  lemma JoinTail(front: seq<string>, last: string, tail: string)
    ensures Join(front + [last + tail]) == Join(front + [last]) + tail
  {
    JoinSnoc(front, last);
    JoinSnoc(front, last + tail);
    ConcatAssociates(Join(front) + "\n", last, tail);
  }

  /** Appending to the last line appends to the joined text. */
  lemma JoinLast(lines: seq<string>, tail: string)
    requires lines != []
    ensures Join(lines[|lines| - 1 := lines[|lines| - 1] + tail]) == Join(lines) + tail
  {
    var n := |lines| - 1;
    assert lines[n := lines[n] + tail] == lines[..n] + [lines[n] + tail];
    assert lines == lines[..n] + [lines[n]];
    JoinTail(lines[..n], lines[n], tail);
  }

  lemma KeptFits(cur: seq<string>, opens: bool, line: string, max: int)
    ensures (cur != [] && |Join(Kept(cur, opens) + [line])| > max) == Overflows(cur, opens, line, max)
    ensures cur != [] ==> Kept(cur, opens) + [line] == Kept(cur + [line], opens)
  {
    if cur != [] {
      assert Kept(cur, opens) + [line] == Kept(cur + [line], opens);
      JoinKept(cur + [line], opens);
    }
  }

  /** One more line, on the side of the specification: it ends the current block or joins it. */
  lemma TakeLine(done: seq<string>, lines: seq<string>, i: nat, cur: seq<string>, opens: bool, inPre: bool, max: int)
    requires i < |lines|
    ensures done + RenderAll(Blocks(lines[i..], cur, opens, inPre, max))
         == if Overflows(cur, opens, lines[i], max) then
              (done + [Render(Block(cur, opens, inPre))])
              + RenderAll(Blocks(lines[i + 1..], [lines[i]], inPre, PreAfter(inPre, Opening(inPre) + lines[i]), max))
            else done + RenderAll(Blocks(lines[i + 1..], cur + [lines[i]], opens, PreAfter(inPre, lines[i]), max))
  {
    var rest := lines[i..];
    assert rest[0] == lines[i] && rest[1..] == lines[i + 1..];
    if Overflows(cur, opens, lines[i], max) {
      var b := Block(cur, opens, inPre);
      var later := Blocks(lines[i + 1..], [lines[i]], inPre, PreAfter(inPre, Opening(inPre) + lines[i]), max);
      assert Blocks(rest, cur, opens, inPre, max) == [b] + later;
      assert ([b] + later)[1..] == later;
      assert done + ([Render(b)] + RenderAll(later)) == (done + [Render(b)]) + RenderAll(later);
    }
  }

  /** The text of a finished block, as the code joins it. */
  lemma JoinBlock(cur: seq<string>, opens: bool, closes: bool)
    requires cur != []
    ensures var kept := Kept(cur, opens);
            Join(if closes then kept[|kept| - 1 := kept[|kept| - 1] + CLOSE] else kept) == Render(Block(cur, opens, closes))
  {
    JoinKept(cur, opens);
    JoinLast(Kept(cur, opens), CLOSE);
  }

  lemma KeptOne(line: string, opens: bool)
    ensures Kept([line], opens) == [Opening(opens) + line]
  {
  }

  /** The body of the loop: the line ends the current block or joins it. */
  method AddLine(cur: seq<string>, inPre: bool, line: string, max: int, ghost own: seq<string>, ghost opens: bool)
    returns (emitted: seq<string>, cur': seq<string>, inPre': bool)
    requires cur == Kept(own, opens) && (own == [] ==> !opens)
    ensures if Overflows(own, opens, line, max) then
              && emitted == [Render(Block(own, opens, inPre))]
              && cur' == Kept([line], inPre) && inPre' == PreAfter(inPre, Opening(inPre) + line)
            else emitted == [] && cur' == Kept(own + [line], opens) && inPre' == PreAfter(inPre, line)
  {
    KeptFits(own, opens, line, max);
    emitted, cur' := [], cur;
    var text := line;
    if cur != [] && |Join(cur + [line])| > max {
      JoinBlock(own, opens, inPre);
      KeptOne(line, inPre);
      if inPre {
        cur' := cur'[|cur'| - 1 := cur'[|cur'| - 1] + CLOSE];
        emitted := [Join(cur')];
        text := OPEN + line;
      } else {
        emitted := [Join(cur')];
        assert Opening(inPre) + line == line;
      }
      cur' := [];
    } else if own == [] {
      KeptOne(line, opens);
      assert own + [line] == [line] && Opening(opens) + line == line;
    }
    inPre' := PreAfter(inPre, text);
    cur' := cur' + [text];
  }

  lemma LastBlock(own: seq<string>, opens: bool, inPre: bool, closes: bool, max: int)
    requires own != [] && closes == (inPre && !EndsWith(Kept(own, opens)[|own| - 1], CLOSE))
    ensures RenderAll(Blocks([], own, opens, inPre, max)) == [Render(Block(own, opens, closes))]
  {
    assert Opening(false) + own[|own| - 1] == own[|own| - 1];
    assert Blocks([], own, opens, inPre, max) == [Block(own, opens, closes)];
  }

  /** What is left after the last line. */
  function Flush(cur: seq<string>, inPre: bool, ghost own: seq<string>, ghost opens: bool, ghost max: int): (last: seq<string>)
    requires cur == Kept(own, opens) && own != []
    ensures last == RenderAll(Blocks([], own, opens, inPre, max)) && last != []
  {
    var closes := inPre && !EndsWith(cur[|cur| - 1], CLOSE);
    JoinBlock(own, opens, closes);
    LastBlock(own, opens, inPre, closes, max);
    [Join(if closes then cur[|cur| - 1 := cur[|cur| - 1] + CLOSE] else cur)]
  }

  /** Turning the contract of `AddLine` into the next state of the specification. */
  lemma AddedLine(done: seq<string>, emitted: seq<string>, lines: seq<string>, i: nat, own: seq<string>, opens: bool,
                  inPre: bool, inPre': bool, max: int)
    requires i < |lines|
    requires if Overflows(own, opens, lines[i], max) then
               emitted == [Render(Block(own, opens, inPre))] && inPre' == PreAfter(inPre, Opening(inPre) + lines[i])
             else emitted == [] && inPre' == PreAfter(inPre, lines[i])
    ensures var splits := Overflows(own, opens, lines[i], max);
            var own', opens' := if splits then [lines[i]] else own + [lines[i]], if splits then inPre else opens;
            (done + emitted) + RenderAll(Blocks(lines[i + 1..], own', opens', inPre', max))
            == done + RenderAll(Blocks(lines[i..], own, opens, inPre, max))
  {
    TakeLine(done, lines, i, own, opens, inPre, max);
    if !Overflows(own, opens, lines[i], max) {
      assert done + emitted == done;
    }
  }

  /** `chunk_html`. */
  method ChunkText(text: string, max: int) returns (chunks: seq<string>)
    ensures chunks == RenderAll(BlocksOf(text, max)) && chunks != []
  {
    chunks := ChunkLines(Split(text), max);
    if chunks == [] {
      chunks := [text];
    }
  }

  /** The loop below before line `i`. */
  ghost predicate ChunksInStep(lines: seq<string>, i: nat, chunks: seq<string>, cur: seq<string>, inPre: bool, own: seq<string>,
                               opens: bool, max: int)
    requires i <= |lines|
  {
    && cur == Kept(own, opens) && (own == [] ==> !opens) && (i > 0 ==> own != [])
    && chunks + RenderAll(Blocks(lines[i..], own, opens, inPre, max)) == RenderAll(Blocks(lines, [], false, false, max))
  }

  /** One turn of it. */
  method TakeOneLine(lines: seq<string>, i: nat, chunks: seq<string>, cur: seq<string>, inPre: bool, max: int,
                     ghost own: seq<string>, ghost opens: bool)
    returns (chunks': seq<string>, cur': seq<string>, inPre': bool, ghost own': seq<string>, ghost opens': bool)
    requires i < |lines| && ChunksInStep(lines, i, chunks, cur, inPre, own, opens, max)
    ensures ChunksInStep(lines, i + 1, chunks', cur', inPre', own', opens', max)
  {
    ghost var splits := Overflows(own, opens, lines[i], max);
    var emitted;
    emitted, cur', inPre' := AddLine(cur, inPre, lines[i], max, own, opens);
    AddedLine(chunks, emitted, lines, i, own, opens, inPre, inPre', max);
    chunks' := chunks + emitted;
    own', opens' := if splits then [lines[i]] else own + [lines[i]], if splits then inPre else opens;
  }

  method ChunkLines(lines: seq<string>, max: int) returns (chunks: seq<string>)
    requires lines != []
    ensures chunks == RenderAll(Blocks(lines, [], false, false, max)) && chunks != []
  {
    chunks := [];
    var cur, inPre := [], false;
    ghost var own, opens := [], false;
    assert lines[0..] == lines;
    for i := 0 to |lines|
      invariant ChunksInStep(lines, i, chunks, cur, inPre, own, opens, max)
    {
      chunks, cur, inPre, own, opens := TakeOneLine(lines, i, chunks, cur, inPre, max, own, opens);
    }
    assert lines[|lines|..] == [];
    chunks := chunks + Flush(cur, inPre, own, opens, max);
  }
}
