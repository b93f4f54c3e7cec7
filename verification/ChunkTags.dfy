/** app/interfaces/formatter.py: when the chunks of `chunk_html` have balanced `<pre>` tags. */
module ChunkTags {
  import opened Text
  import opened ChunkHtml

  // ----- Tags -----

  predicate StartsWith(s: string, part: string) {
    |part| <= |s| && s[..|part|] == part
  }

  predicate IsTag(tag: string) {
    tag == OPEN || tag == CLOSE
  }

  /** The tag at the beginning of a text, if there is one: true for an opening and false for a
      closing one. */
  function HeadTag(s: string): seq<bool> {
    if StartsWith(s, OPEN) then [true] else if StartsWith(s, CLOSE) then [false] else []
  }

  /** The length of that tag, or one character. */
  function HeadLength(s: string): (k: nat)
    requires s != ""
    ensures 0 < k <= |s|
  {
    if StartsWith(s, OPEN) then |OPEN| else if StartsWith(s, CLOSE) then |CLOSE| else 1
  }

  /** The `<pre>` tags of a text, first to last. */
  function Tags(s: string): seq<bool>
    decreases |s|
  {
    if s == "" then [] else HeadTag(s) + Tags(s[HeadLength(s)..])
  }

  datatype Depth = Outside | Inside | Broken

  function Step(d: Depth, tag: bool): Depth {
    match d
    case Outside => if tag then Inside else Broken
    case Inside => if tag then Broken else Outside
    case Broken => Broken
  }

  function Through(d: Depth, tags: seq<bool>): Depth
    decreases |tags|
  {
    if tags == [] then d else Through(Step(d, tags[0]), tags[1..])
  }

  /** Opening and closing tags alternate, beginning with an opening one and ending with a closing
      one. */
  predicate Balanced(s: string) {
    Through(Outside, Tags(s)) == Outside
  }

  function TagsOfLines(lines: seq<string>): seq<bool> {
    if lines == [] then [] else Tags(lines[0]) + TagsOfLines(lines[1..])
  }

  lemma {:induction false} ThroughConcat(d: Depth, a: seq<bool>, b: seq<bool>)
    ensures Through(d, a + b) == Through(Through(d, a), b)
    decreases |a|
  {
    if a == [] {
      assert a + b == b;
    } else {
      assert (a + b)[1..] == a[1..] + b;
      ThroughConcat(Step(d, a[0]), a[1..], b);
    }
  }

  lemma {:induction false} BrokenStays(tags: seq<bool>)
    ensures Through(Broken, tags) == Broken
  {
    if tags != [] {
      BrokenStays(tags[1..]);
    }
  }

  // ----- Tags of joined text -----

  /** No tag runs across the beginning of `b`: a tag has none of these characters but its first. */
  predicate Severs(b: string) {
    b == "" || b[0] == '\n' || b[0] == '<'
  }

  lemma NoInnerBreak(tag: string, i: nat)
    requires IsTag(tag) && 0 < i < |tag|
    ensures tag[i] != '\n' && tag[i] != '<'
  {
  }

  lemma StartsInside(a: string, b: string, tag: string)
    requires a != "" && Severs(b) && IsTag(tag)
    ensures StartsWith(a + b, tag) <==> StartsWith(a, tag)
  {
    if |tag| <= |a| {
      assert (a + b)[..|tag|] == a[..|tag|];
    } else if |tag| <= |a + b| {
      NoInnerBreak(tag, |a|);
      assert (a + b)[..|tag|][|a|] == b[0];
    }
  }

  lemma HeadInside(a: string, b: string)
    requires a != "" && Severs(b)
    ensures HeadTag(a + b) == HeadTag(a) && HeadLength(a + b) == HeadLength(a)
  {
    StartsInside(a, b, OPEN);
    StartsInside(a, b, CLOSE);
  }

  lemma {:induction false} TagsOfHead(a: string, b: string)
    requires a != "" && Severs(b)
    ensures Tags(a + b) == HeadTag(a) + Tags(a[HeadLength(a)..] + b)
  {
    var whole, k := a + b, HeadLength(a);
    HeadInside(a, b);
    assert whole != "" && Tags(whole) == HeadTag(whole) + Tags(whole[HeadLength(whole)..]);
    assert whole[k..] == a[k..] + b;
  }

  lemma {:induction false} TagsConcat(a: string, b: string)
    requires Severs(b)
    ensures Tags(a + b) == Tags(a) + Tags(b)
    decreases |a|
  {
    if a == "" {
      assert a + b == b;
    } else {
      var rest := a[HeadLength(a)..];
      TagsOfHead(a, b);
      TagsConcat(rest, b);
      ConcatAssociates(HeadTag(a), Tags(rest), Tags(b));
    }
  }

  lemma DifferentStart(s: string, tag: string)
    requires s != "" && IsTag(tag) && s[0] != '<'
    ensures !StartsWith(s, tag)
  {
    if |tag| <= |s| {
      assert s[..|tag|][0] == s[0];
    }
  }

  lemma NewlineHasNoTag(s: string)
    ensures Tags("\n" + s) == Tags(s)
  {
    var text := "\n" + s;
    DifferentStart(text, OPEN);
    DifferentStart(text, CLOSE);
    assert text[1..] == s;
    assert [] + Tags(s) == Tags(s);
  }

  lemma TagBefore(tag: string, s: string)
    requires IsTag(tag)
    ensures StartsWith(tag + s, tag) && (tag + s)[|tag|..] == s
  {
    assert (tag + s)[..|tag|] == tag;
  }

  lemma NotBoth(s: string)
    ensures !(StartsWith(s, OPEN) && StartsWith(s, CLOSE))
  {
    if |CLOSE| <= |s| {
      assert s[..|OPEN|][1] == s[1] && s[..|CLOSE|][1] == s[1];
    }
  }

  lemma OpenTag(s: string)
    ensures Tags(OPEN + s) == [true] + Tags(s)
  {
    TagBefore(OPEN, s);
  }

  lemma CloseTag()
    ensures Tags(CLOSE) == [false]
  {
    TagBefore(CLOSE, "");
    assert CLOSE + "" == CLOSE;
    NotBoth(CLOSE);
    assert [false] + [] == [false];
  }

  lemma {:induction false} JoinTags(lines: seq<string>)
    ensures Tags(Join(lines)) == TagsOfLines(lines)
  {
    if lines == [] {
    } else if |lines| == 1 {
      assert TagsOfLines(lines) == Tags(lines[0]) + [];
    } else {
      JoinTags(lines[1..]);
      var rest := Join(lines[1..]);
      assert Join(lines) == lines[0] + ("\n" + rest);
      TagsConcat(lines[0], "\n" + rest);
      NewlineHasNoTag(rest);
    }
  }

  lemma {:induction false} LinesSnoc(lines: seq<string>, line: string)
    ensures TagsOfLines(lines + [line]) == TagsOfLines(lines) + Tags(line)
  {
    if lines == [] {
      assert (lines + [line])[1..] == [];
      assert Tags(line) + [] == Tags(line);
    } else {
      assert (lines + [line])[1..] == lines[1..] + [line];
      LinesSnoc(lines[1..], line);
    }
  }

  /** Where a flag says the text stands. */
  function Truth(flag: bool): Depth {
    if flag then Inside else Outside
  }

  lemma RenderedTags(b: Block)
    ensures Through(Outside, Tags(Render(b)))
         == var d := Through(Truth(b.opens), TagsOfLines(b.lines)); if b.closes then Step(d, false) else d
  {
    var text := Join(b.lines) + Closing(b.closes);
    assert Render(b) == Opening(b.opens) + text;
    JoinTags(b.lines);
    TagsConcat(Join(b.lines), Closing(b.closes));
    CloseTag();
    var own := TagsOfLines(b.lines);
    var closing := if b.closes then [false] else [];
    assert Tags(text) == own + closing;
    if b.opens {
      OpenTag(text);
      assert ([true] + (own + closing))[1..] == own + closing;
    } else {
      assert Opening(b.opens) + text == text;
    }
    ThroughConcat(Truth(b.opens), own, closing);
  }

  /** A block is balanced exactly if a closing tag is added where its text stands inside. */
  lemma BlockBalanced(b: Block)
    ensures Balanced(Render(b)) <==> Through(Truth(b.opens), TagsOfLines(b.lines)) == Truth(b.closes)
  {
    RenderedTags(b);
  }

  // ----- The flag must tell the truth -----

  /** Cutting the lines greedily, the flag tells where the text stands at every cut, and so does the
      decision about a closing tag at the end; `d` is where the text stands before `rest`. */
  predicate Truthful(rest: seq<string>, cur: seq<string>, opens: bool, inPre: bool, d: Depth, max: int)
    decreases |rest|
  {
    if rest == [] then cur == [] || d == Truth(NeedsClosing(cur, opens, inPre))
    else if Overflows(cur, opens, rest[0], max) then
      && d == Truth(inPre)
      && Truthful(rest[1..], [rest[0]], inPre, PreAfter(inPre, Opening(inPre) + rest[0]), Through(d, Tags(rest[0])), max)
    else
      Truthful(rest[1..], cur + [rest[0]], opens, PreAfter(inPre, rest[0]), Through(d, Tags(rest[0])), max)
  }

  predicate AllBalanced(blocks: seq<Block>) {
    forall b :: b in blocks ==> Balanced(Render(b))
  }

  lemma BalancedCons(b: Block, later: seq<Block>)
    ensures AllBalanced([b] + later) <==> Balanced(Render(b)) && AllBalanced(later)
  {
    assert forall x :: x in [b] + later <==> x == b || x in later;
  }

  lemma {:induction false} TruthIsBalance(rest: seq<string>, cur: seq<string>, opens: bool, inPre: bool, d: Depth, max: int)
    requires d == Through(Truth(opens), TagsOfLines(cur))
    ensures Truthful(rest, cur, opens, inPre, d, max) <==> AllBalanced(Blocks(rest, cur, opens, inPre, max))
    decreases |rest|
  {
    if rest == [] {
      if cur != [] {
        var b := Block(cur, opens, NeedsClosing(cur, opens, inPre));
        assert Blocks(rest, cur, opens, inPre, max) == [b] + [];
        BalancedCons(b, []);
        BlockBalanced(b);
      }
    } else if Overflows(cur, opens, rest[0], max) {
      var b, inPre' := Block(cur, opens, inPre), PreAfter(inPre, Opening(inPre) + rest[0]);
      var later := Blocks(rest[1..], [rest[0]], inPre, inPre', max);
      assert Blocks(rest, cur, opens, inPre, max) == [b] + later;
      BalancedCons(b, later);
      BlockBalanced(b);
      if d == Truth(inPre) {
        LinesSnoc([], rest[0]);
        assert [] + [rest[0]] == [rest[0]];
        assert TagsOfLines([]) + Tags(rest[0]) == Tags(rest[0]);
        TruthIsBalance(rest[1..], [rest[0]], inPre, inPre', Through(d, Tags(rest[0])), max);
      }
    } else {
      LinesSnoc(cur, rest[0]);
      ThroughConcat(Truth(opens), TagsOfLines(cur), Tags(rest[0]));
      TruthIsBalance(rest[1..], cur + [rest[0]], opens, PreAfter(inPre, rest[0]), Through(d, Tags(rest[0])), max);
    }
  }

  ghost predicate ChunksBalanced(text: string, max: int) {
    forall chunk :: chunk in RenderAll(BlocksOf(text, max)) ==> Balanced(chunk)
  }

  lemma ChunksAreBlocks(text: string, max: int)
    ensures ChunksBalanced(text, max) <==> AllBalanced(BlocksOf(text, max))
  {
    var blocks := BlocksOf(text, max);
    RenderAllAt(blocks);
    if ChunksBalanced(text, max) {
      forall b | b in blocks ensures Balanced(Render(b)) {
        var i :| 0 <= i < |blocks| && blocks[i] == b;
        assert RenderAll(blocks)[i] in RenderAll(blocks);
      }
    }
  }

  /** For every text and every limit: all chunks are balanced exactly if the flag tells where the
      text stands at every cut and at the end. */
  lemma BalancedIffTruthful(text: string, max: int)
    ensures ChunksBalanced(text, max) <==> Truthful(Split(text), [], false, false, Outside, max)
  {
    ChunksAreBlocks(text, max);
    TruthIsBalance(Split(text), [], false, false, Outside, max);
  }

  // ----- One tag a line -----

  lemma {:induction false} ContainsTag(s: string, tag: string)
    requires IsTag(tag)
    ensures Contains(s, tag) <==> (tag == OPEN) in Tags(s)
    decreases |s|
  {
    if s == "" {
    } else {
      var k := HeadLength(s);
      ContainsTag(s[k..], tag);
      NotBoth(s);
      if StartsWith(s, tag) {
        assert OccursAt(s, tag, 0);
        assert HeadTag(s) == [tag == OPEN];
        assert Tags(s)[0] == (tag == OPEN);
      } else {
        NotAtHead(s, tag);
        assert forall x :: x in HeadTag(s) ==> x != (tag == OPEN);
      }
    }
  }

  /** A tag that does not stand at the beginning stands behind it. */
  lemma NotAtHead(s: string, tag: string)
    requires IsTag(tag) && s != "" && !StartsWith(s, tag)
    ensures Contains(s, tag) <==> Contains(s[HeadLength(s)..], tag)
  {
    var k := HeadLength(s);
    if Contains(s, tag) {
      var i: nat :| i <= |s| && OccursAt(s, tag, i);
      AtHead(s, tag);
      BehindHead(s, tag, i);
      OccursBehind(s, tag, k, i);
    }
    var rest := s[k..];
    if Contains(rest, tag) {
      ContainsWithin(s[..k], rest, "", tag);
      assert s[..k] + rest == s;
      assert s + "" == s;
    }
  }

  lemma OccursBehind(s: string, tag: string, k: nat, i: nat)
    requires k <= i <= |s| && OccursAt(s, tag, i)
    ensures OccursAt(s[k..], tag, i - k) && Contains(s[k..], tag)
  {
    assert s[k..][i - k..i - k + |tag|] == s[i..i + |tag|];
    assert OccursAt(s[k..], tag, i - k);
  }

  lemma AtHead(s: string, tag: string)
    ensures OccursAt(s, tag, 0) <==> StartsWith(s, tag)
  {
    if |tag| <= |s| {
      assert s[0..0 + |tag|] == s[..|tag|];
    }
  }

  lemma BehindHead(s: string, tag: string, i: nat)
    requires IsTag(tag) && s != "" && 0 < i <= |s| && OccursAt(s, tag, i)
    ensures i >= HeadLength(s)
  {
    assert s[i] == s[i..i + |tag|][0] == '<';
    if i < HeadLength(s) {
      NotInHead(s, i);
    }
  }

  /** Behind its first character a tag has no `<`. */
  lemma NotInHead(s: string, i: nat)
    requires s != "" && 0 < i < HeadLength(s)
    ensures s[i] != '<'
  {
    var head := if StartsWith(s, OPEN) then OPEN else CLOSE;
    NoInnerBreak(head, i);
    assert s[..|head|] == head && |head| == HeadLength(s);
    assert s[..|head|][i] == s[i];
  }

  predicate OneTagALine(lines: seq<string>) {
    forall line :: line in lines ==> |Tags(line)| <= 1
  }

  /** The cuts and the flag again, but with `lag` for a flag that is still up though its block has
      closed.  The flag begins to lag when a block is opened in front of a line that holds
      `</pre>`, and is right again at the next `<pre>`.  It must not lag at a cut, nor at the end
      unless the last line ends with `</pre>`. */
  predicate KeepsPace(rest: seq<string>, cur: seq<string>, opens: bool, inPre: bool, lag: bool, max: int)
    decreases |rest|
  {
    if rest == [] then lag && cur != [] ==> !NeedsClosing(cur, opens, inPre)
    else if Overflows(cur, opens, rest[0], max) then
      && !lag
      && KeepsPace(rest[1..], [rest[0]], inPre, PreAfter(inPre, Opening(inPre) + rest[0]),
                   inPre && Contains(rest[0], CLOSE), max)
    else
      KeepsPace(rest[1..], cur + [rest[0]], opens, PreAfter(inPre, rest[0]), lag && !Contains(rest[0], OPEN), max)
  }

  /** The state of the loop, with where the text stands. */
  ghost predicate InPace(cur: seq<string>, inPre: bool, d: Depth, lag: bool) {
    && (if lag then inPre && d == Outside else d == Truth(inPre))
    && (cur != [] && d == Inside ==> !Contains(cur[|cur| - 1], CLOSE))
  }

  lemma TagsAt(line: string)
    requires |Tags(line)| <= 1
    ensures Contains(line, OPEN) <==> Tags(line) == [true]
    ensures Contains(line, CLOSE) <==> Tags(line) == [false]
  {
    ContainsTag(line, OPEN);
    ContainsTag(line, CLOSE);
    if Tags(line) != [] {
      assert Tags(line) == [Tags(line)[0]];
    }
  }

  lemma ThroughOne(d: Depth, tags: seq<bool>)
    requires |tags| <= 1
    ensures Through(d, tags) == if tags == [] then d else Step(d, tags[0])
  {
    if tags != [] {
      assert tags[1..] == [];
    }
  }

  lemma OpenedFlag(line: string)
    ensures PreAfter(true, OPEN + line)
  {
    assert OccursAt(OPEN + line, OPEN, 0);
  }

  /** One more line, with or without a cut before it. */
  lemma PaceStep(cur: seq<string>, inPre: bool, d: Depth, lag: bool, line: string, cut: bool)
    requires InPace(cur, inPre, d, lag) && |Tags(line)| <= 1 && Through(d, Tags(line)) != Broken && (cut ==> !lag)
    ensures var inPre' := PreAfter(inPre, if cut then Opening(inPre) + line else line);
            var lag' := if cut then inPre && Contains(line, CLOSE) else lag && !Contains(line, OPEN);
            InPace((if cut then [] else cur) + [line], inPre', Through(d, Tags(line)), lag')
  {
    TagsAt(line);
    ThroughOne(d, Tags(line));
    OpenedFlag(line);
    assert Opening(false) + line == line;
  }

  lemma EndOfLine(cur: seq<string>, opens: bool, inPre: bool)
    requires cur != [] && inPre && !Contains(cur[|cur| - 1], CLOSE)
    ensures NeedsClosing(cur, opens, inPre)
  {
    var line := cur[|cur| - 1];
    var last := (if |cur| == 1 then Opening(opens) else "") + line;
    ContainsTag(last, CLOSE);
    ContainsTag(line, CLOSE);
    OpenTag(line);
    assert Opening(false) + line == line && "" + line == line;
    if EndsWith(last, CLOSE) {
      SuffixOccurs(last, CLOSE);
    }
  }

  lemma {:induction false} PaceIsTruth(rest: seq<string>, cur: seq<string>, opens: bool, inPre: bool, d: Depth, lag: bool,
                                       max: int)
    requires InPace(cur, inPre, d, lag) && OneTagALine(rest) && Through(d, TagsOfLines(rest)) != Broken
    ensures KeepsPace(rest, cur, opens, inPre, lag, max) <==> Truthful(rest, cur, opens, inPre, d, max)
    decreases |rest|
  {
    if rest == [] {
      if cur != [] && d == Inside {
        EndOfLine(cur, opens, inPre);
      }
    } else {
      var line, cut := rest[0], Overflows(cur, opens, rest[0], max);
      assert line in rest && forall l :: l in rest[1..] ==> l in rest;
      ThroughConcat(d, Tags(line), TagsOfLines(rest[1..]));
      BrokenStays(TagsOfLines(rest[1..]));
      if !cut || !lag {
        PaceStep(cur, inPre, d, lag, line, cut);
        assert [] + [line] == [line];
        if cut {
          PaceIsTruth(rest[1..], [line], inPre, PreAfter(inPre, Opening(inPre) + line), Through(d, Tags(line)),
                      inPre && Contains(line, CLOSE), max);
        } else {
          PaceIsTruth(rest[1..], cur + [line], opens, PreAfter(inPre, line), Through(d, Tags(line)),
                      lag && !Contains(line, OPEN), max);
        }
      }
    }
  }

  /** For text with at most one tag a line, in which the tags alternate from `<pre>` on (the last
      block may be left open): all chunks are balanced exactly if the flag keeps pace. */
  lemma BalancedIffPace(text: string, max: int)
    requires OneTagALine(Split(text)) && Through(Outside, Tags(text)) != Broken
    ensures ChunksBalanced(text, max) <==> KeepsPace(Split(text), [], false, false, false, max)
  {
    JoinSplit(text, '\n');
    JoinTags(Split(text));
    BalancedIffTruthful(text, max);
    PaceIsTruth(Split(text), [], false, false, Outside, false, max);
  }

  /** No block is opened in front of a line that holds `</pre>`. */
  predicate OpensWell(rest: seq<string>, cur: seq<string>, opens: bool, inPre: bool, max: int)
    decreases |rest|
  {
    if rest == [] then true
    else if Overflows(cur, opens, rest[0], max) then
      && (inPre ==> !Contains(rest[0], CLOSE))
      && OpensWell(rest[1..], [rest[0]], inPre, PreAfter(inPre, Opening(inPre) + rest[0]), max)
    else OpensWell(rest[1..], cur + [rest[0]], opens, PreAfter(inPre, rest[0]), max)
  }

  lemma {:induction false} OpensWellKeepsPace(rest: seq<string>, cur: seq<string>, opens: bool, inPre: bool, max: int)
    requires OpensWell(rest, cur, opens, inPre, max)
    ensures KeepsPace(rest, cur, opens, inPre, false, max)
    decreases |rest|
  {
    if rest == [] {
    } else if Overflows(cur, opens, rest[0], max) {
      OpensWellKeepsPace(rest[1..], [rest[0]], inPre, PreAfter(inPre, Opening(inPre) + rest[0]), max);
    } else {
      OpensWellKeepsPace(rest[1..], cur + [rest[0]], opens, PreAfter(inPre, rest[0]), max);
    }
  }

  /** So it is enough that no block is opened in front of a line that holds `</pre>`. */
  lemma BalancedIfOpensWell(text: string, max: int)
    requires OneTagALine(Split(text)) && Through(Outside, Tags(text)) != Broken
    requires OpensWell(Split(text), [], false, false, max)
    ensures ChunksBalanced(text, max)
  {
    OpensWellKeepsPace(Split(text), [], false, false, max);
    BalancedIffPace(text, max);
  }

  // ----- Where it fails -----

  lemma Tagless(s: string)
    requires Tags(s) == []
    ensures !Contains(s, OPEN) && !Contains(s, CLOSE)
  {
    ContainsTag(s, OPEN);
    ContainsTag(s, CLOSE);
  }

  lemma ClosingLine(code: string)
    requires Tags(code) == []
    ensures Tags(code + CLOSE) == [false] && Contains(code + CLOSE, CLOSE) && !Contains(code + CLOSE, OPEN)
  {
    TagsConcat(code, CLOSE);
    CloseTag();
    assert [] + [false] == [false];
    TagsAt(code + CLOSE);
  }

  lemma OpeningLine(code: string)
    requires Tags(code) == []
    ensures Tags(OPEN + code) == [true] && Contains(OPEN + code, OPEN) && !Contains(OPEN + code, CLOSE)
  {
    OpenTag(code);
    assert [true] + [] == [true];
    TagsAt(OPEN + code);
  }

  lemma {:induction false} ThreeLines(first: string, second: string, tail: string)
    requires '\n' !in first && '\n' !in second && '\n' !in tail
    ensures Split(first + "\n" + (second + "\n" + tail)) == [first, second, tail]
  {
    SplitOne(tail, '\n');
    SplitFirst(second, '\n', tail);
    SplitFirst(first, '\n', second + "\n" + tail);
    assert [second] + [tail] == [second, tail] && [first] + [second, tail] == [first, second, tail];
  }

  lemma {:induction false} ThreeLineTags(first: string, second: string, tail: string)
    ensures TagsOfLines([first, second, tail]) == Tags(first) + (Tags(second) + Tags(tail))
  {
    var lines := [first, second, tail];
    assert lines[1..] == [second, tail] && [second, tail][1..] == [tail] && [tail][1..] == [];
    assert TagsOfLines([tail]) == Tags(tail) + [] == Tags(tail);
  }

  /** A split in front of the closing line unbalances: a block of two lines that does not fit, and a
      line after it, at any limit. */
  lemma SplitBeforeCloseUnbalances(a: string, b: string, tail: string, max: int)
    requires Tags(a) == [] && Tags(b) == [] && Tags(tail) == []
    requires '\n' !in a && '\n' !in b && '\n' !in tail
    requires |OPEN + a| + 1 + |b + CLOSE| > max
    ensures var text := (OPEN + a) + "\n" + ((b + CLOSE) + "\n" + tail); Balanced(text) && !ChunksBalanced(text, max)
  {
    OpeningLine(a);
    ClosingLine(b);
    SplitUnbalances(OPEN + a, b + CLOSE, tail, max);
  }

  lemma {:induction false} SplitUnbalances(first: string, second: string, tail: string, max: int)
    requires Tags(first) == [true] && Tags(second) == [false] && Tags(tail) == []
    requires '\n' !in first && '\n' !in second && '\n' !in tail
    requires |first| + 1 + |second| > max
    ensures var text := first + "\n" + (second + "\n" + tail); Balanced(text) && !ChunksBalanced(text, max)
  {
    var text := first + "\n" + (second + "\n" + tail);
    ThreeLines(first, second, tail);
    JoinSplit(text, '\n');
    JoinTags(Split(text));
    ThreeLineTags(first, second, tail);
    assert [false] + [] == [false];
    OpenedAndClosed(Tags(text));
    TagsAt(first);
    TagsAt(second);
    Tagless(tail);
    LagsBehind(first, second, tail, max);
    BalancedIffPace(text, max);
  }

  lemma LagsBehind(first: string, second: string, tail: string, max: int)
    requires Contains(first, OPEN) && Contains(second, CLOSE) && !Contains(second, OPEN)
    requires !Contains(tail, OPEN) && !Contains(tail, CLOSE)
    requires |first| + 1 + |second| > max
    ensures !KeepsPace([first, second, tail], [], false, false, false, max)
  {
    var lines := [first, second, tail];
    assert lines[1..] == [second, tail] && lines[1..][1..] == [tail] && [tail][1..] == [];
    assert [] + [first] == [first];
    JoinSnoc([first], second);
    OpenedFlag(second);
    var flag := PreAfter(true, Opening(true) + second);
    if !Overflows([second], true, tail, max) {
      assert PreAfter(flag, tail);
      EndOfLine([second] + [tail], true, true);
      assert !KeepsPace([], [second] + [tail], true, true, true, max);
    }
    assert !KeepsPace([tail], [second], true, flag, true, max);
    assert !KeepsPace([second, tail], [first], false, true, false, max);
  }

  lemma OpenedAndClosed(tags: seq<bool>)
    requires tags == [true] + [false]
    ensures Through(Outside, tags) == Outside && Through(Outside, tags + [false]) == Broken
  {
    assert tags[1..] == [false] && [false][1..] == [];
    assert Through(Outside, tags) == Through(Inside, [false]) == Through(Outside, []);
    ThroughConcat(Outside, tags, [false]);
    ThroughOne(Outside, [false]);
  }

  lemma OneLineTags(code: string, tail: string)
    requires Tags(code) == [] && Tags(tail) == []
    ensures Tags(OPEN + ((code + CLOSE) + ("\n" + tail))) == [true] + [false]
  {
    OpenTag((code + CLOSE) + ("\n" + tail));
    ClosingLine(code);
    TagsConcat(code + CLOSE, "\n" + tail);
    NewlineHasNoTag(tail);
    assert [false] + [] == [false];
  }

  lemma OneLineText(code: string, tail: string)
    ensures OPEN + code + CLOSE + "\n" + tail == OPEN + ((code + CLOSE) + ("\n" + tail))
  {
    ConcatAssociates(code + CLOSE, "\n", tail);
    ConcatAssociates(OPEN, code, CLOSE);
    ConcatAssociates(OPEN, code + CLOSE, "\n");
    ConcatAssociates(OPEN, (code + CLOSE) + "\n", tail);
  }

  /** So does a block on one line with a line after it, though nothing is split. */
  lemma OneLineBlockUnbalanced(code: string, tail: string, max: int)
    requires Tags(code) == [] && Tags(tail) == [] && '\n' !in code && '\n' !in tail
    requires |OPEN + code + CLOSE + "\n" + tail| <= max
    ensures var text := OPEN + code + CLOSE + "\n" + tail; Balanced(text) && !ChunksBalanced(text, max)
  {
    var text := OPEN + code + CLOSE + "\n" + tail;
    Tagless(tail);
    OneLineBlockUnbalances(code, tail, max);
    OneLineText(code, tail);
    OneLineTags(code, tail);
    OpenedAndClosed(Tags(text));
    TagsConcat(text, CLOSE);
    CloseTag();
    assert text + CLOSE in RenderAll(BlocksOf(text, max));
  }
}
