/**
  From the lines of a whole text to its chunks. A section is stripped and split into lines again before its blocks
  are formed; that changes no block. So a fenced region of the text, Markdown or not, ends up whole in one chunk
  when its block fits.
  */
module ChunkingRegions {
  import opened Characters
  import opened TextShape
  import opened Chunking
  import opened ChunkingFences

  ghost predicate Unbroken(line: string) {
    forall i :: 0 <= i < |line| ==> !IsLineBreak(line[i])
  }

  // ----- stripping and splitting

  lemma {:induction false} StripIgnoresTrailingSpace(t: string, w: string)
    requires StripsToNothing(w)
    ensures Strip(t + w) == Strip(t)
    decreases |t| + |w|
  {
    hide IsSpace;
    if w == "" {
      assert t + w == t;
    } else if t == "" {
      assert t + w == w;
      StripErases(w);
    } else if IsSpace(t[0]) {
      assert (t + w)[1..] == t[1..] + w;
      StripIgnoresTrailingSpace(t[1..], w);
    } else {
      assert (t + w)[..|t + w| - 1] == t + w[..|w| - 1];
      StripIgnoresTrailingSpace(t, w[..|w| - 1]);
    }
  }

  lemma LineEndIs(t: string, e: nat)
    requires e <= |t| && Unbroken(t[..e]) && (e < |t| ==> IsLineBreak(t[e]))
    ensures LineEnd(t) == e
  {
    hide IsLineBreak;
    assert forall i | 0 <= i < e :: t[..e][i] == t[i];
  }

  // A line, a boundary and the rest.
  lemma SplitsAt(line: string, gap: string, rest: string)
    requires Unbroken(line) && (gap == "\r\n" || (|gap| == 1 && IsLineBreak(gap[0])))
    requires gap == "\r" ==> rest == "" || rest[0] != '\n'
    ensures SplitLines(line + gap + rest) == [line] + SplitLines(rest)
  {
    var t := line + gap + rest;
    assert t[..|line|] == line;
    LineEndIs(t, |line|);
    hide IsLineBreak, LineEnd;
    assert t[|line|] == gap[0];
    assert |gap| == 2 ==> t[|line| + 1] == '\n';
    assert |gap| == 1 && rest != "" ==> t[|line| + 1] == rest[0];
    assert t[|line| + |gap|..] == rest;
  }

  lemma OneLine(line: string)
    requires Unbroken(line)
    ensures SplitLines(line) == if line == "" then [] else [line]
  {
    assert line[..|line|] == line;
    LineEndIs(line, |line|);
  }

  // What FirstLine says of the boundary.
  lemma FirstBoundary(t: string) returns (line: string, gap: string, rest: string)
    requires t != ""
    ensures t == line + gap + rest && Unbroken(line) && SplitLines(t) == [line] + SplitLines(rest)
    ensures gap == "" ==> rest == "" && line != ""
    ensures gap != "" ==> gap == "\r\n" || (|gap| == 1 && IsLineBreak(gap[0]))
    ensures gap == "\r" ==> rest == "" || rest[0] != '\n'
  {
    hide IsSpace, IsLineBreak;
    var e := LineEnd(t);
    var width := if e == |t| then 0 else if t[e] == '\r' && e + 1 < |t| && t[e + 1] == '\n' then 2 else 1;
    line, gap, rest := t[..e], t[e..e + width], t[e + width..];
    if e == |t| {
      assert line == t;
    }
  }

  // ----- blocks do not see outer white space

  lemma {:induction false} SpaceIsNoFence(line: string)
    requires line != "" && IsSpace(line[|line| - 1])
    ensures IsFence(line[..|line| - 1]) == IsFence(line)
    decreases |line|
  {
    var shorter := line[..|line| - 1];
    if IsSpace(line[0]) {
      if |line| > 1 {
        SpaceIsNoFence(line[1..]);
        assert line[1..][..|line| - 2] == shorter[1..];
      }
    } else if |line| >= 4 {
      assert shorter[..3] == line[..3];
    } else if |line| == 3 {
      assert line[..3][2] == line[2];
    }
  }

  lemma ABlankLineAtTheEnd(current: seq<string>, line: string, inFence: bool)
    requires StripsToNothing(line)
    ensures Blocks([line], current, inFence) == Blocks([], current, inFence)
  {
    hide IsSpace, IsFence, Strip;
    BlankIsNoFence(line);
    assert [line][1..] == [];
    StripErases("");
    var gap := if current == [] then "" else "\n";
    assert StripsToNothing(gap + line) by { NewlineIsSpace(); }
    LastPart("\n", current, line);
    assert Join("\n", current + [line]) == Join("\n", current) + (gap + line);
    StripIgnoresTrailingSpace(Join("\n", current), gap + line);
    NoBlock();
  }

  lemma NewlineIsSpace()
    ensures IsSpace('\n')
  {
  }

  lemma NoBlock()
    ensures BlockOf([]) == []
  {
  }

  lemma LastLine(current: seq<string>, line: string, inFence: bool)
    ensures Blocks([line], current, inFence)
            == if inFence == IsFence(line) && StripsToNothing(line) then BlockOf(current) else BlockOf(current + [line])
  {
    hide IsFence, StripsToNothing, Strip;
    NoBlock();
    assert [line][1..] == [];
  }

  lemma BlankWithoutLast(line: string)
    requires line != "" && IsSpace(line[|line| - 1])
    ensures StripsToNothing(line) <==> StripsToNothing(line[..|line| - 1])
    ensures StripsToNothing(line[|line| - 1..])
  {
    hide IsSpace;
    assert forall i | 0 <= i < |line| - 1 :: line[..|line| - 1][i] == line[i];
  }

  lemma TrailingSpaceOfTheLastLine(current: seq<string>, line: string, inFence: bool)
    requires line != "" && IsSpace(line[|line| - 1])
    ensures Blocks([line], current, inFence) == Blocks([line[..|line| - 1]], current, inFence)
  {
    hide IsSpace, IsFence, Strip, Blocks, StripsToNothing;
    var shorter, last := line[..|line| - 1], line[|line| - 1..];
    SpaceIsNoFence(line);
    assert line == shorter + last;
    BlankWithoutLast(line);
    LastLine(current, line, inFence);
    LastLine(current, shorter, inFence);
    LastPart("\n", current, line);
    LastPart("\n", current, shorter);
    assert Join("\n", current + [line]) == Join("\n", current + [shorter]) + last;
    StripIgnoresTrailingSpace(Join("\n", current + [shorter]), last);
  }

  lemma OneLineOfBlocks(line: string, x: seq<string>, y: seq<string>, current: seq<string>, inFence: bool)
    requires forall next: seq<string>, fenced: bool :: Blocks(x, next, fenced) == Blocks(y, next, fenced)
    ensures Blocks([line] + x, current, inFence) == Blocks([line] + y, current, inFence)
  {
    hide IsFence, StripsToNothing, BlockOf;
    assert ([line] + x)[1..] == x && ([line] + y)[1..] == y;
  }

  lemma {:induction false} TrailingSpaceMakesNoBlock(t: string, current: seq<string>, inFence: bool)
    requires t != "" && IsSpace(t[|t| - 1])
    ensures Blocks(SplitLines(t[..|t| - 1]), current, inFence) == Blocks(SplitLines(t), current, inFence)
    decreases |t|
  {
    hide IsSpace, IsLineBreak, Blocks, SplitLines;
    var shorter := t[..|t| - 1];
    var line, gap, rest := FirstBoundary(t);
    NoLines();
    if rest != "" {
      var less := rest[..|rest| - 1];
      assert shorter == line + gap + less;
      SplitsAt(line, gap, less);
      forall next: seq<string>, fenced: bool ensures Blocks(SplitLines(less), next, fenced) == Blocks(SplitLines(rest), next, fenced) {
        TrailingSpaceMakesNoBlock(rest, next, fenced);
      }
      OneLineOfBlocks(line, SplitLines(less), SplitLines(rest), current, inFence);
    } else if gap == "" {
      assert t == line && SplitLines(t) == [line];
      assert forall i | 0 <= i < |shorter| :: shorter[i] == line[i];
      OneLine(shorter);
      if shorter == "" {
        ABlankLineAtTheEnd(current, line, inFence);
      } else {
        TrailingSpaceOfTheLastLine(current, line, inFence);
      }
    } else {
      assert SplitLines(t) == [line];
      if |gap| == 2 {
        assert shorter == line + "\r" + "";
        CarriageReturnBreaks();
        SplitsAt(line, "\r", "");
      } else {
        assert shorter == line;
        OneLine(line);
        if line == "" {
          ABlankLineAtTheEnd(current, line, inFence);
        }
      }
    }
  }

  lemma CarriageReturnBreaks()
    ensures IsLineBreak('\r') && IsLineBreak('\n')
  {
  }

  lemma {:induction false} JoinHead(x: string, current: seq<string>)
    requires x != ""
    ensures Join("\n", [x] + current) == [x[0]] + Join("\n", [x[1..]] + current)
    decreases |current|
  {
    if current == [] {
      assert [x] + current == [x] && [x[1..]] + current == [x[1..]];
    } else {
      var init, last := current[..|current| - 1], current[|current| - 1];
      JoinHead(x, init);
      assert [x] + current == ([x] + init) + [last] && [x[1..]] + current == ([x[1..]] + init) + [last];
      LastPart("\n", [x] + init, last);
      LastPart("\n", [x[1..]] + init, last);
    }
  }

  lemma {:induction false} LeadingSpaceOfABlock(lines: seq<string>, x: string, current: seq<string>, inFence: bool)
    requires x != "" && IsSpace(x[0])
    ensures Blocks(lines, [x] + current, inFence) == Blocks(lines, [x[1..]] + current, inFence)
    decreases |lines|
  {
    hide IsSpace, IsFence, StripsToNothing, Join;
    JoinHead(x, current);
    assert Strip(Join("\n", [x] + current)) == Strip(Join("\n", [x[1..]] + current));
    if lines != [] {
      var more := current + [lines[0]];
      assert [x] + current + [lines[0]] == [x] + more && [x[1..]] + current + [lines[0]] == [x[1..]] + more;
      LeadingSpaceOfABlock(lines[1..], x, more, inFence != IsFence(lines[0]));
    }
  }

  lemma LeadingSpaceOfTheFirstLine(line: string, later: seq<string>)
    requires line != "" && IsSpace(line[0])
    ensures Blocks([line] + later, [], false) == Blocks([line[1..]] + later, [], false)
  {
    hide IsSpace, BlockOf;
    var shorter := line[1..];
    assert ([line] + later)[1..] == later && ([shorter] + later)[1..] == later;
    assert StripsToNothing(line) <==> StripsToNothing(shorter) by {
      assert forall i | 0 < i < |line| :: line[i] == shorter[i - 1];
    }
    assert IsFence(line) == IsFence(shorter);
    assert [] + [line] == [line] + [] && [] + [shorter] == [shorter] + [];
    LeadingSpaceOfABlock(later, line, [], IsFence(line));
  }

  lemma LeadingSpaceMakesNoBlock(t: string)
    requires t != "" && IsSpace(t[0])
    ensures BlocksOf(t[1..]) == BlocksOf(t)
  {
    hide IsSpace, IsLineBreak, Blocks, SplitLines;
    var line, gap, rest := FirstBoundary(t);
    if line != "" {
      var shorter := line[1..];
      assert t[1..] == shorter + gap + rest && line[0] == t[0];
      assert forall i | 0 <= i < |shorter| :: shorter[i] == line[i + 1];
      if gap == "" {
        NoLines();
        assert t[1..] == shorter && [line] + SplitLines(rest) == [line] + [];
        OneLine(shorter);
        LeadingSpaceOfTheFirstLine(line, []);
        if shorter == "" {
          assert [shorter] + [] == [shorter];
          ABlankLineAtTheEnd([], shorter, false);
        } else {
          assert [shorter] + [] == [shorter];
        }
      } else {
        SplitsAt(shorter, gap, rest);
        LeadingSpaceOfTheFirstLine(line, SplitLines(rest));
      }
    } else {
      AnEmptyFirstLine(SplitLines(rest));
      if |gap| == 2 {
        CarriageReturnBreaks();
        assert t[1..] == "" + "\n" + rest;
        SplitsAt("", "\n", rest);
      } else {
        assert t[1..] == rest;
      }
    }
  }

  lemma AnEmptyFirstLine(later: seq<string>)
    ensures Blocks([""] + later, [], false) == Blocks(later, [], false)
  {
    assert ([""] + later)[1..] == later;
    NoBlock();
  }

  // Stripping a text changes none of its blocks.
  lemma {:induction false} StripKeepsBlocks(t: string)
    ensures BlocksOf(Strip(t)) == BlocksOf(t)
    decreases |t|
  {
    hide IsSpace, BlocksOf;
    if t != "" {
      if IsSpace(t[0]) {
        LeadingSpaceMakesNoBlock(t);
        StripKeepsBlocks(t[1..]);
      } else if IsSpace(t[|t| - 1]) {
        LessTrailingSpace(t);
        StripKeepsBlocks(t[..|t| - 1]);
      }
    }
  }

  lemma LessTrailingSpace(t: string)
    requires t != "" && IsSpace(t[|t| - 1])
    ensures BlocksOf(t[..|t| - 1]) == BlocksOf(t)
  {
    TrailingSpaceMakesNoBlock(t, [], false);
  }

  // Joining unbroken lines and splitting them again changes none of their blocks.
  lemma {:induction false} JoiningKeepsBlocks(lines: seq<string>, current: seq<string>, inFence: bool)
    requires forall k :: 0 <= k < |lines| ==> Unbroken(lines[k])
    ensures Blocks(SplitLines(Join("\n", lines)), current, inFence) == Blocks(lines, current, inFence)
    decreases |lines|
  {
    hide IsLineBreak, Blocks, SplitLines, Unbroken;
    NoLines();
    if |lines| == 1 {
      OneLine(lines[0]);
      assert lines == [lines[0]];
      if lines[0] == "" {
        ABlankLineAtTheEnd(current, "", inFence);
      }
    } else if |lines| > 1 {
      var first, rest := lines[0], lines[1..];
      var joined := Join("\n", rest);
      JoinFront(first, rest);
      CarriageReturnBreaks();
      SplitsAt(first, "\n", joined);
      forall next: seq<string>, fenced: bool ensures Blocks(SplitLines(joined), next, fenced) == Blocks(rest, next, fenced) {
        JoiningKeepsBlocks(rest, next, fenced);
      }
      OneLineOfBlocks(first, SplitLines(joined), rest, current, inFence);
      assert lines == [first] + rest;
    }
  }

  lemma {:induction false} JoinFront(first: string, rest: seq<string>)
    requires rest != []
    ensures Join("\n", [first] + rest) == first + "\n" + Join("\n", rest)
    decreases |rest|
  {
    var init, last := rest[..|rest| - 1], rest[|rest| - 1];
    assert [first] + rest == ([first] + init) + [last] && rest == init + [last];
    LastPart("\n", [first] + init, last);
    LastPart("\n", init, last);
    if init != [] {
      JoinFront(first, init);
    } else {
      assert [first] + init == [first];
    }
  }

  lemma {:induction false} LinesAreUnbroken(t: string)
    ensures forall k :: 0 <= k < |SplitLines(t)| ==> Unbroken(SplitLines(t)[k])
    decreases |t|
  {
    hide IsLineBreak, Unbroken, SplitLines;
    if t == "" {
      NoLines();
    } else {
      var line, gap, rest := FirstBoundary(t);
      assert |rest| < |t|;
      LinesAreUnbroken(rest);
    }
  }

  // ----- the section of a region

  lemma {:induction false} SectionCloses(part: string, lines: seq<string>, current: seq<string>, inFence: bool)
    returns (extra: seq<string>, k: nat)
    requires Solid(part) && current != [] && Within(part, Join("\n", current))
    ensures extra <= lines && k < |Sections(lines, current, inFence)|
    ensures Sections(lines, current, inFence)[k] == Strip(Join("\n", current + extra))
    decreases |lines|
  {
    hide IsFence, IsHeading, Within, Join;
    StripKeepsSolidParts(part, Join("\n", current));
    NothingWithinNothing(part);
    extra, k := [], 0;
    assert current + extra == current;
    if lines != [] {
      var fenced := inFence != IsFence(lines[0]);
      if fenced || !IsHeading(lines[0]) {
        JoinExtends(part, "\n", current, [lines[0]]);
        extra, k := SectionCloses(part, lines[1..], current + [lines[0]], fenced);
        assert current + [lines[0]] + extra == current + ([lines[0]] + extra);
        extra := [lines[0]] + extra;
      }
    }
  }

  lemma NothingWithinNothing(part: string)
    requires Solid(part)
    ensures !Within(part, "")
  {
  }

  // The region is in one block of one of the sections.
  lemma RegionInOneSectionsBlock(before: seq<string>, region: seq<string>, after: seq<string>, part: string)
    returns (k: nat)
    requires forall i :: 0 <= i < |before + (region + after)| ==> Unbroken((before + (region + after))[i])
    requires !FenceState(before, false) && FencedRegion(region)
    requires Solid(part) && Within(part, Join("\n", region))
    ensures
      var sections := Sections(before + (region + after), [], false);
      k < |sections| && InOne(part, BlocksOf(sections[k]))
  {
    hide IsFence, IsHeading, Sections, Join, Blocks, Unbroken, Within, SplitLines, Strip;
    var lines := before + (region + after);
    var sections, left := SectionsBefore(before, region + after, [], false);
    WholeRegionIsKept(region, after, left);
    JoinEndsWith(part, "\n", left, region);
    var extra, j := SectionCloses(part, after, left + region, false);
    k := |sections| + j;
    var own := left + (region + extra);
    assert left + region + extra == own;
    RegionInOneBlock(left, region, extra, part);
    forall i | 0 <= i < |own| ensures Unbroken(own[i]) {
      OwnLinesAreLines(before, region, after, left, extra, i);
    }
    JoiningKeepsBlocks(own, [], false);
    StripKeepsBlocks(Join("\n", own));
  }

  lemma OwnLinesAreLines(
    before: seq<string>, region: seq<string>, after: seq<string>, left: seq<string>, extra: seq<string>, i: nat)
    requires forall k :: 0 <= k < |before + (region + after)| ==> Unbroken((before + (region + after))[k])
    requires (forall line :: line in left ==> line in before) && extra <= after && i < |left + (region + extra)|
    ensures Unbroken((left + (region + extra))[i])
  {
    hide Unbroken;
    var lines := before + (region + after);
    if i < |left| {
      assert left[i] in left;
      var j :| 0 <= j < |before| && before[j] == left[i];
      assert lines[j] == left[i];
    } else {
      assert lines[|before| + i - |left|] == (left + (region + extra))[i];
    }
  }

  // ----- from sections to chunks

  lemma {:induction false} BlocksOfOneSection(part: string, sections: seq<string>, k: nat)
    requires k < |sections| && InOne(part, BlocksOf(sections[k]))
    ensures InOne(part, AllBlocks(sections))
    decreases |sections|
  {
    hide BlocksOf, Within, InOne;
    if k > 0 {
      BlocksOfOneSection(part, sections[1..], k - 1);
    }
    InOneOfMore(part, BlocksOf(sections[0]), AllBlocks(sections[1..]));
  }

  lemma {:induction false} FittingBlocksReachTheChunks(c: Limits, part: string, sections: seq<string>)
    requires c.Valid() && Solid(part) && InFitting(c, part, AllBlocks(sections))
    ensures InOne(part, AllParagraphs(c, sections))
    decreases |sections|
  {
    hide BlocksOf, Within, InOne, Merge;
    var first, later := BlocksOf(sections[0]), AllBlocks(sections[1..]);
    var k :| 0 <= k < |first + later| && Within(part, (first + later)[k]) && |(first + later)[k]| <= c.size;
    if k < |first| {
      assert first[k] == (first + later)[k];
      FittingBlocksSurvive(c, part, first, [], k);
    } else {
      assert later[k - |first|] == (first + later)[k];
      FittingBlocksReachTheChunks(c, part, sections[1..]);
    }
    InOneOfMore(part, Paragraphs(c, sections[0]), AllParagraphs(c, sections[1..]));
  }

  // A fenced region of any text is in one block, and in one chunk if that block fits.
  lemma FencedRegionsStayInOneChunk(
    c: Limits, text: string, markdown: bool, before: seq<string>, region: seq<string>, after: seq<string>, part: string)
    requires c.Valid() && SplitLines(Strip(Normalise(text))) == before + (region + after)
    requires !FenceState(before, false) && FencedRegion(region)
    requires Solid(part) && Within(part, Join("\n", region))
    ensures InOne(part, AllBlocks(SectionsOf(text, markdown)))
    ensures InFitting(c, part, AllBlocks(SectionsOf(text, markdown))) ==> InOne(part, Contents(c, text, markdown))
  {
    hide IsFence, Sections, Join, Blocks, Within, SplitLines, Strip, InOne, AllBlocks, InFitting, AllParagraphs;
    var normalised := Strip(Normalise(text));
    NoLines();
    assert normalised != "";
    if markdown {
      LinesAreUnbroken(normalised);
      var k := RegionInOneSectionsBlock(before, region, after, part);
      BlocksOfOneSection(part, SectionsOf(text, markdown), k);
    } else {
      FencedRegionsStayWhole(c, normalised, before, region, after, part);
      BlocksOfOneSection(part, [normalised], 0);
    }
    if InFitting(c, part, AllBlocks(SectionsOf(text, markdown))) {
      FittingBlocksReachTheChunks(c, part, SectionsOf(text, markdown));
    }
  }
}
