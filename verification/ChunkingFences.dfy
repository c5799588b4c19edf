/**
  A fenced code block is never cut at its blank lines: it ends up whole in one chunk, unless the block around it is
  longer than the chunk size. Headings inside a fence open no section.
  */
module ChunkingFences {
  import opened Characters
  import opened TextShape
  import opened Chunking

  // ----- which lines open a fence or a section

  ghost predicate Indented(line: string, n: nat, mark: string) {
    n + |mark| <= |line| && (forall i :: 0 <= i < n ==> IsSpace(line[i])) && line[n..n + |mark|] == mark
  }

  // A fence line is one that starts, after white space, with three backquotes or three tildes.
  lemma {:induction false} FenceLines(line: string)
    ensures IsFence(line) <==> exists n: nat :: Indented(line, n, "```") || Indented(line, n, "~~~")
  {
    if line != "" && IsSpace(line[0]) {
      var rest := line[1..];
      FenceLines(rest);
      if n: nat :| Indented(rest, n, "```") || Indented(rest, n, "~~~") {
        OneMoreSpace(line, n, "```");
        OneMoreSpace(line, n, "~~~");
      }
      if n: nat :| Indented(line, n, "```") || Indented(line, n, "~~~") {
        assert line[n] == '`' || line[n] == '~' by {
          assert line[n] == line[n..n + 3][0];
        }
        OneMoreSpace(line, n - 1, "```");
        OneMoreSpace(line, n - 1, "~~~");
      }
    } else if IsFence(line) {
      assert Indented(line, 0, line[..3]);
    }
  }

  lemma OneMoreSpace(line: string, n: nat, mark: string)
    requires line != "" && IsSpace(line[0])
    ensures Indented(line, n + 1, mark) <==> Indented(line[1..], n, mark)
  {
    var rest := line[1..];
    if n + |mark| <= |rest| {
      assert rest[n..n + |mark|] == line[n + 1..n + 1 + |mark|];
      assert forall i :: 0 <= i < n ==> rest[i] == line[i + 1];
      assert forall i :: 0 < i < n + 1 ==> line[i] == rest[i - 1];
    }
  }

  // A heading line is one to six number signs at the start of the line, white space, and something after it.
  lemma HeadingLines(line: string)
    ensures IsHeading(line) <==>
            exists h :: 1 <= h <= 6 && h + 2 <= |line| && (forall i :: 0 <= i < h ==> line[i] == '#') && IsSpace(line[h])
  {
    HashesCount(line);
  }

  lemma {:induction false} HashesCount(line: string)
    ensures forall i :: 0 <= i < Hashes(line) ==> line[i] == '#'
    ensures Hashes(line) < |line| ==> line[Hashes(line)] != '#'
  {
    if line != "" && line[0] == '#' {
      HashesCount(line[1..]);
    }
  }

  // ----- parts of a text

  ghost predicate Within(part: string, whole: string) {
    exists i :: OccursAt(whole, part, i)
  }

  // No white space at either end.
  ghost predicate Solid(part: string) {
    part != "" && !IsSpace(part[0]) && !IsSpace(part[|part| - 1])
  }

  lemma WithinAround(part: string, before: string, middle: string, after: string)
    requires Within(part, middle)
    ensures Within(part, before + middle + after)
  {
    var i :| OccursAt(middle, part, i);
    var whole := before + middle + after;
    assert whole[|before| + i..|before| + i + |part|] == middle[i..i + |part|];
    assert OccursAt(whole, part, |before| + i);
  }

  lemma {:induction false} StripKeepsSolidParts(part: string, t: string)
    requires Solid(part) && Within(part, t)
    ensures Within(part, Strip(t))
    decreases |t|
  {
    hide IsSpace;
    var i :| OccursAt(t, part, i);
    assert t[i] == part[0] && t[i + |part| - 1] == part[|part| - 1];
    if IsSpace(t[0]) {
      assert OccursAt(t[1..], part, i - 1);
      StripKeepsSolidParts(part, t[1..]);
    } else if IsSpace(t[|t| - 1]) {
      assert OccursAt(t[..|t| - 1], part, i);
      StripKeepsSolidParts(part, t[..|t| - 1]);
    }
  }

  lemma {:induction false} JoinExtends(part: string, separator: string, a: seq<string>, b: seq<string>)
    requires a != [] && Within(part, Join(separator, a))
    ensures Within(part, Join(separator, a + b))
    decreases |b|
  {
    hide Join;
    if b == [] {
      assert a + b == a;
    } else {
      var init, last := b[..|b| - 1], b[|b| - 1];
      JoinExtends(part, separator, a, init);
      assert a + b == (a + init) + [last];
      LastPart(separator, a + init, last);
      WithinAround(part, "", Join(separator, a + init), separator + last);
      assert Join(separator, a + b) == "" + Join(separator, a + init) + (separator + last);
    }
  }

  // The last parts of a joined list.
  lemma {:induction false} JoinEndsWith(part: string, separator: string, a: seq<string>, b: seq<string>)
    requires b != [] && Within(part, Join(separator, b))
    ensures Within(part, Join(separator, a + b))
    decreases |b|
  {
    var at := JoinSplits(separator, a, b);
    WithinAround(part, at, Join(separator, b), "");
    assert Join(separator, a + b) == at + Join(separator, b) + "";
  }

  lemma {:induction false} JoinSplits(separator: string, a: seq<string>, b: seq<string>) returns (at: string)
    requires b != []
    ensures Join(separator, a + b) == at + Join(separator, b)
    decreases |b|
  {
    var init, last := b[..|b| - 1], b[|b| - 1];
    assert a + b == (a + init) + [last] && b == init + [last];
    LastPart(separator, a + init, last);
    LastPart(separator, init, last);
    hide Join;
    if |b| == 1 {
      assert init == [] && a + init == a;
      at := if a == [] then "" else Join(separator, a) + separator;
    } else {
      at := JoinSplits(separator, a, init);
    }
  }

  lemma LastPart(separator: string, parts: seq<string>, last: string)
    ensures Join(separator, parts + [last])
            == (if parts == [] then "" else Join(separator, parts) + separator) + last
  {
    assert (parts + [last])[..|parts|] == parts;
  }

  // ----- fences

  function FenceState(lines: seq<string>, inFence: bool): bool {
    if lines == [] then inFence else FenceState(lines[1..], inFence != IsFence(lines[0]))
  }

  // An opening fence line, lines that are not fences, and the closing fence line.
  ghost predicate FencedRegion(run: seq<string>) {
    && |run| >= 2 && IsFence(run[0]) && IsFence(run[|run| - 1])
    && forall k :: 0 < k < |run| - 1 ==> !IsFence(run[k])
  }

  lemma {:induction false} FenceLinesAreNotBlank(line: string)
    requires IsFence(line)
    ensures !StripsToNothing(line)
  {
    if line != "" && IsSpace(line[0]) {
      FenceLinesAreNotBlank(line[1..]);
      assert forall i | 0 < i < |line| :: line[i] == line[1..][i - 1];
    }
  }

  // The rest of a region, from inside it, goes to the current block and the current section whole.
  lemma {:induction false} RegionIsKept(run: seq<string>, rest: seq<string>, current: seq<string>)
    requires run != [] && IsFence(run[|run| - 1]) && forall k :: 0 <= k < |run| - 1 ==> !IsFence(run[k])
    ensures Blocks(run + rest, current, true) == Blocks(rest, current + run, false)
    ensures Sections(run + rest, current, true) == Sections(rest, current + run, false)
    decreases |run|
  {
    hide IsFence, StripsToNothing, IsHeading;
    var line, later := run[0], run[1..];
    assert (run + rest)[0] == line && (run + rest)[1..] == later + rest;
    assert current + run == current + [line] + later;
    if later == [] {
      assert later + rest == rest && current + run == current + [line];
      FenceLinesAreNotBlank(line);
      FenceIsNoHeading(line);
    } else {
      RegionIsKept(later, rest, current + [line]);
    }
  }

  lemma FenceIsNoHeading(line: string)
    requires IsFence(line)
    ensures !IsHeading(line)
  {
  }

  lemma WholeRegionIsKept(run: seq<string>, rest: seq<string>, current: seq<string>)
    requires FencedRegion(run)
    ensures Blocks(run + rest, current, false) == Blocks(rest, current + run, false)
    ensures Sections(run + rest, current, false) == Sections(rest, current + run, false)
  {
    hide IsFence, StripsToNothing, IsHeading;
    assert (run + rest)[0] == run[0] && (run + rest)[1..] == run[1..] + rest;
    assert current + run == current + [run[0]] + run[1..];
    RegionIsKept(run[1..], rest, current + [run[0]]);
  }

  // ----- blocks

  lemma {:induction false} BlocksBefore(before: seq<string>, rest: seq<string>, current: seq<string>, inFence: bool)
    returns (blocks: seq<string>, left: seq<string>)
    ensures Blocks(before + rest, current, inFence) == blocks + Blocks(rest, left, FenceState(before, inFence))
    decreases |before|
  {
    hide IsFence, StripsToNothing, BlockOf;
    if before == [] {
      blocks, left := [], current;
      assert before + rest == rest;
    } else {
      var fenced := inFence != IsFence(before[0]);
      assert (before + rest)[0] == before[0] && (before + rest)[1..] == before[1..] + rest;
      if !fenced && StripsToNothing(before[0]) {
        blocks, left := BlocksBefore(before[1..], rest, [], fenced);
        blocks := BlockOf(current) + blocks;
      } else {
        blocks, left := BlocksBefore(before[1..], rest, current + [before[0]], fenced);
      }
    }
  }

  // Outside fences a blank line separates: the blocks before it and the blocks after it are independent.
  lemma {:induction false} BlankLinesSeparate(
    before: seq<string>, blank: string, after: seq<string>, current: seq<string>, inFence: bool)
    requires !FenceState(before, inFence) && StripsToNothing(blank)
    ensures Blocks(before + ([blank] + after), current, inFence) == Blocks(before, current, inFence) + Blocks(after, [], false)
    decreases |before|
  {
    hide StripsToNothing, BlockOf, IsFence;
    var all := before + ([blank] + after);
    if before == [] {
      BlankIsNoFence(blank);
      assert all == [blank] + after && all[0] == blank && all[1..] == after;
    } else {
      var fenced := inFence != IsFence(before[0]);
      assert all[0] == before[0] && all[1..] == before[1..] + ([blank] + after);
      if !fenced && StripsToNothing(before[0]) {
        BlankLinesSeparate(before[1..], blank, after, [], fenced);
        assert BlockOf(current) + (Blocks(before[1..], [], fenced) + Blocks(after, [], false))
            == BlockOf(current) + Blocks(before[1..], [], fenced) + Blocks(after, [], false);
      } else {
        BlankLinesSeparate(before[1..], blank, after, current + [before[0]], fenced);
      }
    }
  }

  lemma BlankIsNoFence(line: string)
    requires StripsToNothing(line)
    ensures !IsFence(line)
  {
    hide IsFence, StripsToNothing;
    if IsFence(line) {
      FenceLinesAreNotBlank(line);
    }
  }

  // Outside fences a heading opens a section, which starts with the heading line.
  lemma {:induction false} HeadingsOpenSections(
    before: seq<string>, heading: string, after: seq<string>, current: seq<string>, inFence: bool)
    requires !FenceState(before, inFence) && IsHeading(heading)
    ensures Sections(before + ([heading] + after), current, inFence)
            == Sections(before, current, inFence) + Sections(after, [heading], false)
    decreases |before|
  {
    hide IsHeading, BlockOf, IsFence;
    var all := before + ([heading] + after);
    if before == [] {
      HeadingIsNoFence(heading);
      assert all == [heading] + after && all[0] == heading && all[1..] == after;
    } else {
      var fenced := inFence != IsFence(before[0]);
      assert all[0] == before[0] && all[1..] == before[1..] + ([heading] + after);
      if !fenced && IsHeading(before[0]) {
        HeadingsOpenSections(before[1..], heading, after, [before[0]], fenced);
        assert BlockOf(current) + (Sections(before[1..], [before[0]], fenced) + Sections(after, [heading], false))
            == BlockOf(current) + Sections(before[1..], [before[0]], fenced) + Sections(after, [heading], false);
      } else {
        HeadingsOpenSections(before[1..], heading, after, current + [before[0]], fenced);
      }
    }
  }

  lemma HeadingIsNoFence(line: string)
    requires IsHeading(line)
    ensures !IsFence(line)
  {
  }

  ghost predicate InOne(part: string, wholes: seq<string>) {
    exists k :: 0 <= k < |wholes| && Within(part, wholes[k])
  }

  lemma InOneOfMore(part: string, a: seq<string>, b: seq<string>)
    requires InOne(part, a) || InOne(part, b)
    ensures InOne(part, a + b)
  {
    if InOne(part, a) {
      var k :| 0 <= k < |a| && Within(part, a[k]);
      assert (a + b)[k] == a[k];
    } else {
      var k :| 0 <= k < |b| && Within(part, b[k]);
      assert (a + b)[|a| + k] == b[k];
    }
  }

  lemma CurrentIsEmitted(part: string, current: seq<string>)
    requires Solid(part)
    ensures Within(part, Join("\n", current)) ==> InOne(part, BlockOf(current))
    ensures Within(part, Join("\n\n", current)) ==> InOne(part, ContentOf(current))
  {
    if Within(part, Join("\n", current)) {
      StripKeepsSolidParts(part, Join("\n", current));
      assert Within(part, BlockOf(current)[0]);
    }
    if Within(part, Join("\n\n", current)) {
      StripKeepsSolidParts(part, Join("\n\n", current));
      assert Within(part, ContentOf(current)[0]);
    }
  }

  lemma {:induction false} OpenBlockSurvives(part: string, lines: seq<string>, current: seq<string>, inFence: bool)
    requires Solid(part) && current != [] && Within(part, Join("\n", current))
    ensures InOne(part, Blocks(lines, current, inFence))
    decreases |lines|
  {
    hide IsFence, StripsToNothing, BlockOf, Within, InOne, Join;
    CurrentIsEmitted(part, current);
    if lines != [] {
      var fenced := inFence != IsFence(lines[0]);
      if !fenced && StripsToNothing(lines[0]) {
        InOneOfMore(part, BlockOf(current), Blocks(lines[1..], [], fenced));
      } else {
        JoinExtends(part, "\n", current, [lines[0]]);
        OpenBlockSurvives(part, lines[1..], current + [lines[0]], fenced);
      }
    }
  }

  // ----- chunks

  lemma {:induction false} OpenChunkSurvives(c: Limits, part: string, blocks: seq<string>, current: seq<string>)
    requires c.Valid() && Solid(part) && current != [] && Within(part, Join("\n\n", current))
    ensures InOne(part, Merge(c, blocks, current))
    decreases |blocks|
  {
    hide FixedWindow, ContentOf, Within, InOne, Join, Strip;
    CurrentIsEmitted(part, current);
    if blocks != [] {
      if |blocks[0]| > c.size {
        InOneOfMore(part, ContentOf(current), FixedWindow(c, blocks[0]));
        InOneOfMore(part, ContentOf(current) + FixedWindow(c, blocks[0]), Merge(c, blocks[1..], []));
      } else if |Strip(Join("\n\n", current + [blocks[0]]))| > c.size {
        InOneOfMore(part, ContentOf(current), Merge(c, blocks[1..], [blocks[0]]));
      } else {
        JoinExtends(part, "\n\n", current, [blocks[0]]);
        OpenChunkSurvives(c, part, blocks[1..], current + [blocks[0]]);
      }
    }
  }

  lemma {:induction false} FittingBlocksSurvive(c: Limits, part: string, blocks: seq<string>, current: seq<string>, k: nat)
    requires c.Valid() && Solid(part) && k < |blocks| && |blocks[k]| <= c.size && Within(part, blocks[k])
    ensures InOne(part, Merge(c, blocks, current))
    decreases |blocks|
  {
    hide FixedWindow, ContentOf, Within, InOne, Join, Strip;
    var b, rest := blocks[0], blocks[1..];
    if k == 0 {
      SingleJoin(b);
      JoinEndsWith(part, "\n\n", current, [b]);
      OpenChunkSurvives(c, part, rest, [b]);
      OpenChunkSurvives(c, part, rest, current + [b]);
      InOneOfMore(part, ContentOf(current), Merge(c, rest, [b]));
    } else {
      assert rest[k - 1] == blocks[k];
      FittingBlocksSurvive(c, part, rest, [], k - 1);
      FittingBlocksSurvive(c, part, rest, [b], k - 1);
      FittingBlocksSurvive(c, part, rest, current + [b], k - 1);
      InOneOfMore(part, ContentOf(current) + FixedWindow(c, b), Merge(c, rest, []));
      InOneOfMore(part, ContentOf(current), Merge(c, rest, [b]));
    }
  }

  lemma SingleJoin(b: string)
    ensures Join("\n\n", [b]) == b
  {
  }

  ghost predicate InFitting(c: Limits, part: string, blocks: seq<string>) {
    exists k :: 0 <= k < |blocks| && Within(part, blocks[k]) && |blocks[k]| <= c.size
  }

  lemma RegionInOneBlock(before: seq<string>, region: seq<string>, after: seq<string>, part: string)
    requires !FenceState(before, false) && FencedRegion(region)
    requires Solid(part) && Within(part, Join("\n", region))
    ensures InOne(part, Blocks(before + (region + after), [], false))
  {
    hide IsFence, StripsToNothing, Blocks, Join;
    var blocks, left := BlocksBefore(before, region + after, [], false);
    WholeRegionIsKept(region, after, left);
    JoinEndsWith(part, "\n", left, region);
    OpenBlockSurvives(part, after, left + region, false);
    InOneOfMore(part, blocks, Blocks(after, left + region, false));
  }

  // The text of a fenced region stays in one block, and in one chunk if its block fits, whatever the other blocks.
  lemma FencedRegionsStayWhole(
    c: Limits, t: string, before: seq<string>, region: seq<string>, after: seq<string>, part: string)
    requires c.Valid() && SplitLines(t) == before + (region + after)
    requires !FenceState(before, false) && FencedRegion(region)
    requires Solid(part) && Within(part, Join("\n", region))
    ensures InOne(part, BlocksOf(t))
    ensures InFitting(c, part, BlocksOf(t)) ==> InOne(part, Paragraphs(c, t))
  {
    hide IsFence, StripsToNothing, Blocks, Merge, SplitLines, Join, Within;
    RegionInOneBlock(before, region, after, part);
    if InFitting(c, part, BlocksOf(t)) {
      var k :| 0 <= k < |BlocksOf(t)| && Within(part, BlocksOf(t)[k]) && |BlocksOf(t)[k]| <= c.size;
      FittingBlocksSurvive(c, part, BlocksOf(t), [], k);
    }
  }

  lemma {:induction false} SectionsBefore(before: seq<string>, rest: seq<string>, current: seq<string>, inFence: bool)
    returns (sections: seq<string>, left: seq<string>)
    requires FenceState(current, false) == inFence
    ensures Sections(before + rest, current, inFence) == sections + Sections(rest, left, FenceState(before, inFence))
    ensures FenceState(left, false) == FenceState(before, inFence)
    ensures forall line :: line in left ==> line in current || line in before
    decreases |before|
  {
    hide IsFence, IsHeading, BlockOf;
    if before == [] {
      sections, left := [], current;
      assert before + rest == rest;
    } else {
      var fenced := inFence != IsFence(before[0]);
      assert (before + rest)[0] == before[0] && (before + rest)[1..] == before[1..] + rest;
      if !fenced && IsHeading(before[0]) {
        HeadingIsNoFence(before[0]);
        sections, left := SectionsBefore(before[1..], rest, [before[0]], fenced);
        sections := BlockOf(current) + sections;
      } else {
        OneLineMore(current, before[0], false);
        sections, left := SectionsBefore(before[1..], rest, current + [before[0]], fenced);
      }
    }
  }

  lemma {:induction false} OneLineMore(lines: seq<string>, line: string, inFence: bool)
    ensures FenceState(lines + [line], inFence) == (FenceState(lines, inFence) != IsFence(line))
    decreases |lines|
  {
    hide IsFence;
    if lines == [] {
      assert lines + [line] == [line] && [line][1..] == [];
    } else {
      OneLineMore(lines[1..], line, inFence != IsFence(lines[0]));
      assert (lines + [line])[1..] == lines[1..] + [line];
    }
  }

  lemma {:induction false} OpenSectionSurvives(part: string, lines: seq<string>, current: seq<string>, inFence: bool)
    requires Solid(part) && current != [] && Within(part, Join("\n", current))
    ensures InOne(part, Sections(lines, current, inFence))
    decreases |lines|
  {
    hide IsFence, IsHeading, BlockOf, Within, InOne, Join;
    CurrentIsEmitted(part, current);
    if lines != [] {
      var fenced := inFence != IsFence(lines[0]);
      if !fenced && IsHeading(lines[0]) {
        InOneOfMore(part, BlockOf(current), Sections(lines[1..], [lines[0]], fenced));
      } else {
        JoinExtends(part, "\n", current, [lines[0]]);
        OpenSectionSurvives(part, lines[1..], current + [lines[0]], fenced);
      }
    }
  }

  // What looks like a heading inside a fence does not end the section: the region stays in one section.
  lemma FencedRegionsStayInOneSection(before: seq<string>, region: seq<string>, after: seq<string>, part: string)
    requires !FenceState(before, false) && FencedRegion(region)
    requires Solid(part) && Within(part, Join("\n", region))
    ensures InOne(part, Sections(before + (region + after), [], false))
  {
    hide IsFence, IsHeading, Sections, Join;
    var sections, left := SectionsBefore(before, region + after, [], false);
    WholeRegionIsKept(region, after, left);
    JoinEndsWith(part, "\n", left, region);
    OpenSectionSurvives(part, after, left + region, false);
    InOneOfMore(part, sections, Sections(after, left + region, false));
  }
}
