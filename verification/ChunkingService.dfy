/** ChunkingService as loops that append to lists; every loop computes the function of the same purpose in Chunking. */
module ChunkingService {
  import opened Wrappers
  import opened Characters
  import opened TextShape
  import opened Chunking
  import opened SectionPaths

  // An empty section path stands for an absent one.
  datatype ChunkPayload = ChunkPayload(content: string, sectionPath: string, chunkIndex: Option<nat>)

  function Payloads(contents: seq<string>, sectionPath: string): (r: seq<ChunkPayload>)
    ensures |r| == |contents|
    ensures forall k :: 0 <= k < |r| ==> r[k] == ChunkPayload(contents[k], sectionPath, None)
  {
    seq(|contents|, k requires 0 <= k < |contents| => ChunkPayload(contents[k], sectionPath, None))
  }

  lemma PayloadsConcat(x: seq<string>, y: seq<string>, sectionPath: string)
    ensures Payloads(x + y, sectionPath) == Payloads(x, sectionPath) + Payloads(y, sectionPath)
    ensures Payloads([], sectionPath) == []
  {
  }

  // The chunks of every section under that section's path.
  function AllPayloads(c: Limits, sections: seq<string>, paths: seq<string>): seq<ChunkPayload>
    requires c.Valid() && |sections| == |paths|
  {
    if sections == [] then []
    else Payloads(Paragraphs(c, sections[0]), paths[0]) + AllPayloads(c, sections[1..], paths[1..])
  }

  function PathsOf(text: string, markdown: bool): (paths: seq<string>)
    ensures |paths| == |SectionsOf(text, markdown)|
  {
    var normalised := Strip(Normalise(text));
    if normalised == "" then []
    else if markdown then
      OnePathPerSection(SplitLines(normalised), [], false, []);
      Paths(SplitLines(normalised), [], false, [])
    else [""]
  }

  lemma {:induction false} PayloadsCarryTheContents(c: Limits, sections: seq<string>, paths: seq<string>)
    requires c.Valid() && |sections| == |paths|
    ensures |AllPayloads(c, sections, paths)| == |AllParagraphs(c, sections)|
    ensures forall k :: 0 <= k < |AllPayloads(c, sections, paths)| ==>
                          AllPayloads(c, sections, paths)[k].content == AllParagraphs(c, sections)[k]
    decreases |sections|
  {
    hide Paragraphs;
    if sections != [] {
      PayloadsCarryTheContents(c, sections[1..], paths[1..]);
    }
  }

  // A chunk carries the path of the section it was cut from.
  lemma {:induction false} PayloadsCarryTheirPath(c: Limits, sections: seq<string>, paths: seq<string>, k: nat)
    returns (i: nat, j: nat)
    requires c.Valid() && |sections| == |paths| && k < |AllPayloads(c, sections, paths)|
    ensures i < |sections| && j < |Paragraphs(c, sections[i])|
    ensures AllPayloads(c, sections, paths)[k] == ChunkPayload(Paragraphs(c, sections[i])[j], paths[i], None)
    decreases |sections|
  {
    hide Paragraphs;
    var first := Payloads(Paragraphs(c, sections[0]), paths[0]);
    if k < |first| {
      i, j := 0, k;
    } else {
      i, j := PayloadsCarryTheirPath(c, sections[1..], paths[1..], k - |first|);
      i := i + 1;
    }
  }

  // In a Markdown text whose headings all nest, every chunk shows the outline at the last heading before its section.
  lemma ChunksShowTheOutline(c: Limits, text: string, k: nat) returns (n: nat)
    requires c.Valid() && k < |AllPayloads(c, SectionsOf(text, true), PathsOf(text, true))|
    requires AllNest(Headings(SplitLines(Strip(Normalise(text))), false))
    ensures
      var hs := Headings(SplitLines(Strip(Normalise(text))), false);
      n <= |hs| && AllPayloads(c, SectionsOf(text, true), PathsOf(text, true))[k].sectionPath == Path(Outline(hs[..n]))
  {
    hide Paragraphs, SplitLines, Strip, Normalise, Sections, Paths, Path, Outline, Stack, AllNest, AllPayloads;
    var lines := SplitLines(Strip(Normalise(text)));
    var hs := Headings(lines, false);
    var i, j := PayloadsCarryTheirPath(c, SectionsOf(text, true), PathsOf(text, true), k);
    n := PathsAreStacks(lines, [], false, [], i);
    StacksAreOutlinesIff(hs);
    assert AgreesAt(hs, n);
  }

  lemma {:induction false} AllPayloadsConcat(
    c: Limits, x: seq<string>, xPaths: seq<string>, y: seq<string>, yPaths: seq<string>)
    requires c.Valid() && |x| == |xPaths| && |y| == |yPaths|
    ensures AllPayloads(c, x + y, xPaths + yPaths) == AllPayloads(c, x, xPaths) + AllPayloads(c, y, yPaths)
    decreases |x|
  {
    hide Paragraphs;
    if x == [] {
      assert x + y == y && xPaths + yPaths == yPaths;
    } else {
      AllPayloadsConcat(c, x[1..], xPaths[1..], y, yPaths);
      assert (x + y)[1..] == x[1..] + y && (xPaths + yPaths)[1..] == xPaths[1..] + yPaths;
    }
  }

  // What is still to come of a Markdown text: lines, the section being collected, and the open headings.
  function MarkdownFrom(c: Limits, lines: seq<string>, current: seq<string>, inFence: bool, open: seq<Heading>)
    : seq<ChunkPayload>
    requires c.Valid()
  {
    OnePathPerSection(lines, current, inFence, open);
    AllPayloads(c, Sections(lines, current, inFence), Paths(lines, current, inFence, open))
  }

  function Flushed(c: Limits, current: seq<string>, open: seq<Heading>): seq<ChunkPayload>
    requires c.Valid()
  {
    OneLabelPerBlock(current, open);
    AllPayloads(c, BlockOf(current), Label(current, open))
  }

  lemma NoHeadings()
    ensures Path([]) == ""
  {
  }

  lemma MarkdownStep(c: Limits, lines: seq<string>, current: seq<string>, inFence: bool, open: seq<Heading>)
    requires c.Valid()
    ensures
      if lines == [] then MarkdownFrom(c, lines, current, inFence, open) == Flushed(c, current, open)
      else
        var fenced := inFence != IsFence(lines[0]);
        MarkdownFrom(c, lines, current, inFence, open)
        == if !fenced && IsHeading(lines[0]) then
             Flushed(c, current, open)
             + MarkdownFrom(c, lines[1..], [lines[0]], fenced, Opened(open, HeadingOf(lines[0])))
           else MarkdownFrom(c, lines[1..], current + [lines[0]], fenced, open)
  {
    hide IsFence, IsHeading, BlockOf, Label, HeadingOf, Opened, AllPayloads;
    OneLabelPerBlock(current, open);
    if lines != [] {
      var fenced := inFence != IsFence(lines[0]);
      if !fenced && IsHeading(lines[0]) {
        var deeper := Opened(open, HeadingOf(lines[0]));
        OnePathPerSection(lines[1..], [lines[0]], fenced, deeper);
        AllPayloadsConcat(c, BlockOf(current), Label(current, open),
          Sections(lines[1..], [lines[0]], fenced), Paths(lines[1..], [lines[0]], fenced, deeper));
      }
    }
  }

  function NonEmpty(parts: seq<string>): seq<string> {
    if parts == [] then [] else NonEmpty(parts[..|parts| - 1]) + if parts[|parts| - 1] == "" then [] else [parts[|parts| - 1]]
  }

  lemma NonEmptyOneMore(parts: seq<string>, last: string)
    ensures NonEmpty(parts + [last]) == NonEmpty(parts) + if last == "" then [] else [last]
  {
    assert (parts + [last])[..|parts|] == parts;
  }

  lemma NothingToEmit()
    ensures BlockOf([]) == [] && ContentOf([]) == []
  {
  }

  lemma {:induction false} MorePieces(c: Limits, t: string, start: nat)
    requires c.Valid() && start < |t|
    ensures
      var end := WindowEnd(c, t, start);
      var piece := Strip(t[start..end]);
      Pieces(t, Windows(c, t, start))
      == (if piece == "" then [] else [piece]) + if end == |t| then [] else Pieces(t, Windows(c, t, end - c.overlap))
  {
    hide WindowEnd, Strip, Pieces;
    var end := WindowEnd(c, t, start);
    var later: seq<Window> := if end == |t| then [] else Windows(c, t, end - c.overlap);
    assert Windows(c, t, start) == [Window(start, end)] + later;
    OnePieceMore(t, Window(start, end), later);
  }

  lemma OnePieceMore(t: string, first: Window, later: seq<Window>)
    requires first.start <= first.end <= |t|
    requires forall k :: 0 <= k < |later| ==> later[k].start <= later[k].end <= |t|
    ensures
      var piece := Strip(t[first.start..first.end]);
      Pieces(t, [first] + later) == (if piece == "" then [] else [piece]) + Pieces(t, later)
    ensures Pieces(t, []) == []
  {
    hide Strip;
    assert ([first] + later)[1..] == later;
  }

  lemma Reassociate(a: seq<string>, b: seq<string>, c: seq<string>, d: seq<string>)
    ensures a + (b + c + d) == a + b + c + d
    ensures a + (b + d) == a + b + d
    ensures a + ([] + d) == a + d
  {
  }

  class ChunkingService {
    const limits: Limits

    constructor (chunkSize: int, chunkOverlap: int)
      ensures limits == Configure(chunkSize, chunkOverlap)
    {
      limits := Configure(chunkSize, chunkOverlap);
    }

    method ParagraphBlocks(t: string) returns (blocks: seq<string>)
      ensures blocks == BlocksOf(t)
    {
      hide IsFence, StripsToNothing, BlockOf, SplitLines;
      var lines := SplitLines(t);
      var found: seq<string> := [];
      var current: seq<string> := [];
      var inFence := false;
      NothingToEmit();
      for k := 0 to |lines|
        invariant NonEmpty(found) + Blocks(lines[k..], current, inFence) == BlocksOf(t)
      {
        assert lines[k..][0] == lines[k] && lines[k..][1..] == lines[k + 1..];
        if IsFence(lines[k]) {
          inFence := !inFence;
        }
        if !inFence && StripsToNothing(lines[k]) {
          if current != [] {
            EmitBlock(found, current);
            found := found + [Strip(Join("\n", current))];
            current := [];
          }
        } else {
          current := current + [lines[k]];
        }
      }
      if current != [] {
        EmitBlock(found, current);
        found := found + [Strip(Join("\n", current))];
      }
      blocks := DropEmpty(found);
    }

    static lemma EmitBlock(found: seq<string>, current: seq<string>)
      ensures NonEmpty(found + [Strip(Join("\n", current))]) == NonEmpty(found) + BlockOf(current)
    {
      NonEmptyOneMore(found, Strip(Join("\n", current)));
    }

    static method DropEmpty(parts: seq<string>) returns (kept: seq<string>)
      ensures kept == NonEmpty(parts)
    {
      kept := [];
      for k := 0 to |parts|
        invariant kept == NonEmpty(parts[..k])
      {
        assert parts[..k + 1][..k] == parts[..k];
        if parts[k] != "" {
          kept := kept + [parts[k]];
        }
      }
      assert parts[..|parts|] == parts;
    }

    method SplitFixedWindow(t: string) returns (chunks: seq<string>)
      requires limits.Valid()
      ensures chunks == FixedWindow(limits, t)
    {
      hide Pieces, Windows, Strip, Normalise, Boundary;
      var text := Strip(Normalise(t));
      if text == "" {
        return [];
      }
      chunks := [];
      var start := 0;
      while start < |text|
        invariant 0 <= start < |text|
        invariant chunks + Pieces(text, Windows(limits, text, start)) == FixedWindow(limits, t)
        decreases |text| - start
      {
        MorePieces(limits, text, start);
        var end := if start + limits.size < |text| then start + limits.size else |text|;
        if end < |text| {
          var boundary := LastBoundary(text, start, end);
          if boundary > start + limits.size / 2 {
            end := boundary + 1;
          }
        }
        assert end == WindowEnd(limits, text, start);
        ghost var before := chunks;
        var piece := Strip(text[start..end]);
        if piece != "" {
          chunks := chunks + [piece];
        }
        assert chunks + (if end == |text| then [] else Pieces(text, Windows(limits, text, end - limits.overlap)))
            == before + Pieces(text, Windows(limits, text, start));
        if end >= |text| {
          break;
        }
        var nextStart := end - limits.overlap;
        if nextStart <= start {
          nextStart := end;
        }
        start := nextStart;
      }
    }

    static method LastBoundary(t: string, start: nat, end: nat) returns (boundary: int)
      requires start <= end <= |t|
      ensures boundary == Boundary(t, start, end)
    {
      hide RFind;
      var candidates := [RFind(t, "\n\n", start, end), RFind(t, "\n", start, end), RFind(t, "\U{3002}", start, end),
                         RFind(t, ".", start, end), RFind(t, " ", start, end)];
      boundary := candidates[0];
      for k := 1 to |candidates|
        invariant forall i :: 0 <= i < k ==> candidates[i] <= boundary
        invariant boundary in candidates
      {
        if candidates[k] > boundary {
          boundary := candidates[k];
        }
      }
      assert candidates[0] <= boundary && candidates[1] <= boundary && candidates[2] <= boundary;
      assert candidates[3] <= boundary && candidates[4] <= boundary;
    }

    static method FlushCurrent(chunks: seq<ChunkPayload>, current: seq<string>, sectionPath: string)
      returns (more: seq<ChunkPayload>)
      ensures more == chunks + Payloads(ContentOf(current), sectionPath)
    {
      var content := Strip(Join("\n\n", current));
      more := chunks;
      if content != "" {
        more := more + [ChunkPayload(content, sectionPath, None)];
      }
    }

    method SplitParagraphs(t: string, sectionPath: string) returns (chunks: seq<ChunkPayload>)
      requires limits.Valid()
      ensures chunks == Payloads(Paragraphs(limits, t), sectionPath)
    {
      hide Strip, Join, ContentOf, FixedWindow, BlocksOf, Payloads;
      var blocks := ParagraphBlocks(t);
      chunks := [];
      ghost var contents: seq<string> := [];
      var current: seq<string> := [];
      for k := 0 to |blocks|
        invariant chunks == Payloads(contents, sectionPath)
        invariant contents + Merge(limits, blocks[k..], current) == Paragraphs(limits, t)
      {
        assert blocks[k..][0] == blocks[k] && blocks[k..][1..] == blocks[k + 1..];
        ghost var before := contents;
        if |blocks[k]| > limits.size {
          chunks := FlushCurrent(chunks, current, sectionPath);
          ghost var flushed := ContentOf(current);
          current := [];
          var pieces := SplitFixedWindow(blocks[k]);
          contents := before + flushed + pieces;
          chunks := AppendPieces(chunks, pieces, sectionPath);
          PayloadsConcat(before, flushed, sectionPath);
          PayloadsConcat(before + flushed, pieces, sectionPath);
          Reassociate(before, flushed, pieces, Merge(limits, blocks[k + 1..], []));
        } else {
          var candidate := Strip(Join("\n\n", current + [blocks[k]]));
          if current != [] && |candidate| > limits.size {
            chunks := FlushCurrent(chunks, current, sectionPath);
            contents := before + ContentOf(current);
            PayloadsConcat(before, ContentOf(current), sectionPath);
            Reassociate(before, ContentOf(current), [], Merge(limits, blocks[k + 1..], [blocks[k]]));
            current := [];
            assert current + [blocks[k]] == [blocks[k]];
          }
          current := current + [blocks[k]];
        }
      }
      chunks := FlushCurrent(chunks, current, sectionPath);
      PayloadsConcat(contents, ContentOf(current), sectionPath);
    }

    static method AppendPieces(chunks: seq<ChunkPayload>, pieces: seq<string>, sectionPath: string)
      returns (more: seq<ChunkPayload>)
      ensures more == chunks + Payloads(pieces, sectionPath)
    {
      more := chunks;
      for j := 0 to |pieces|
        invariant more == chunks + Payloads(pieces[..j], sectionPath)
      {
        PayloadsConcat(pieces[..j], [pieces[j]], sectionPath);
        assert pieces[..j + 1] == pieces[..j] + [pieces[j]];
        more := more + [ChunkPayload(pieces[j], sectionPath, None)];
      }
      assert pieces[..|pieces|] == pieces;
    }

    method FlushSection(
      chunks: seq<ChunkPayload>, sectionLines: seq<string>, sectionPath: string, ghost open: seq<Heading>)
      returns (more: seq<ChunkPayload>)
      requires limits.Valid() && sectionPath == Path(open)
      ensures more == chunks + Flushed(limits, sectionLines, open)
    {
      hide Strip, Join, Paragraphs;
      var sectionText := Strip(Join("\n", sectionLines));
      more := chunks;
      if sectionText != "" {
        var found := SplitParagraphs(sectionText, sectionPath);
        assert AllPayloads(limits, [sectionText], [sectionPath]) == found + AllPayloads(limits, [], []);
        more := more + found;
      }
    }

    method SplitMarkdown(t: string) returns (chunks: seq<ChunkPayload>)
      requires limits.Valid()
      ensures chunks == MarkdownFrom(limits, SplitLines(t), [], false, [])
    {
      hide IsFence, IsHeading, BlockOf, SplitLines, AllPayloads, MarkdownFrom, Flushed, HeadingOf, Path, Sections, Paths;
      NoHeadings();
      var lines := SplitLines(t);
      chunks := [];
      var headingStack: seq<Heading> := [];
      var sectionLines: seq<string> := [];
      var sectionPath := "";
      var inFence := false;
      for k := 0 to |lines|
        invariant sectionPath == Path(headingStack)
        invariant chunks + MarkdownFrom(limits, lines[k..], sectionLines, inFence, headingStack)
               == MarkdownFrom(limits, lines, [], false, [])
      {
        assert lines[k..][0] == lines[k] && lines[k..][1..] == lines[k + 1..];
        MarkdownStep(limits, lines[k..], sectionLines, inFence, headingStack);
        ghost var before := chunks;
        if IsFence(lines[k]) {
          inFence := !inFence;
        }
        var isHeading := if !inFence then IsHeading(lines[k]) else false;
        if isHeading {
          assert before + (Flushed(limits, sectionLines, headingStack)
            + MarkdownFrom(limits, lines[k + 1..], [lines[k]], false, Opened(headingStack, HeadingOf(lines[k]))))
            == before + Flushed(limits, sectionLines, headingStack)
            + MarkdownFrom(limits, lines[k + 1..], [lines[k]], false, Opened(headingStack, HeadingOf(lines[k])));
          chunks := FlushSection(chunks, sectionLines, sectionPath, headingStack);
          sectionLines := [];
          var heading := HeadingOf(lines[k]);
          if heading.level - 1 < |headingStack| {
            headingStack := headingStack[..heading.level - 1];
          }
          headingStack := headingStack + [heading];
          sectionPath := Path(headingStack);
          assert sectionLines + [lines[k]] == [lines[k]];
        }
        sectionLines := sectionLines + [lines[k]];
      }
      MarkdownStep(limits, lines[|lines|..], sectionLines, inFence, headingStack);
      chunks := FlushSection(chunks, sectionLines, sectionPath, headingStack);
    }

    method SplitText(text: string, markdown: bool) returns (chunks: seq<ChunkPayload>)
      requires limits.Valid()
      ensures
        var payloads := AllPayloads(limits, SectionsOf(text, markdown), PathsOf(text, markdown));
        |chunks| == |payloads|
        && forall k :: 0 <= k < |chunks| ==> chunks[k] == payloads[k].(chunkIndex := Some(k))
      ensures |chunks| == |Contents(limits, text, markdown)|
      ensures forall k :: 0 <= k < |chunks| ==> chunks[k].content == Contents(limits, text, markdown)[k]
    {
      hide Strip, Normalise, Sections, Paragraphs, Paths;
      PayloadsCarryTheContents(limits, SectionsOf(text, markdown), PathsOf(text, markdown));
      var normalised := Strip(Normalise(text));
      if normalised == "" {
        return [];
      }
      var payloads: seq<ChunkPayload>;
      if markdown {
        payloads := SplitMarkdown(normalised);
      } else {
        payloads := SplitParagraphs(normalised, "");
        assert AllPayloads(limits, [normalised], [""]) == payloads + AllPayloads(limits, [], []);
      }
      chunks := AssignIndexes(payloads);
    }

    static method AssignIndexes(payloads: seq<ChunkPayload>) returns (indexed: seq<ChunkPayload>)
      ensures |indexed| == |payloads|
      ensures forall k :: 0 <= k < |indexed| ==> indexed[k] == payloads[k].(chunkIndex := Some(k))
    {
      indexed := [];
      for index := 0 to |payloads|
        invariant |indexed| == index
        invariant forall k :: 0 <= k < index ==> indexed[k] == payloads[k].(chunkIndex := Some(k))
      {
        indexed := indexed + [payloads[index].(chunkIndex := Some(index))];
      }
    }
  }
}
