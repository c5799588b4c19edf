/**
  ChunkingService: Markdown sections, paragraph blocks, and fixed windows for blocks that are too long.

  What a sequence of chunks preserves is stated on the text with its white space erased: `Covers` says that the
  chunks read it from left to right, each repeating at most `slack` characters of what has been read.
  */
module Chunking {
  import opened Wrappers
  import opened Characters
  import opened TextShape

  datatype Limits = Limits(size: nat, overlap: nat) {
    predicate Valid() { size >= 200 && overlap <= size / 2 }
  }

  function Configure(chunkSize: int, chunkOverlap: int): (c: Limits)
    ensures c.Valid()
    ensures chunkSize >= 200 && 0 <= chunkOverlap <= chunkSize / 2 ==> c == Limits(chunkSize, chunkOverlap)
  {
    var size := if chunkSize > 200 then chunkSize else 200;
    var capped := if chunkOverlap < size / 2 then chunkOverlap else size / 2;
    Limits(size, if capped > 0 then capped else 0)
  }

  // ----- fences and headings

  // ^\s*(```|~~~)
  predicate IsFence(line: string) {
    if line != "" && IsSpace(line[0]) then IsFence(line[1..])
    else |line| >= 3 && (line[..3] == "```" || line[..3] == "~~~")
  }

  function Hashes(line: string): (n: nat)
    ensures n <= |line|
  {
    if line == "" || line[0] != '#' then 0 else 1 + Hashes(line[1..])
  }

  // ^(#{1,6})\s+(.+?)\s*$ on a line without line feeds: hashes, a space, and at least one more character
  predicate IsHeading(line: string) {
    var h := Hashes(line);
    1 <= h <= 6 && |line| >= h + 2 && IsSpace(line[h])
  }

  // ----- the functions the loops compute

  function BlockOf(current: seq<string>): seq<string> {
    if Strip(Join("\n", current)) == "" then [] else [Strip(Join("\n", current))]
  }

  function Blocks(lines: seq<string>, current: seq<string>, inFence: bool): seq<string>
    decreases |lines|
  {
    if lines == [] then BlockOf(current)
    else
      var fenced := inFence != IsFence(lines[0]);
      if !fenced && StripsToNothing(lines[0]) then BlockOf(current) + Blocks(lines[1..], [], fenced)
      else Blocks(lines[1..], current + [lines[0]], fenced)
  }

  function BlocksOf(t: string): seq<string> {
    Blocks(SplitLines(t), [], false)
  }

  // The last natural boundary in [start, end): paragraph, line, sentence or word.
  function Boundary(t: string, start: nat, end: nat): (p: int)
    requires start <= end <= |t|
    ensures p == -1 || start <= p < end
  {
    Larger(RFind(t, "\n\n", start, end),
      Larger(RFind(t, "\n", start, end),
        Larger(RFind(t, "\U{3002}", start, end),
          Larger(RFind(t, ".", start, end), RFind(t, " ", start, end)))))
  }

  function WindowEnd(c: Limits, t: string, start: nat): (end: nat)
    requires c.Valid() && start < |t|
    ensures end == |t| || start + c.size / 2 + 2 <= end < |t|
    ensures start < end <= start + c.size
  {
    if start + c.size >= |t| then |t|
    else
      var boundary := Boundary(t, start, start + c.size);
      if boundary > start + c.size / 2 then boundary + 1 else start + c.size
  }

  predicate IsBoundary(c: char) {
    c == '\n' || c == '\U{3002}' || c == '.' || c == ' '
  }

  // A window that does not reach the end of the text ends right after the last line end, full stop or space of its
  // second half, and at the full size when there is none.
  lemma WindowEndsAtTheLastBoundary(c: Limits, t: string, start: nat)
    requires c.Valid() && start + c.size < |t|
    ensures
      var end := WindowEnd(c, t, start);
      && (forall p :: end <= p < start + c.size ==> !IsBoundary(t[p]))
      && (end < start + c.size ==> IsBoundary(t[end - 1]))
      && (forall p :: start + c.size / 2 < p < start + c.size && IsBoundary(t[p]) ==> IsBoundary(t[end - 1]))
  {
    hide Boundary, IsBoundary;
    var last := Boundary(t, start, start + c.size);
    forall p: nat | start <= p < start + c.size && IsBoundary(t[p]) ensures p <= last {
      BoundaryIsLast(t, start, start + c.size, p);
    }
    if last >= 0 {
      BoundaryIsOne(t, start, start + c.size);
    }
  }

  lemma BoundaryIsLast(t: string, start: nat, end: nat, p: nat)
    requires start <= p < end <= |t| && IsBoundary(t[p])
    ensures p <= Boundary(t, start, end)
  {
    assert t[p..p + 1] == [t[p]];
    assert OccursAt(t, [t[p]], p);
    assert p <= RFind(t, [t[p]], start, end);
  }

  lemma BoundaryIsOne(t: string, start: nat, end: nat)
    requires start <= end <= |t| && Boundary(t, start, end) >= 0
    ensures IsBoundary(t[Boundary(t, start, end)])
  {
    var p := Boundary(t, start, end);
    if p == RFind(t, "\n\n", start, end) {
      FirstCharacter(t, "\n\n", p);
    } else if p == RFind(t, "\n", start, end) {
      FirstCharacter(t, "\n", p);
    } else if p == RFind(t, "\U{3002}", start, end) {
      FirstCharacter(t, "\U{3002}", p);
    } else if p == RFind(t, ".", start, end) {
      FirstCharacter(t, ".", p);
    } else {
      FirstCharacter(t, " ", p);
    }
  }

  lemma FirstCharacter(t: string, pattern: string, p: nat)
    requires OccursAt(t, pattern, p) && pattern != ""
    ensures t[p] == pattern[0]
  {
    assert t[p..p + |pattern|][0] == t[p];
  }

  datatype Window = Window(start: nat, end: nat)

  function Windows(c: Limits, t: string, start: nat): (windows: seq<Window>)
    requires c.Valid() && start < |t|
    ensures forall k :: 0 <= k < |windows| ==> windows[k].start < windows[k].end <= |t|
    decreases |t| - start
  {
    var end := WindowEnd(c, t, start);
    [Window(start, end)] + if end == |t| then [] else Windows(c, t, end - c.overlap)
  }

  function Pieces(t: string, windows: seq<Window>): seq<string>
    requires forall k :: 0 <= k < |windows| ==> windows[k].start <= windows[k].end <= |t|
  {
    if windows == [] then []
    else
      var piece := Strip(t[windows[0].start..windows[0].end]);
      (if piece == "" then [] else [piece]) + Pieces(t, windows[1..])
  }

  // The windows cover the text: the first starts where it should, the last ends the text, each starts at least two
  // characters after the one before it and at most `overlap` before that one's end, and none exceeds the size.
  lemma {:induction false} WindowsCover(c: Limits, t: string, start: nat)
    requires c.Valid() && start < |t|
    ensures
      var ws := Windows(c, t, start);
      && ws != [] && ws[0].start == start && ws[|ws| - 1].end == |t|
      && (forall k :: 0 <= k < |ws| ==> 0 < ws[k].end - ws[k].start <= c.size)
      && (forall k :: 0 <= k < |ws| - 1 ==> ws[k].start + 2 <= ws[k + 1].start == ws[k].end - c.overlap)
    decreases |t| - start
  {
    hide WindowEnd;
    var end := WindowEnd(c, t, start);
    if end < |t| {
      WindowsCover(c, t, end - c.overlap);
    }
  }

  function FixedWindow(c: Limits, t: string): seq<string>
    requires c.Valid()
  {
    var text := Strip(Normalise(t));
    if text == "" then [] else Pieces(text, Windows(c, text, 0))
  }

  function ContentOf(current: seq<string>): seq<string> {
    if Strip(Join("\n\n", current)) == "" then [] else [Strip(Join("\n\n", current))]
  }

  function Merge(c: Limits, blocks: seq<string>, current: seq<string>): seq<string>
    requires c.Valid()
    decreases |blocks|
  {
    if blocks == [] then ContentOf(current)
    else if |blocks[0]| > c.size then
      ContentOf(current) + FixedWindow(c, blocks[0]) + Merge(c, blocks[1..], [])
    else if current != [] && |Strip(Join("\n\n", current + [blocks[0]]))| > c.size then
      ContentOf(current) + Merge(c, blocks[1..], [blocks[0]])
    else Merge(c, blocks[1..], current + [blocks[0]])
  }

  function Paragraphs(c: Limits, t: string): seq<string>
    requires c.Valid()
  {
    Merge(c, BlocksOf(t), [])
  }

  function Sections(lines: seq<string>, current: seq<string>, inFence: bool): seq<string>
    decreases |lines|
  {
    if lines == [] then BlockOf(current)
    else
      var fenced := inFence != IsFence(lines[0]);
      if !fenced && IsHeading(lines[0]) then BlockOf(current) + Sections(lines[1..], [lines[0]], fenced)
      else Sections(lines[1..], current + [lines[0]], fenced)
  }

  function AllParagraphs(c: Limits, sections: seq<string>): seq<string>
    requires c.Valid()
  {
    if sections == [] then [] else Paragraphs(c, sections[0]) + AllParagraphs(c, sections[1..])
  }

  // The sections a text is cut into: one unless it is Markdown.
  function SectionsOf(text: string, markdown: bool): seq<string> {
    var normalised := Strip(Normalise(text));
    if normalised == "" then [] else if markdown then Sections(SplitLines(normalised), [], false) else [normalised]
  }

  function Contents(c: Limits, text: string, markdown: bool): seq<string>
    requires c.Valid()
  {
    AllParagraphs(c, SectionsOf(text, markdown))
  }

  function AllBlocks(sections: seq<string>): seq<string> {
    if sections == [] then [] else BlocksOf(sections[0]) + AllBlocks(sections[1..])
  }

  // ----- what chunks preserve

  // `chunks` read `e` to its end when the first `done` characters have been read, each repeating at most `slack`.
  ghost predicate Covers(chunks: seq<string>, e: string, done: nat, slack: nat) {
    if chunks == [] then done == |e|
    else exists lo: nat, hi: nat :: Reads(chunks[0], e, lo, hi, done, slack) && Covers(chunks[1..], e, hi, slack)
  }

  ghost predicate Reads(chunk: string, e: string, lo: nat, hi: nat, done: nat, slack: nat) {
    lo <= done <= hi <= |e| && done - lo <= slack && Erase(chunk) == e[lo..hi]
  }

  ghost predicate Fit(c: Limits, chunks: seq<string>) {
    forall k :: 0 <= k < |chunks| ==> 0 < |chunks[k]| <= c.size
  }

  // Without slack, covering is spelling exactly.
  lemma {:induction false} CoveringWithoutSlackSpells(chunks: seq<string>, e: string, done: nat)
    requires done <= |e|
    ensures Covers(chunks, e, done, 0) <==> EraseAll(chunks) == e[done..]
    decreases |chunks|
  {
    hide Erase;
    if chunks == [] {
    } else {
      var n := |Erase(chunks[0])|;
      if Covers(chunks, e, done, 0) {
        var lo: nat, hi: nat :| Reads(chunks[0], e, lo, hi, done, 0) && Covers(chunks[1..], e, hi, 0);
        CoveringWithoutSlackSpells(chunks[1..], e, hi);
        assert e[done..] == e[lo..hi] + e[hi..];
      }
      if EraseAll(chunks) == e[done..] {
        assert |EraseAll(chunks)| == n + |EraseAll(chunks[1..])|;
        CoveringWithoutSlackSpells(chunks[1..], e, done + n);
        assert e[done..][..n] == e[done..done + n] && e[done..][n..] == e[done + n..];
        assert Reads(chunks[0], e, done, done + n, done, 0);
      }
    }
  }

  lemma {:induction false} MoreSlack(chunks: seq<string>, e: string, done: nat, slack: nat, more: nat)
    requires Covers(chunks, e, done, slack) && slack <= more
    ensures Covers(chunks, e, done, more)
    decreases |chunks|
  {
    if chunks != [] {
      var lo: nat, hi: nat :| Reads(chunks[0], e, lo, hi, done, slack) && Covers(chunks[1..], e, hi, slack);
      MoreSlack(chunks[1..], e, hi, slack, more);
      assert Reads(chunks[0], e, lo, hi, done, more);
    }
  }

  // Reading `f` after `e` has been read.
  lemma {:induction false} CoversShifted(chunks: seq<string>, e: string, f: string, done: nat, slack: nat)
    requires Covers(chunks, f, done, slack)
    ensures Covers(chunks, e + f, |e| + done, slack)
    decreases |chunks|
  {
    if chunks != [] {
      var lo: nat, hi: nat :| Reads(chunks[0], f, lo, hi, done, slack) && Covers(chunks[1..], f, hi, slack);
      CoversShifted(chunks[1..], e, f, hi, slack);
      assert (e + f)[|e| + lo..|e| + hi] == f[lo..hi];
      assert Reads(chunks[0], e + f, |e| + lo, |e| + hi, |e| + done, slack);
    }
  }

  lemma {:induction false} CoversCompose(a: seq<string>, b: seq<string>, e: string, f: string, done: nat, slack: nat)
    requires Covers(a, e, done, slack) && Covers(b, f, 0, slack)
    ensures Covers(a + b, e + f, done, slack)
    decreases |a|
  {
    if a == [] {
      assert a + b == b;
      CoversShifted(b, e, f, 0, slack);
    } else {
      var lo: nat, hi: nat :| Reads(a[0], e, lo, hi, done, slack) && Covers(a[1..], e, hi, slack);
      CoversCompose(a[1..], b, e, f, hi, slack);
      assert (a + b)[1..] == a[1..] + b;
      assert (e + f)[lo..hi] == e[lo..hi];
      assert Reads((a + b)[0], e + f, lo, hi, done, slack);
    }
  }

  // At most one chunk that erases to all of e.
  lemma OneChunkCovers(chunks: seq<string>, e: string, slack: nat)
    requires |chunks| <= 1 && EraseAll(chunks) == e
    ensures Covers(chunks, e, 0, slack)
  {
    CoveringWithoutSlackSpells(chunks, e, 0);
    assert e[0..] == e;
    MoreSlack(chunks, e, 0, 0, slack);
  }

  // ----- fixed windows

  lemma EraseSlice(t: string, i: nat, j: nat)
    requires i <= j <= |t|
    ensures |Erase(t[..i])| <= |Erase(t[..j])| <= |Erase(t)|
    ensures Erase(t[i..j]) == Erase(t)[|Erase(t[..i])|..|Erase(t[..j])|]
    ensures |Erase(t[..j])| - |Erase(t[..i])| <= j - i
  {
    assert t[..j] == t[..i] + t[i..j] && t == t[..j] + t[j..];
    EraseConcat(t[..i], t[i..j]);
    EraseConcat(t[..j], t[j..]);
    ErasedLength(t[i..j]);
  }

  lemma {:induction false} PiecesCover(c: Limits, t: string, start: nat, done: nat)
    requires c.Valid() && start < |t|
    requires start <= done <= |t| && done - start <= c.overlap
    requires done <= WindowEnd(c, t, start)
    ensures
        var pieces := Pieces(t, Windows(c, t, start));
      Fit(c, pieces) && Covers(pieces, Erase(t), |Erase(t[..done])|, c.overlap)
    decreases |t| - start
  {
    hide Covers, Erase, Strip, WindowEnd, Fit, Reads;
    var end := WindowEnd(c, t, start);
    var windows := Windows(c, t, start);
    var piece := Strip(t[start..end]);
    OneWindowReads(t, start, done, end, c.overlap);
    var rest: seq<string> := [];
    if end == |t| {
      assert windows[1..] == [] && t[..end] == t;
      EmptyCovers(c, Erase(t), c.overlap);
    } else {
      PiecesCover(c, t, end - c.overlap, end);
      assert windows[1..] == Windows(c, t, end - c.overlap);
      rest := Pieces(t, windows[1..]);
    }
    CoversOneMore(c, piece, rest, Erase(t), |Erase(t[..start])|, |Erase(t[..end])|, |Erase(t[..done])|, c.overlap);
  }

  lemma OneWindowReads(t: string, start: nat, done: nat, end: nat, slack: nat)
    requires start <= done <= end <= |t| && done - start <= slack
    ensures Reads(Strip(t[start..end]), Erase(t), |Erase(t[..start])|, |Erase(t[..end])|, |Erase(t[..done])|, slack)
  {
    hide Erase, Strip;
    StripErases(t[start..end]);
    EraseSlice(t, start, end);
    EraseSlice(t, start, done);
    EraseSlice(t, done, end);
  }

  lemma EmptyCovers(c: Limits, e: string, slack: nat)
    ensures Covers([], e, |e|, slack) && Fit(c, [])
  {
  }

  lemma CoversOneMore(c: Limits, piece: string, rest: seq<string>, e: string, lo: nat, hi: nat, done: nat, slack: nat)
    requires Reads(piece, e, lo, hi, done, slack) && Covers(rest, e, hi, slack)
    requires |piece| <= c.size && Fit(c, rest)
    ensures Covers((if piece == "" then [] else [piece]) + rest, e, done, slack)
    ensures Fit(c, (if piece == "" then [] else [piece]) + rest)
  {
    if piece == "" {
      assert lo == done == hi;
      assert [] + rest == rest;
    } else {
      assert ([piece] + rest)[1..] == rest && ([piece] + rest)[0] == piece;
    }
  }

  lemma FixedWindowCovers(c: Limits, t: string)
    requires c.Valid()
    ensures Fit(c, FixedWindow(c, t)) && Covers(FixedWindow(c, t), Erase(t), 0, c.overlap)
  {
    var text := Strip(Normalise(t));
    NormaliseErases(t);
    StripErases(Normalise(t));
    if text == "" {
      ErasedLength(text);
    } else {
      PiecesCover(c, text, 0, 0);
      assert Erase(text[..0]) == "";
    }
  }

  // ----- blocks and sections

  lemma BlockOfErases(current: seq<string>)
    ensures EraseAll(BlockOf(current)) == EraseAll(current)
    ensures EraseAll(ContentOf(current)) == EraseAll(current)
  {
    JoinErases("\n", current);
    JoinErases("\n\n", current);
    StripErases(Join("\n", current));
    StripErases(Join("\n\n", current));
    ErasedLength("");
    EraseAllOne(Strip(Join("\n", current)));
    EraseAllOne(Strip(Join("\n\n", current)));
  }

  lemma EraseAllOne(t: string)
    ensures EraseAll([t]) == Erase(t) && EraseAll([]) == ""
  {
    assert [t][1..] == [];
  }

  // The blocks are the text without its blank lines outside fences; nothing else is dropped.
  lemma {:induction false} BlocksErase(lines: seq<string>, current: seq<string>, inFence: bool)
    ensures EraseAll(Blocks(lines, current, inFence)) == EraseAll(current) + EraseAll(lines)
    decreases |lines|
  {
    hide Erase, IsFence, BlockOf, StripsToNothing, EraseAll;
    EraseAllOne("");
    if lines == [] {
      BlockOfErases(current);
    } else {
      var fenced := inFence != IsFence(lines[0]);
      assert lines == [lines[0]] + lines[1..];
      EraseAllConcat([lines[0]], lines[1..]);
      EraseAllOne(lines[0]);
      if !fenced && StripsToNothing(lines[0]) {
        ErasedLength(lines[0]);
        BlockOfErases(current);
        EraseAllConcat(BlockOf(current), Blocks(lines[1..], [], fenced));
        BlocksErase(lines[1..], [], fenced);
      } else {
        EraseAllConcat(current, [lines[0]]);
        BlocksErase(lines[1..], current + [lines[0]], fenced);
      }
    }
  }

  lemma {:induction false} SectionsErase(lines: seq<string>, current: seq<string>, inFence: bool)
    ensures EraseAll(Sections(lines, current, inFence)) == EraseAll(current) + EraseAll(lines)
    decreases |lines|
  {
    hide Erase, IsFence, BlockOf, IsHeading, EraseAll;
    EraseAllOne("");
    if lines == [] {
      BlockOfErases(current);
    } else {
      var fenced := inFence != IsFence(lines[0]);
      assert lines == [lines[0]] + lines[1..];
      EraseAllConcat([lines[0]], lines[1..]);
      EraseAllOne(lines[0]);
      if !fenced && IsHeading(lines[0]) {
        BlockOfErases(current);
        EraseAllConcat(BlockOf(current), Sections(lines[1..], [lines[0]], fenced));
        SectionsErase(lines[1..], [lines[0]], fenced);
      } else {
        EraseAllConcat(current, [lines[0]]);
        SectionsErase(lines[1..], current + [lines[0]], fenced);
      }
    }
  }

  // ----- merging

  ghost predicate SomeOversized(c: Limits, blocks: seq<string>) {
    exists k :: 0 <= k < |blocks| && |blocks[k]| > c.size
  }

  // How much a chunk may repeat: nothing, unless a block had to be cut into windows.
  ghost function Slack(c: Limits, blocks: seq<string>): nat {
    if SomeOversized(c, blocks) then c.overlap else 0
  }

  lemma ContentCovers(c: Limits, current: seq<string>, slack: nat)
    requires |Strip(Join("\n\n", current))| <= c.size
    ensures Fit(c, ContentOf(current)) && Covers(ContentOf(current), EraseAll(current), 0, slack)
  {
    hide Covers, Strip, EraseAll;
    BlockOfErases(current);
    OneChunkCovers(ContentOf(current), EraseAll(current), slack);
  }

  lemma {:induction false} MergeCovers(c: Limits, blocks: seq<string>, current: seq<string>, slack: nat)
    requires c.Valid() && |Strip(Join("\n\n", current))| <= c.size
    requires SomeOversized(c, blocks) ==> slack >= c.overlap
    ensures Fit(c, Merge(c, blocks, current))
    ensures Covers(Merge(c, blocks, current), EraseAll(current) + EraseAll(blocks), 0, slack)
    decreases |blocks|
  {
    hide Covers, Strip, EraseAll, Join, Erase, ContentOf, FixedWindow, Fit;
    EraseAllOne("");
    if blocks == [] {
      ContentCovers(c, current, slack);
      assert EraseAll(current) + EraseAll(blocks) == EraseAll(current);
      return;
    }
    var b, rest := blocks[0], blocks[1..];
    assert blocks == [b] + rest;
    assert forall k | 0 <= k < |rest| :: rest[k] == blocks[k + 1];
    EraseAllConcat([b], rest);
    EraseAllOne(b);
    StripOfNothing();
    if |b| > c.size {
      ContentCovers(c, current, slack);
      FixedWindowCovers(c, b);
      MoreSlack(FixedWindow(c, b), Erase(b), 0, c.overlap, slack);
      MergeCovers(c, rest, [], slack);
      assert EraseAll([]) + EraseAll(rest) == EraseAll(rest);
      FitConcat(c, ContentOf(current), FixedWindow(c, b));
      FitConcat(c, ContentOf(current) + FixedWindow(c, b), Merge(c, rest, []));
      CoversCompose(ContentOf(current), FixedWindow(c, b), EraseAll(current), Erase(b), 0, slack);
      CoversCompose(ContentOf(current) + FixedWindow(c, b), Merge(c, rest, []), EraseAll(current) + Erase(b),
        EraseAll(rest), 0, slack);
      assert EraseAll(current) + EraseAll(blocks) == EraseAll(current) + Erase(b) + EraseAll(rest);
    } else if current != [] && |Strip(Join("\n\n", current + [b]))| > c.size {
      ContentCovers(c, current, slack);
      OneBlockFits(b);
      MergeCovers(c, rest, [b], slack);
      FitConcat(c, ContentOf(current), Merge(c, rest, [b]));
      CoversCompose(ContentOf(current), Merge(c, rest, [b]), EraseAll(current), EraseAll([b]) + EraseAll(rest), 0, slack);
    } else {
      OneBlockFits(b);
      assert current == [] ==> current + [b] == [b];
      EraseAllConcat(current, [b]);
      MergeCovers(c, rest, current + [b], slack);
      assert EraseAll(current) + EraseAll(blocks) == EraseAll(current + [b]) + EraseAll(rest);
    }
  }

  lemma FitConcat(c: Limits, a: seq<string>, b: seq<string>)
    requires Fit(c, a) && Fit(c, b)
    ensures Fit(c, a + b)
  {
  }

  // Neighbouring groups could not have shared a chunk: the next group's first block no longer fits.
  ghost predicate Greedy(c: Limits, groups: seq<seq<string>>) {
    && (forall k :: 0 <= k < |groups| ==> groups[k] != [])
    && (forall k :: 0 <= k < |groups| - 1 ==> |Strip(Join("\n\n", groups[k] + [groups[k + 1][0]]))| > c.size)
  }

  function ContentsOf(groups: seq<seq<string>>): seq<string> {
    if groups == [] then [] else ContentOf(groups[0]) + ContentsOf(groups[1..])
  }

  function Flatten(groups: seq<seq<string>>): seq<string> {
    if groups == [] then [] else groups[0] + Flatten(groups[1..])
  }

  lemma {:induction false} SmallBlocksAreMergedGreedily(c: Limits, blocks: seq<string>, current: seq<string>)
    returns (groups: seq<seq<string>>)
    requires c.Valid() && !SomeOversized(c, blocks) && current != []
    ensures Flatten(groups) == current + blocks && Merge(c, blocks, current) == ContentsOf(groups)
    ensures Greedy(c, groups) && groups != [] && current <= groups[0]
    decreases |blocks|
  {
    hide Strip, Join, ContentOf;
    if blocks == [] {
      groups := [current];
      assert Flatten(groups) == current + Flatten(groups[1..]);
      assert ContentsOf(groups) == ContentOf(current) + ContentsOf(groups[1..]);
      return;
    }
    var b, rest := blocks[0], blocks[1..];
    assert forall k | 0 <= k < |rest| :: rest[k] == blocks[k + 1];
    assert blocks == [b] + rest;
    if |Strip(Join("\n\n", current + [b]))| > c.size {
      var later := SmallBlocksAreMergedGreedily(c, rest, [b]);
      assert later[0][0] == b;
      groups := [current] + later;
      assert groups[1..] == later && forall k | 0 < k < |groups| :: groups[k] == later[k - 1];
      assert Flatten(groups) == current + ([b] + rest);
    } else {
      groups := SmallBlocksAreMergedGreedily(c, rest, current + [b]);
      assert current + blocks == current + [b] + rest;
    }
  }

  // Blocks that fit are merged greedily: the chunks are consecutive groups of them, and no group could have taken
  // the next block as well.
  lemma ParagraphsAreMergedGreedily(c: Limits, t: string) returns (groups: seq<seq<string>>)
    requires c.Valid() && !SomeOversized(c, BlocksOf(t))
    ensures Flatten(groups) == BlocksOf(t) && Paragraphs(c, t) == ContentsOf(groups) && Greedy(c, groups)
  {
    hide Strip, Join, BlocksOf, ContentOf;
    var blocks := BlocksOf(t);
    if blocks == [] {
      groups := [];
      NothingToMerge();
    } else {
      assert blocks == [blocks[0]] + blocks[1..];
      assert forall k | 0 <= k < |blocks| - 1 :: blocks[1..][k] == blocks[k + 1];
      assert [] + [blocks[0]] == [blocks[0]];
      groups := SmallBlocksAreMergedGreedily(c, blocks[1..], [blocks[0]]);
    }
  }

  lemma NothingToMerge()
    ensures ContentOf([]) == []
  {
  }

  lemma StripOfNothing()
    ensures |Strip(Join("\n\n", []))| == 0
  {
  }

  lemma OneBlockFits(b: string)
    ensures |Strip(Join("\n\n", [b]))| <= |b|
  {
  }

  lemma ParagraphsCover(c: Limits, t: string, slack: nat)
    requires c.Valid() && (SomeOversized(c, BlocksOf(t)) ==> slack >= c.overlap)
    ensures Fit(c, Paragraphs(c, t)) && Covers(Paragraphs(c, t), Erase(t), 0, slack)
  {
    hide Covers, Strip, Merge, Blocks;
    StripOfNothing();
    MergeCovers(c, BlocksOf(t), [], slack);
    BlocksErase(SplitLines(t), [], false);
    SplitLinesErase(t);
    assert EraseAll([]) + EraseAll(BlocksOf(t)) == Erase(t);
  }

  lemma {:induction false} AllParagraphsCover(c: Limits, sections: seq<string>, slack: nat)
    requires c.Valid() && (SomeOversized(c, AllBlocks(sections)) ==> slack >= c.overlap)
    ensures Fit(c, AllParagraphs(c, sections)) && Covers(AllParagraphs(c, sections), EraseAll(sections), 0, slack)
    decreases |sections|
  {
    hide Covers, Paragraphs, BlocksOf, Erase;
    EraseAllOne("");
    if sections == [] {
      EmptyCovers(c, "", slack);
    } else {
      var first, later := BlocksOf(sections[0]), AllBlocks(sections[1..]);
      assert forall k | 0 <= k < |first| :: first[k] == (first + later)[k];
      assert forall k | 0 <= k < |later| :: later[k] == (first + later)[k + |first|];
      ParagraphsCover(c, sections[0], slack);
      AllParagraphsCover(c, sections[1..], slack);
      CoversCompose(Paragraphs(c, sections[0]), AllParagraphs(c, sections[1..]), Erase(sections[0]),
        EraseAll(sections[1..]), 0, slack);
    }
  }

  lemma SectionsKeepTheText(text: string, markdown: bool)
    ensures EraseAll(SectionsOf(text, markdown)) == Erase(text)
  {
    hide Strip, Normalise, SplitLines, Sections;
    NormaliseErases(text);
    StripErases(Normalise(text));
    var normalised := Strip(Normalise(text));
    EraseAllOne(normalised);
    if normalised == "" {
      ErasedLength("");
    } else if markdown {
      SectionsErase(SplitLines(normalised), [], false);
      SplitLinesErase(normalised);
    }
  }

  // For every text, with or without headings and fences: chunks are non-empty and fit the size; read in order they
  // give the whole text back up to white space, exactly unless a block was too long, and otherwise repeating at
  // most `overlap` characters at a time.
  lemma NothingIsLost(c: Limits, text: string, markdown: bool)
    requires c.Valid()
    ensures
      var chunks := Contents(c, text, markdown);
      var blocks := AllBlocks(SectionsOf(text, markdown));
      && Fit(c, chunks)
      && Covers(chunks, Erase(text), 0, c.overlap)
      && (c.overlap == 0 || !SomeOversized(c, blocks) ==> EraseAll(chunks) == Erase(text))
  {
    hide Covers, SectionsOf, AllParagraphs, AllBlocks, Erase, Fit;
    var sections := SectionsOf(text, markdown);
    var slack := Slack(c, AllBlocks(sections));
    SectionsKeepTheText(text, markdown);
    AllParagraphsCover(c, sections, slack);
    MoreSlack(Contents(c, text, markdown), Erase(text), 0, slack, c.overlap);
    if slack == 0 {
      CoveringWithoutSlackSpells(Contents(c, text, markdown), Erase(text), 0);
      assert Erase(text)[0..] == Erase(text);
    }
  }
}
