/**
  The section path of a Markdown chunk: the titles on the heading stack. The stack is cut by its length, not by the
  levels on it, so it is the outline of the text exactly when no heading skips a level that is still open.
  */
module SectionPaths {
  import opened Wrappers
  import opened Characters
  import opened TextShape
  import opened Chunking

  type Level = n: nat | n >= 1 witness 1

  datatype Heading = Heading(level: Level, title: string)

  // str.strip("#")
  function StripHashes(t: string): string
    decreases |t|
  {
    if t == "" then ""
    else if t[0] == '#' then StripHashes(t[1..])
    else if t[|t| - 1] == '#' then StripHashes(t[..|t| - 1])
    else t
  }

  // What the two groups of the heading pattern give.
  function HeadingOf(line: string): (h: Heading)
    requires IsHeading(line)
    ensures 1 <= h.level <= 6
  {
    Heading(Hashes(line), Strip(StripHashes(Strip(line[Hashes(line)..]))))
  }

  // heading_stack[: level - 1] and the new title
  function Opened(open: seq<Heading>, h: Heading): seq<Heading>
  {
    (if h.level - 1 < |open| then open[..h.level - 1] else open) + [h]
  }

  function Titles(open: seq<Heading>): (r: seq<string>)
    ensures |r| == |open| && forall k :: 0 <= k < |r| ==> r[k] == open[k].title
  {
    seq(|open|, k requires 0 <= k < |open| => open[k].title)
  }

  function Path(open: seq<Heading>): string {
    Join(" / ", Titles(open))
  }

  // The path shows the titles from the outermost heading to the innermost.
  lemma ThePathShowsTheTitles(open: seq<Heading>, h: Heading)
    ensures Path(open + [h]) == (if open == [] then "" else Path(open) + " / ") + h.title
  {
    assert Titles(open + [h]) == Titles(open) + [h.title];
    assert (Titles(open) + [h.title])[..|open|] == Titles(open);
  }

  // ----- titles

  predicate Blank(t: string) {
    forall i :: 0 <= i < |t| ==> IsSpace(t[i])
  }

  predicate NumberSigns(t: string) {
    forall i :: 0 <= i < |t| ==> t[i] == '#'
  }

  // No white space at either end.
  predicate Trimmed(t: string) {
    t != "" && !IsSpace(t[0]) && !IsSpace(t[|t| - 1])
  }

  lemma {:induction false} StripFinds(before: string, core: string, after: string)
    requires Blank(before) && Trimmed(core) && Blank(after)
    ensures Strip(before + core + after) == core
    decreases |before| + |after|
  {
    hide IsSpace;
    var t := before + core + after;
    if before != "" {
      assert t[0] == before[0] && t[1..] == before[1..] + core + after;
      StripFinds(before[1..], core, after);
    } else if after != "" {
      var n := |after| - 1;
      assert t[0] == core[0] && t[|t| - 1] == after[n] && t[..|t| - 1] == before + core + after[..n];
      StripFinds(before, core, after[..n]);
    } else {
      assert t == core;
    }
  }

  lemma {:induction false} StripHashesFinds(core: string, closing: string)
    requires core != "" && core[0] != '#' && core[|core| - 1] != '#' && NumberSigns(closing)
    ensures StripHashes(core + closing) == core
    decreases |closing|
  {
    var t := core + closing;
    if closing == "" {
      assert t == core;
    } else {
      var n := |closing| - 1;
      assert t[0] == core[0] && t[|t| - 1] == closing[n] && t[..|t| - 1] == core + closing[..n];
      StripHashesFinds(core, closing[..n]);
    }
  }

  lemma {:induction false} OpeningHashes(opening: string, rest: string)
    requires NumberSigns(opening) && rest != "" && rest[0] != '#'
    ensures Hashes(opening + rest) == |opening|
  {
    if opening == "" {
      assert opening + rest == rest;
    } else {
      assert (opening + rest)[1..] == opening[1..] + rest;
      OpeningHashes(opening[1..], rest);
    }
  }

  // A text without number signs or white space at its ends.
  predicate IsTitle(t: string) {
    Trimmed(t) && t[0] != '#' && t[|t| - 1] != '#'
  }

  lemma Ends(a: string, b: string)
    ensures a != "" ==> (a + b)[0] == a[0]
    ensures b != "" ==> (a + b)[|a + b| - 1] == b[|b| - 1]
  {
  }

  // A heading's level is the number of its opening signs, and its title the text after them, without the white space
  // around it and without closing signs.
  lemma HeadingsShowTheirTitle(opening: string, gap: string, title: string, space: string, closing: string, end: string)
    requires NumberSigns(opening) && 1 <= |opening| <= 6 && Blank(gap) && gap != ""
    requires IsTitle(title) && Blank(space) && NumberSigns(closing) && Blank(end)
    ensures
      var line := opening + (gap + (title + space + closing) + end);
      IsHeading(line) && HeadingOf(line) == Heading(|opening|, title)
  {
    hide Blank, NumberSigns, IsTitle, Strip, StripHashes, Hashes, IsHeading, HeadingOf;
    var rest := gap + (title + space + closing) + end;
    var line := opening + rest;
    TitleAndSpace(title, space);
    assert |title + space + closing| >= |title + space|;
    ALineWithATitle(opening, gap, title + space + closing, end);
    assert line[|opening|..] == rest;
    if closing == "" {
      PlainTitle(gap, title, space, end);
    } else {
      ClosedTitle(gap, title, space, closing, end);
    }
    HeadingIs(line, rest);
  }

  lemma ALineWithATitle(opening: string, gap: string, title: string, after: string)
    requires NumberSigns(opening) && 1 <= |opening| <= 6 && Blank(gap) && gap != ""
    ensures
      var line := opening + (gap + title + after);
      title != "" ==> Hashes(line) == |opening| && IsHeading(line)
  {
    var rest := gap + title + after;
    assert rest[0] == gap[0] && IsSpace(gap[0]);
    OpeningHashes(opening, rest);
  }

  lemma HeadingIs(line: string, rest: string)
    requires IsHeading(line) && rest == line[Hashes(line)..]
    ensures HeadingOf(line).level == Hashes(line) && HeadingOf(line).title == Strip(StripHashes(Strip(rest)))
  {
  }

  lemma PlainTitle(gap: string, title: string, space: string, end: string)
    requires Blank(gap) && IsTitle(title) && Blank(space) && Blank(end)
    ensures Strip(StripHashes(Strip(gap + (title + space + "") + end))) == title
  {
    TitlesStay(title);
    BlankEnd(space, end);
    hide Strip, StripHashes, Blank, IsTitle, Trimmed;
    PlainTail(gap, title, space, end);
    StripFinds(gap, title, space + end);
  }

  lemma TitlesStay(title: string)
    requires IsTitle(title)
    ensures Trimmed(title) && StripHashes(title) == title && Strip(title) == title
  {
    hide IsSpace;
  }

  lemma BlankEnd(space: string, end: string)
    requires Blank(space) && Blank(end)
    ensures Blank(space + end)
  {
    hide IsSpace;
  }

  lemma PlainTail(gap: string, title: string, space: string, end: string)
    ensures gap + (title + space + "") + end == gap + title + (space + end)
  {
  }

  lemma ClosedTitle(gap: string, title: string, space: string, closing: string, end: string)
    requires Blank(gap) && IsTitle(title) && Blank(space) && NumberSigns(closing) && closing != "" && Blank(end)
    ensures Strip(StripHashes(Strip(gap + (title + space + closing) + end))) == title
  {
    hide Strip, StripHashes;
    var core := title + space;
    TitleAndSpace(title, space);
    TitleAndSigns(core, closing);
    SpaceGoes(title, space);
    StripHashesFinds(core, closing);
    hide IsTitle, Blank, NumberSigns, Trimmed;
    StripFinds(gap, core + closing, end);
  }

  lemma SpaceGoes(title: string, space: string)
    requires Trimmed(title) && Blank(space)
    ensures Strip(title + space) == title
  {
    assert Blank("");
    hide Strip, Trimmed, Blank;
    assert "" + title + space == title + space;
    StripFinds("", title, space);
  }

  lemma TitleAndSpace(title: string, space: string)
    requires IsTitle(title) && Blank(space)
    ensures
      var core := title + space;
      core != "" && !IsSpace(core[0]) && core[0] != '#' && core[|core| - 1] != '#' && Trimmed(title)
  {
    NotASpace();
    Ends(title, space);
    if space == "" {
      assert title + space == title;
    }
  }

  lemma TitleAndSigns(core: string, closing: string)
    requires core != "" && !IsSpace(core[0]) && NumberSigns(closing) && closing != ""
    ensures Trimmed(core + closing)
  {
    NotASpace();
    Ends(core, closing);
  }

  lemma NotASpace()
    ensures !IsSpace('#')
  {
  }

  // ----- the path of every section

  function Label(current: seq<string>, open: seq<Heading>): seq<string> {
    if BlockOf(current) == [] then [] else [Path(open)]
  }

  function Paths(lines: seq<string>, current: seq<string>, inFence: bool, open: seq<Heading>): seq<string>
    decreases |lines|
  {
    if lines == [] then Label(current, open)
    else
      var fenced := inFence != IsFence(lines[0]);
      if !fenced && IsHeading(lines[0]) then
        Label(current, open) + Paths(lines[1..], [lines[0]], fenced, Opened(open, HeadingOf(lines[0])))
      else Paths(lines[1..], current + [lines[0]], fenced, open)
  }

  lemma {:induction false} OnePathPerSection(lines: seq<string>, current: seq<string>, inFence: bool, open: seq<Heading>)
    ensures |Paths(lines, current, inFence, open)| == |Sections(lines, current, inFence)|
    decreases |lines|
  {
    hide IsFence, IsHeading, BlockOf, Opened, Path, HeadingOf, Label;
    OneLabelPerBlock(current, open);
    if lines != [] {
      var fenced := inFence != IsFence(lines[0]);
      if !fenced && IsHeading(lines[0]) {
        OnePathPerSection(lines[1..], [lines[0]], fenced, Opened(open, HeadingOf(lines[0])));
      } else {
        OnePathPerSection(lines[1..], current + [lines[0]], fenced, open);
      }
    }
  }

  lemma OneLabelPerBlock(current: seq<string>, open: seq<Heading>)
    ensures |Label(current, open)| == |BlockOf(current)|
  {
  }

  // The heading lines outside fences.
  function Headings(lines: seq<string>, inFence: bool): seq<Heading>
    decreases |lines|
  {
    if lines == [] then []
    else
      var fenced := inFence != IsFence(lines[0]);
      (if !fenced && IsHeading(lines[0]) then [HeadingOf(lines[0])] else []) + Headings(lines[1..], fenced)
  }

  // The stack after some headings.
  function Stack(open: seq<Heading>, hs: seq<Heading>): seq<Heading>
  {
    if hs == [] then open else Opened(Stack(open, hs[..|hs| - 1]), hs[|hs| - 1])
  }

  lemma {:induction false} StackFromTheFront(open: seq<Heading>, hs: seq<Heading>)
    requires hs != []
    ensures Stack(open, hs) == Stack(Opened(open, hs[0]), hs[1..])
    decreases |hs|
  {
    hide Opened;
    if |hs| == 1 {
      assert hs[..0] == [] && hs[1..] == [];
    } else {
      StackFromTheFront(open, hs[..|hs| - 1]);
      assert hs[1..][..|hs| - 2] == hs[..|hs| - 1][1..];
    }
  }

  // Every section's path comes from the stack after some of the headings, its own being the last of them.
  lemma {:induction false} PathsAreStacks(
    lines: seq<string>, current: seq<string>, inFence: bool, open: seq<Heading>, k: nat) returns (n: nat)
    requires k < |Paths(lines, current, inFence, open)|
    ensures n <= |Headings(lines, inFence)|
    ensures Paths(lines, current, inFence, open)[k] == Path(Stack(open, Headings(lines, inFence)[..n]))
    decreases |lines|
  {
    hide IsFence, IsHeading, BlockOf, Path, HeadingOf, Opened;
    n := 0;
    assert Headings(lines, inFence)[..n] == [];
    if lines != [] {
      var fenced := inFence != IsFence(lines[0]);
      if !fenced && IsHeading(lines[0]) {
        var own := Label(current, open);
        if k >= |own| {
          var h := HeadingOf(lines[0]);
          var later := Headings(lines[1..], fenced);
          n := PathsAreStacks(lines[1..], [lines[0]], fenced, Opened(open, h), k - |own|);
          StackFromTheFront(open, [h] + later[..n]);
          assert ([h] + later[..n])[1..] == later[..n] && ([h] + later)[..n + 1] == [h] + later[..n];
          n := n + 1;
        }
      } else {
        assert [] + Headings(lines[1..], fenced) == Headings(lines[1..], fenced);
        n := PathsAreStacks(lines[1..], current + [lines[0]], fenced, open, k);
      }
    }
  }

  // ----- the outline

  // A heading stands under the last heading of a lower level before it.
  function Outline(hs: seq<Heading>): seq<Heading>
    decreases |hs|, 1
  {
    if hs == [] then [] else Below(hs[..|hs| - 1], hs[|hs| - 1].level) + [hs[|hs| - 1]]
  }

  function Below(hs: seq<Heading>, level: nat): seq<Heading>
    decreases |hs|, 2
  {
    if hs == [] then []
    else if hs[|hs| - 1].level < level then Outline(hs)
    else Below(hs[..|hs| - 1], level)
  }

  ghost predicate Rising(open: seq<Heading>) {
    && (forall k :: 0 <= k < |open| ==> open[k].level >= k + 1)
    && (forall i, j :: 0 <= i < j < |open| ==> open[i].level < open[j].level)
  }

  lemma {:induction false} OutlinesRise(hs: seq<Heading>, level: nat)
    ensures Rising(Outline(hs)) && Rising(Below(hs, level))
    ensures forall k :: 0 <= k < |Below(hs, level)| ==> Below(hs, level)[k].level < level
    decreases |hs|
  {
    if hs != [] {
      var init, h := hs[..|hs| - 1], hs[|hs| - 1];
      OutlinesRise(init, h.level);
      OutlinesRise(init, level);
      RisingOneMore(Below(init, h.level), h);
    }
  }

  lemma RisingOneMore(open: seq<Heading>, h: Heading)
    requires Rising(open) && forall k :: 0 <= k < |open| ==> open[k].level < h.level
    ensures Rising(open + [h]) && h.level >= |open| + 1
  {
    if open != [] {
      assert open[|open| - 1].level >= |open|;
    }
  }

  // What stands below a level is the part of the outline that has lower levels.
  lemma {:induction false} BelowIsAPrefix(hs: seq<Heading>, level: nat)
    ensures Below(hs, level) <= Outline(hs)
    ensures forall k :: |Below(hs, level)| <= k < |Outline(hs)| ==> Outline(hs)[k].level >= level
    decreases |hs|
  {
    if hs != [] {
      var init, last := hs[..|hs| - 1], hs[|hs| - 1];
      if last.level >= level {
        BelowIsAPrefix(init, level);
        BelowIsAPrefix(init, last.level);
        OutlinesRise(init, level);
        OutlinesRise(init, last.level);
        PrefixesOfOne(Below(init, level), Below(init, last.level), Outline(init), level, last.level);
      }
    }
  }

  lemma PrefixesOfOne(x: seq<Heading>, y: seq<Heading>, all: seq<Heading>, level: nat, higher: nat)
    requires x <= all && y <= all && level <= higher
    requires forall k :: 0 <= k < |x| ==> x[k].level < level
    requires forall k :: |y| <= k < |all| ==> all[k].level >= higher
    ensures x <= y
  {
    assert x != [] ==> all[|x| - 1] == x[|x| - 1];
    assert forall k | 0 <= k < |x| :: k < |y| ==> x[k] == all[k] == y[k];
  }

  // A heading does not skip: what the stack keeps in front of it has lower levels.
  ghost predicate Nests(open: seq<Heading>, h: Heading) {
    forall k :: 0 <= k < |open| && k < h.level - 1 ==> open[k].level < h.level
  }

  lemma OneHeadingIff(hs: seq<Heading>)
    requires hs != []
    ensures
      var open, h := Outline(hs[..|hs| - 1]), hs[|hs| - 1];
      Opened(open, h) == Outline(hs) <==> Nests(open, h)
  {
    hide Outline, Below, Rising, Nests, Opened;
    var init, h := hs[..|hs| - 1], hs[|hs| - 1];
    BelowIsAPrefix(init, h.level);
    OutlinesRise(init, h.level);
    RisingOneMore(Below(init, h.level), h);
    OutlineStep(hs);
    CutByLengthOrByLevel(Outline(init), Below(init, h.level), h);
  }

  lemma CutByLengthOrByLevel(open: seq<Heading>, below: seq<Heading>, h: Heading)
    requires below <= open && |below| <= h.level - 1
    requires forall k :: 0 <= k < |below| ==> below[k].level < h.level
    requires forall k :: |below| <= k < |open| ==> open[k].level >= h.level
    ensures Opened(open, h) == below + [h] <==> Nests(open, h)
  {
    var kept := if h.level - 1 < |open| then open[..h.level - 1] else open;
    assert below <= kept && (kept + [h] == below + [h] <==> |kept| == |below|) by {
      assert |kept + [h]| == |kept| + 1 && |below + [h]| == |below| + 1;
    }
    if Nests(open, h) {
      assert kept != [] ==> open[|kept| - 1].level < h.level;
    } else {
      var k :| 0 <= k < |open| && k < h.level - 1 && open[k].level >= h.level;
      assert forall j | 0 <= j < |below| :: open[j] == below[j] && open[j].level < h.level;
    }
  }

  lemma OutlineStep(hs: seq<Heading>)
    requires hs != []
    ensures Outline(hs) == Below(hs[..|hs| - 1], hs[|hs| - 1].level) + [hs[|hs| - 1]]
  {
  }

  ghost predicate AgreesAt(hs: seq<Heading>, n: nat)
    requires n <= |hs|
  {
    Stack([], hs[..n]) == Outline(hs[..n])
  }

  ghost predicate NestsAt(hs: seq<Heading>, n: nat)
    requires n < |hs|
  {
    Nests(Outline(hs[..n]), hs[n])
  }

  ghost predicate AllNest(hs: seq<Heading>) {
    forall n :: 0 <= n < |hs| ==> NestsAt(hs, n)
  }

  // The stack is the outline after every heading if and only if every heading nests in the outline before it.
  lemma {:induction false} StacksAreOutlinesIff(hs: seq<Heading>)
    ensures (forall n :: 0 <= n <= |hs| ==> AgreesAt(hs, n)) <==> AllNest(hs)
    decreases |hs|
  {
    if hs == [] {
      assert AgreesAt(hs, 0);
    } else {
      var init := hs[..|hs| - 1];
      StacksAreOutlinesIff(init);
      TheLastHeading(hs);
      forall n | 0 <= n <= |init| ensures AgreesAt(hs, n) == AgreesAt(init, n) {
        EarlierHeadings(hs, n);
      }
      forall n | 0 <= n < |init| ensures NestsAt(hs, n) == NestsAt(init, n) {
        EarlierHeadings(hs, n);
      }
      hide AgreesAt, NestsAt;
    }
  }

  lemma EarlierHeadings(hs: seq<Heading>, n: nat)
    requires n < |hs|
    ensures AgreesAt(hs, n) == AgreesAt(hs[..|hs| - 1], n)
    ensures n < |hs| - 1 ==> NestsAt(hs, n) == NestsAt(hs[..|hs| - 1], n)
  {
    hide Outline, Stack, Nests;
    assert hs[..n] == hs[..|hs| - 1][..n];
  }

  lemma TheLastHeading(hs: seq<Heading>)
    requires hs != []
    ensures AgreesAt(hs[..|hs| - 1], |hs| - 1) ==> (AgreesAt(hs, |hs|) <==> NestsAt(hs, |hs| - 1))
  {
    hide Outline, Stack, Opened, Nests;
    OneHeadingIff(hs);
    StackStep(hs);
    assert hs[..|hs|] == hs && hs[..|hs| - 1][..|hs| - 1] == hs[..|hs| - 1];
  }

  lemma StackStep(hs: seq<Heading>)
    requires hs != []
    ensures Stack([], hs) == Opened(Stack([], hs[..|hs| - 1]), hs[|hs| - 1])
  {
  }

  // In particular when the first heading has level 1 and none is more than one level below its predecessor.
  lemma {:induction false} OrderlyHeadingsNest(hs: seq<Heading>)
    requires hs != [] ==> hs[0].level == 1
    requires forall k :: 0 < k < |hs| ==> hs[k].level <= hs[k - 1].level + 1
    ensures Stack([], hs) == Outline(hs) && |Outline(hs)| == if hs == [] then 0 else hs[|hs| - 1].level
    ensures forall k :: 0 <= k < |Outline(hs)| ==> Outline(hs)[k].level == k + 1
    decreases |hs|
  {
    if hs != [] {
      var init, h := hs[..|hs| - 1], hs[|hs| - 1];
      assert forall k | 0 <= k < |init| :: init[k] == hs[k];
      OrderlyHeadingsNest(init);
      OneHeadingIff(hs);
      StackStep(hs);
      hide Outline, Below, Stack;
      assert h.level <= |Outline(init)| + 1;
      assert Nests(Outline(init), h);
    }
  }
}
