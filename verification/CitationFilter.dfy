/**
  The batch cleaner `Clean`, the streaming filter, and exactly when the two agree.

  A stream cuts the text at chunk boundaries. A boundary inside a marker is survived when the filter holds the cut
  marker back, which it does for 2 to 10 characters; any other cut makes the filter publish the two halves, so the
  marker stays in the output even if it is invalid. `Spared` says the same of a text and a set of cut positions.
  */
module CitationFilter {
  import opened Wrappers
  import opened CitationMarkers

  const MAX_BRACKET_LEN := 10

  // ----- specifications

  function Clean(valid: set<string>, t: string): string {
    if t == "" then ""
    else
      var m := MarkerLen(t);
      if m == 0 then [t[0]] + Clean(valid, t[1..])
      else (if m >= 2 && ValidMarker(valid, t[..m]) then t[..m] else "") + Clean(valid, t[m..])
  }

  // validate_citations(content, valid).cleaned_content
  function Batch(valid: set<string>, t: string): string {
    if valid == {} then t else Clean(valid, t)
  }

  // str.rfind("[")
  function LastBracket(t: string): (p: int)
    ensures -1 <= p < |t|
    ensures p >= 0 ==> t[p] == '['
    ensures forall i :: p < i < |t| ==> t[i] != '['
  {
    if t == "" then -1
    else if t[|t| - 1] == '[' then |t| - 1
    else LastBracket(t[..|t| - 1])
  }

  // ^\[[RW]\d*(?:\.\d*)?$, where $ also matches before a final line feed
  predicate PartialPrefix(tail: string) {
    OpenMarker(tail) || (tail != "" && tail[|tail| - 1] == '\n' && OpenMarker(tail[..|tail| - 1]))
  }

  // _find_potential_split
  function Held(t: string): (p: Option<nat>)
    ensures p.Some? ==> p.value < |t|
  {
    var p := LastBracket(t);
    if p == -1 || |t| - p > MAX_BRACKET_LEN || ']' in t[p..] || !PartialPrefix(t[p..]) then None else Some(p)
  }

  function Text(chunks: seq<string>): string {
    if chunks == [] then "" else chunks[0] + Text(chunks[1..])
  }

  // What pushing `chunks` and then flushing publishes in all, starting with `buffer` held back.
  function Published(valid: set<string>, buffer: string, chunks: seq<string>): string
    decreases |chunks|
  {
    if chunks == [] then Clean(valid, buffer)
    else
      var combined := buffer + chunks[0];
      match Held(combined)
      case None => Clean(valid, combined) + Published(valid, "", chunks[1..])
      case Some(p) => Clean(valid, combined[..p]) + Published(valid, combined[p..], chunks[1..])
  }

  function Streamed(valid: set<string>, chunks: seq<string>): string {
    if valid == {} then Text(chunks) else Published(valid, "", chunks)
  }

  // The positions at which the chunks end, the first chunk starting at `at`.
  function Cuts(at: nat, chunks: seq<string>): (cuts: set<nat>)
    ensures forall c :: c in cuts ==> c >= at
    decreases |chunks|
  {
    if chunks == [] then {} else {at + |chunks[0]|} + Cuts(at + |chunks[0]|, chunks[1..])
  }

  // Some cut falls inside the marker of length m at position `at`, and the filter would not hold that part back.
  ghost predicate Spared(at: nat, m: nat, cuts: set<nat>) {
    exists c :: c in cuts && at < c < at + m && !(2 <= c - at <= 10)
  }

  // Clean, except that spared markers stay; `t` starts at position `at` of the whole text.
  ghost function Filtered(valid: set<string>, t: string, at: nat, cuts: set<nat>): string
    decreases |t|
  {
    if t == "" then ""
    else
      var m := MarkerLen(t);
      if m == 0 then [t[0]] + Filtered(valid, t[1..], at + 1, cuts)
      else
        (if (m >= 2 && ValidMarker(valid, t[..m])) || Spared(at, m, cuts) then t[..m] else "")
        + Filtered(valid, t[m..], at + m, cuts)
  }

  // ----- text without brackets, and cuts that lie behind

  lemma {:induction false} CutsBehindDoNotMatter(valid: set<string>, t: string, at: nat, cuts: set<nat>, cut: nat)
    requires cut <= at
    ensures Filtered(valid, t, at, cuts + {cut}) == Filtered(valid, t, at, cuts)
    decreases |t|
  {
    hide MarkerLen, Filtered, ValidMarker, Spared;
    if t == "" {
      FilteredOfNothing(valid, t, at, cuts);
      FilteredOfNothing(valid, t, at, cuts + {cut});
    } else {
      var m := MarkerLen(t);
      FilteredStep(valid, t, at, cuts);
      FilteredStep(valid, t, at, cuts + {cut});
      if m == 0 {
        CutsBehindDoNotMatter(valid, t[1..], at + 1, cuts, cut);
      } else {
        CutsBehindDoNotMatter(valid, t[m..], at + m, cuts, cut);
        CutBehindSparesNothing(at, m, cuts, cut);
      }
    }
  }

  lemma CutBehindSparesNothing(at: nat, m: nat, cuts: set<nat>, cut: nat)
    requires cut <= at
    ensures Spared(at, m, cuts + {cut}) == Spared(at, m, cuts)
  {
  }

  lemma {:induction false} NoBracketNoMarker(valid: set<string>, a: string, b: string, at: nat, cuts: set<nat>)
    requires '[' !in a
    ensures Filtered(valid, a + b, at, cuts) == a + Filtered(valid, b, at + |a|, cuts)
    ensures Clean(valid, a) == a
    decreases |a|
  {
    hide MarkerLen, Filtered, Clean, ValidMarker, IsMarker, Spared;
    CleanStep(valid, a);
    if a == "" {
      assert a + b == b;
    } else {
      assert (a + b)[1..] == a[1..] + b;
      assert a[0] in a;
      if MarkerLen(a + b) > 0 { MarkerShape(a + b); }
      if MarkerLen(a) > 0 { MarkerShape(a); }
      NoBracketNoMarker(valid, a[1..], b, at + 1, cuts);
      FilteredStep(valid, a + b, at, cuts);
      assert [a[0]] + (a[1..] + Filtered(valid, b, at + |a|, cuts)) == a + Filtered(valid, b, at + |a|, cuts);
    }
  }

  lemma {:induction false} WithoutCutsItIsClean(valid: set<string>, t: string, at: nat)
    ensures Filtered(valid, t, at, {}) == Clean(valid, t)
    decreases |t|
  {
    if t != "" {
      var m := MarkerLen(t);
      if m == 0 {
        WithoutCutsItIsClean(valid, t[1..], at + 1);
      } else {
        WithoutCutsItIsClean(valid, t[m..], at + m);
      }
    }
  }

  // ----- one published piece

  lemma NothingHeldInATail(t: string, n: nat)
    requires n <= |t| && Held(t).None?
    ensures Held(t[n..]).None?
  {
    var p, q := LastBracket(t), LastBracket(t[n..]);
    if q >= 0 {
      assert t[n + q] == '[';
      assert p >= n ==> t[n..][p - n] == '[';
      assert p == n + q;
      assert t[n..][q..] == t[p..];
    }
  }

  // A marker that starts in `a` and ends in `b` was not held back, so its cut is not between 2 and 10.
  lemma AnUnheldCutSpares(a: string, b: string, at: nat, cuts: set<nat>)
    requires 0 < |a| < MarkerLen(a + b) && Held(a).None? && at + |a| in cuts
    ensures Spared(at, MarkerLen(a + b), cuts)
  {
    MarkerShape(a + b);
    assert forall i :: 0 <= i < |a| ==> a[i] == (a + b)[i];
    assert LastBracket(a) == 0 && a[0..] == a;
    if 2 <= |a| {
      CutMarkerIsOpen(a + b, |a|);
      assert (a + b)[..|a|] == a;
    }
  }

  lemma FilteredStep(valid: set<string>, t: string, at: nat, cuts: set<nat>)
    requires t != ""
    ensures MarkerLen(t) == 0 ==> Filtered(valid, t, at, cuts) == [t[0]] + Filtered(valid, t[1..], at + 1, cuts)
    ensures MarkerLen(t) > 0 ==>
              Filtered(valid, t, at, cuts)
              == (if MarkerLen(t) >= 2 && ValidMarker(valid, t[..MarkerLen(t)]) then t[..MarkerLen(t)]
                  else if Spared(at, MarkerLen(t), cuts) then t[..MarkerLen(t)]
                  else "")
                 + Filtered(valid, t[MarkerLen(t)..], at + MarkerLen(t), cuts)
  {
  }

  lemma CleanStep(valid: set<string>, t: string)
    ensures t == "" ==> Clean(valid, t) == ""
    ensures t != "" && MarkerLen(t) == 0 ==> Clean(valid, t) == [t[0]] + Clean(valid, t[1..])
    ensures MarkerLen(t) > 0 ==>
              Clean(valid, t)
              == (if MarkerLen(t) >= 2 && ValidMarker(valid, t[..MarkerLen(t)]) then t[..MarkerLen(t)] else "")
                 + Clean(valid, t[MarkerLen(t)..])
  {
  }

  lemma Associate(x: string, y: string, z: string)
    ensures x + (y + z) == (x + y) + z
  {
  }

  // Publishing `a` on its own agrees with Filtered when nothing of it had to be held, or when a bracket follows it.
  lemma {:induction false} PublishedPiece(valid: set<string>, a: string, b: string, at: nat, cuts: set<nat>)
    requires forall c :: c in cuts ==> c >= at + |a|
    requires (b != "" && b[0] == '[') || (Held(a).None? && at + |a| in cuts)
    ensures Filtered(valid, a + b, at, cuts) == Clean(valid, a) + Filtered(valid, b, at + |a|, cuts)
    decreases |a|
  {
    hide MarkerLen, Held, Filtered, Clean, ValidMarker;
    if a == "" {
      assert a + b == b;
      CleanStep(valid, a);
      return;
    }
    var m := MarkerLen(a + b);
    MarkerIsLocal(a, b);
    FilteredStep(valid, a + b, at, cuts);
    CleanStep(valid, a);
    if m == 0 {
      assert (a + b)[1..] == a[1..] + b;
      if Held(a).None? { NothingHeldInATail(a, 1); }
      PublishedPiece(valid, a[1..], b, at + 1, cuts);
      Associate([a[0]], Clean(valid, a[1..]), Filtered(valid, b, at + |a|, cuts));
    } else if m <= |a| {
      assert (a + b)[m..] == a[m..] + b && (a + b)[..m] == a[..m];
      if Held(a).None? { NothingHeldInATail(a, m); }
      PublishedPiece(valid, a[m..], b, at + m, cuts);
      assert !Spared(at, m, cuts);
      hide Spared;
      Associate(if m >= 2 && ValidMarker(valid, a[..m]) then a[..m] else "", Clean(valid, a[m..]),
        Filtered(valid, b, at + |a|, cuts));
    } else {
      CutMarkerStays(valid, a, b, at, cuts);
    }
  }

  lemma CutMarkerStays(valid: set<string>, a: string, b: string, at: nat, cuts: set<nat>)
    requires 0 < |a| < MarkerLen(a + b)
    requires (b != "" && b[0] == '[') || (Held(a).None? && at + |a| in cuts)
    ensures Filtered(valid, a + b, at, cuts) == Clean(valid, a) + Filtered(valid, b, at + |a|, cuts)
  {
    hide MarkerLen, Held, Filtered, Clean, ValidMarker, IsMarker;
    var t, m := a + b, MarkerLen(a + b);
    MarkerShape(t);
    assert b[0] == t[|a|];
    AnUnheldCutSpares(a, b, at, cuts);
    FilteredStep(valid, t, at, cuts);
    var rest, after := t[|a|..m], b[m - |a|..];
    assert t[m..] == after && b == rest + after && t[..m] == a + rest;
    assert '[' !in rest;
    NoBracketNoMarker(valid, rest, after, at + |a|, cuts);
    OpeningOnly(valid, a, b);
  }

  lemma OpeningOnly(valid: set<string>, a: string, b: string)
    requires 0 < |a| < MarkerLen(a + b)
    ensures Clean(valid, a) == a
  {
    hide MarkerLen, Clean, IsMarker;
    MarkerShape(a + b);
    MarkerIsLocal(a, b);
    assert forall i :: 0 <= i < |a| ==> a[i] == (a + b)[i];
    assert '[' !in a[1..];
    NoBracketNoMarker(valid, a[1..], "", 0, {});
    CleanStep(valid, a);
    assert a == [a[0]] + a[1..];
  }

  // ----- what is held back

  // Between 2 and 10 characters, a bracket only at the start and none that closes.
  lemma HeldTail(t: string)
    requires Held(t).Some?
    ensures var tail := t[Held(t).value..];
            2 <= |tail| <= MAX_BRACKET_LEN && tail[0] == '[' && '[' !in tail[1..] && ']' !in tail
  {
  }

  // The filter holds back exactly a tail of two to ten characters that can still become a marker, one that only looks
  // so, and either of them followed by a line feed.
  ghost predicate LooksOpen(tail: string) {
    |tail| >= 2 && (CanBecomeMarker(tail) || DotWithoutNumber(tail))
  }

  ghost predicate IsHeld(t: string, p: nat) {
    && p <= |t| && |t| - p <= 10
    && (LooksOpen(t[p..]) || (p < |t| && t[|t| - 1] == '\n' && LooksOpen(t[p..|t| - 1])))
  }

  lemma WhatIsHeld(t: string, p: nat)
    ensures Held(t) == Some(p) <==> IsHeld(t, p)
  {
    hide IsMarker, OpenMarker, CanBecomeMarker, DotWithoutNumber;
    if p <= |t| {
      var tail := t[p..];
      OpenMarkersAre(tail);
      if tail != "" {
        assert tail[..|tail| - 1] == t[p..|t| - 1];
        OpenMarkersAre(tail[..|tail| - 1]);
      }
      if PartialPrefix(tail) {
        OpenTail(t, p);
      }
    }
  }

  lemma OpenTail(t: string, p: nat)
    requires p <= |t| && PartialPrefix(t[p..])
    ensures LastBracket(t) == p && ']' !in t[p..]
  {
    hide PartialPrefix;
    var tail := t[p..];
    OneBracketOnly(tail);
    forall i | p < i < |t| ensures t[i] != '[' {
      assert t[i] == tail[i - p];
    }
    BracketAt(t, p);
  }

  lemma OneBracketOnly(tail: string)
    requires PartialPrefix(tail)
    ensures |tail| >= 2 && tail[0] == '[' && forall i :: 1 <= i < |tail| ==> tail[i] != '[' && tail[i] != ']'
  {
    if OpenMarker(tail) {
      NoBracketsInside(tail);
    } else {
      NoBracketsInside(tail[..|tail| - 1]);
      assert forall i :: 0 <= i < |tail| - 1 ==> tail[i] == tail[..|tail| - 1][i];
    }
  }

  lemma NoBracketsInside(tail: string)
    requires OpenMarker(tail)
    ensures forall i :: 1 <= i < |tail| ==> tail[i] != '[' && tail[i] != ']'
  {
  }

  lemma BracketAt(t: string, p: nat)
    requires p < |t| && t[p] == '[' && forall i :: p < i < |t| ==> t[i] != '['
    ensures LastBracket(t) == p
  {
  }

  // The cut at the end of a held tail spares nothing.
  lemma HeldCutIsHarmless(valid: set<string>, tail: string, b: string, at: nat, cuts: set<nat>)
    requires 2 <= |tail| <= MAX_BRACKET_LEN && tail[0] == '[' && '[' !in tail[1..] && ']' !in tail
    ensures Filtered(valid, tail + b, at, cuts + {at + |tail|}) == Filtered(valid, tail + b, at, cuts)
  {
    hide MarkerLen, Filtered, Clean, ValidMarker, IsMarker;
    var t, cut := tail + b, at + |tail|;
    var m := MarkerLen(t);
    FilteredStep(valid, t, at, cuts);
    FilteredStep(valid, t, at, cuts + {cut});
    if m > 0 {
      MarkerShape(t);
      assert forall i :: 0 <= i < |tail| ==> tail[i] == t[i] != ']';
      CutsBehindDoNotMatter(valid, t[m..], at + m, cuts, cut);
      assert Spared(at, m, cuts + {cut}) == Spared(at, m, cuts);
    } else {
      assert t[1..] == tail[1..] + b;
      NoBracketNoMarker(valid, tail[1..], b, at + 1, cuts + {cut});
      NoBracketNoMarker(valid, tail[1..], b, at + 1, cuts);
      CutsBehindDoNotMatter(valid, b, cut, cuts, cut);
    }
  }

  // ----- the stream

  // Whatever the chunks, the stream publishes the text less its invalid markers, but keeps the spared ones.
  lemma {:induction false} StreamIsFiltered(valid: set<string>, buffer: string, chunks: seq<string>, at: nat)
    ensures Published(valid, buffer, chunks) == Filtered(valid, buffer + Text(chunks), at, Cuts(at + |buffer|, chunks))
    decreases |chunks|
  {
    hide MarkerLen, Held, Filtered, Clean, Spared, ValidMarker;
    if chunks == [] {
      assert buffer + Text(chunks) == buffer;
      WithoutCutsItIsClean(valid, buffer, at);
      return;
    }
    var combined, rest := buffer + chunks[0], chunks[1..];
    var cut := at + |combined|;
    StreamStep(buffer, chunks, at);
    PublishedStep(valid, buffer, chunks);
    hide Text, Cuts, Published;
    match Held(combined)
    case None =>
      assert "" + Text(rest) == Text(rest) && cut + |""| == cut;
      StreamIsFiltered(valid, "", rest, cut);
      CutsBehindDoNotMatter(valid, Text(rest), cut, Cuts(cut, rest), cut);
      PublishedPiece(valid, combined, Text(rest), at, Cuts(cut, rest) + {cut});
    case Some(p) =>
      StreamIsFiltered(valid, combined[p..], rest, at + p);
      HeldPiece(valid, combined, Text(rest), at, Cuts(cut, rest));
  }

  lemma PublishedStep(valid: set<string>, buffer: string, chunks: seq<string>)
    requires chunks != []
    ensures
      var combined := buffer + chunks[0];
      Published(valid, buffer, chunks)
      == match Held(combined)
         case None => Clean(valid, combined) + Published(valid, "", chunks[1..])
         case Some(p) => Clean(valid, combined[..p]) + Published(valid, combined[p..], chunks[1..])
  {
    hide Held, Clean;
  }

  lemma StreamStep(buffer: string, chunks: seq<string>, at: nat)
    requires chunks != []
    ensures buffer + Text(chunks) == buffer + chunks[0] + Text(chunks[1..])
    ensures Cuts(at + |buffer|, chunks)
            == Cuts(at + |buffer + chunks[0]|, chunks[1..]) + {at + |buffer + chunks[0]|}
  {
  }

  // One push that holds a tail back: the rest is published, and the cut that ends the tail does no harm.
  lemma HeldPiece(valid: set<string>, combined: string, later: string, at: nat, cuts: set<nat>)
    requires Held(combined).Some? && forall c :: c in cuts ==> c >= at + |combined|
    ensures
      var p := Held(combined).value;
      Filtered(valid, combined + later, at, cuts + {at + |combined|})
      == Clean(valid, combined[..p]) + Filtered(valid, combined[p..] + later, at + p, cuts)
  {
    hide MarkerLen, Filtered, Clean, ValidMarker, IsMarker, Held;
    HeldTail(combined);
    var p := Held(combined).value;
    var ready, tail := combined[..p], combined[p..];
    HeldCutIsHarmless(valid, tail, later, at + p, cuts);
    assert combined + later == ready + (tail + later);
    PublishedPiece(valid, ready, tail + later, at, cuts + {at + |combined|});
  }

  // ----- when stream and batch agree

  // A marker starts at i and does not name a valid reference.
  predicate InvalidMarkerAt(valid: set<string>, t: string, i: nat)
    requires i <= |t|
  {
    MarkerLen(t[i..]) >= 2 && !ValidMarker(valid, t[i..][..MarkerLen(t[i..])])
  }

  // ... and is cut where the filter does not hold it back.
  ghost predicate CutInvalidMarker(valid: set<string>, t: string, i: nat, cuts: set<nat>)
    requires i <= |t|
  {
    InvalidMarkerAt(valid, t, i) && Spared(i, MarkerLen(t[i..]), cuts)
  }

  lemma NoMarkerInsideAMarker(t: string, i: nat)
    requires i <= |t| && MarkerLen(t[i..]) > 0
    ensures i + MarkerLen(t[i..]) <= |t|
    ensures forall j :: i < j < i + MarkerLen(t[i..]) ==> MarkerLen(t[j..]) == 0
  {
    MarkerShape(t[i..]);
    forall j | i < j < i + MarkerLen(t[i..]) ensures MarkerLen(t[j..]) == 0 {
      assert t[j..][0] == t[i..][j - i];
    }
  }

  // One step of both functions at position i.
  lemma StepAt(valid: set<string>, t: string, i: nat, cuts: set<nat>) returns (n: nat, kept: string, filtered: string)
    requires i < |t|
    ensures n == (if MarkerLen(t[i..]) == 0 then 1 else MarkerLen(t[i..])) && 0 < n && i + n <= |t|
    ensures Filtered(valid, t[i..], i, cuts) == filtered + Filtered(valid, t[i + n..], i + n, cuts)
    ensures Clean(valid, t[i..]) == kept + Clean(valid, t[i + n..])
    ensures kept == if InvalidMarkerAt(valid, t, i) then "" else t[i..i + n]
    ensures filtered == if InvalidMarkerAt(valid, t, i) && !CutInvalidMarker(valid, t, i, cuts) then "" else t[i..i + n]
    ensures forall j :: i < j < i + n ==> !InvalidMarkerAt(valid, t, j)
  {
    hide MarkerLen, Filtered, Clean, ValidMarker, IsMarker, Spared;
    FilteredStep(valid, t[i..], i, cuts);
    CleanStep(valid, t[i..]);
    n := if MarkerLen(t[i..]) == 0 then 1 else MarkerLen(t[i..]);
    kept := if InvalidMarkerAt(valid, t, i) then "" else t[i..i + n];
    filtered := if InvalidMarkerAt(valid, t, i) && !CutInvalidMarker(valid, t, i, cuts) then "" else t[i..i + n];
    assert t[i..][n..] == t[i + n..] && t[i..][..n] == t[i..i + n] && t[i..][0] == t[i];
    if MarkerLen(t[i..]) > 0 {
      MarkerShape(t[i..]);
      NoMarkerInsideAMarker(t, i);
    }
  }

  lemma {:induction false} SparedMarkersMakeItLonger(valid: set<string>, t: string, i: nat, cuts: set<nat>)
    requires i <= |t|
    ensures |Filtered(valid, t[i..], i, cuts)| >= |Clean(valid, t[i..])|
    ensures (exists j :: i <= j < |t| && CutInvalidMarker(valid, t, j, cuts)) ==>
              |Filtered(valid, t[i..], i, cuts)| > |Clean(valid, t[i..])|
    ensures (forall j :: i <= j < |t| ==> !CutInvalidMarker(valid, t, j, cuts)) ==>
              Filtered(valid, t[i..], i, cuts) == Clean(valid, t[i..])
    decreases |t| - i
  {
    hide MarkerLen, Filtered, Clean, InvalidMarkerAt, Spared;
    if i < |t| {
      var n, kept, filtered := StepAt(valid, t, i, cuts);
      SparedMarkersMakeItLonger(valid, t, i + n, cuts);
    } else {
      WithoutCutsItIsClean(valid, t[i..], i);
      FilteredOfNothing(valid, t[i..], i, cuts);
    }
  }

  lemma FilteredOfNothing(valid: set<string>, t: string, at: nat, cuts: set<nat>)
    requires t == ""
    ensures Filtered(valid, t, at, cuts) == "" == Clean(valid, t)
  {
  }

  // The stream equals the batch cleaner exactly when no invalid marker is cut right after its bracket or beyond ten
  // characters: all texts, all ways to cut them.
  lemma StreamEqualsBatchIff(valid: set<string>, chunks: seq<string>)
    ensures
      Streamed(valid, chunks) == Batch(valid, Text(chunks))
      <==> (valid == {}
            || forall i :: 0 <= i < |Text(chunks)| ==> !CutInvalidMarker(valid, Text(chunks), i, Cuts(0, chunks)))
  {
    hide MarkerLen, Filtered, Clean, InvalidMarkerAt, Spared, Published, Text, Cuts;
    var t := Text(chunks);
    StreamIsFiltered(valid, "", chunks, 0);
    assert "" + t == t && t[0..] == t;
    SparedMarkersMakeItLonger(valid, t, 0, Cuts(0, chunks));
  }

  // The shortest failure: any invalid marker, cut right after its bracket, survives the stream.
  lemma AMarkerCutAfterItsBracketSurvives(valid: set<string>, marker: string)
    requires valid != {} && IsMarker(marker) && !ValidMarker(valid, marker)
    ensures Streamed(valid, ["[", marker[1..]]) == marker && Batch(valid, marker) == ""
  {
    hide MarkerLen, Clean, ValidMarker, Published;
    assert marker[..|marker|] == marker && marker[|marker|..] == "";
    MarkersAreRecognised(marker, |marker|);
    MarkerShape(marker);
    CleanStep(valid, marker);
    CleanStep(valid, "");
    assert "[" + marker[1..] == marker;
    OpeningOnly(valid, "[", marker[1..]);
    NoBracketNoMarker(valid, marker[1..], "", 0, {});
    TwoPieces(valid, "[", marker[1..]);
  }

  lemma TwoPieces(valid: set<string>, a: string, b: string)
    requires a == "[" && '[' !in b
    ensures Published(valid, "", [a, b]) == Clean(valid, a) + Clean(valid, b)
  {
    hide Clean, OpenMarker;
    TooShort(a);
    TooShort("");
    assert a[0..] == a;
    assert [a, b][1..] == [b] && [b][1..] == [];
    NothingHeld(valid, a, [a, b]);
    NothingHeld(valid, b, [b]);
    CleanStep(valid, "");
    assert Published(valid, "", []) == "";
  }

  lemma NothingHeld(valid: set<string>, chunk: string, chunks: seq<string>)
    requires chunks != [] && chunks[0] == chunk && Held(chunk).None?
    ensures Published(valid, "", chunks) == Clean(valid, chunk) + Published(valid, "", chunks[1..])
  {
    hide Clean, Held;
    assert "" + chunk == chunk;
  }

  lemma TooShort(t: string)
    requires |t| < 2
    ensures !OpenMarker(t)
  {
  }

  // In particular when markers have at most eleven characters and no chunk ends right after a marker's bracket.
  lemma ShortMarkersSurviveTheCuts(valid: set<string>, chunks: seq<string>)
    requires forall i, c | 0 <= i < |Text(chunks)| && c in Cuts(0, chunks) && MarkerLen(Text(chunks)[i..]) > 0 ::
               c != i + 1 && MarkerLen(Text(chunks)[i..]) <= 11
    ensures Streamed(valid, chunks) == Batch(valid, Text(chunks))
  {
    hide MarkerLen, Published, Clean, Text, Cuts, ValidMarker;
    StreamEqualsBatchIff(valid, chunks);
  }
}
