/**
  Cleaning twice. Deleting a marker can splice the text around it into a new one; cleaning is idempotent exactly when
  that never yields an invalid marker, which can be read off the text.
  */
module CitationSplicing {
  import opened CitationMarkers
  import opened CitationFilter

  // Reading `t` and skipping complete invalid markers, the first characters are `s`.
  predicate Spells(valid: set<string>, t: string, s: string)
    decreases |t|
  {
    if s == "" then true
    else if t == "" then false
    else if InvalidMarkerAt(valid, t, 0) then Spells(valid, t[MarkerLen(t[0..])..], s)
    else t[0] == s[0] && Spells(valid, t[1..], s[1..])
  }

  // A bracket at k opens no marker, but skipping the invalid markers behind it spells the invalid marker `s`.
  ghost predicate SplicesAt(valid: set<string>, t: string, k: nat, s: string) {
    && k < |t| && MarkerLen(t[k..]) == 0 && Spells(valid, t[k..], s)
    && IsMarker(s) && !ValidMarker(valid, s)
  }

  // An unfinished marker: a bracket alone, or one with a letter and perhaps digits and a point.
  predicate Unfinished(t: string) {
    t == "[" || OpenMarker(t)
  }

  // An invalid marker starts at i, right behind an unfinished one that starts at k.
  ghost predicate BehindUnfinished(valid: set<string>, t: string, k: nat, i: nat) {
    k < i < |t| && Unfinished(t[k..i]) && InvalidMarkerAt(valid, t, i)
  }

  // ----- cleaning, one character or one invalid marker at a time

  lemma SkipOrKeep(valid: set<string>, t: string)
    requires t != ""
    ensures t[0..] == t
    ensures InvalidMarkerAt(valid, t, 0) ==> 4 <= MarkerLen(t) <= |t| && Clean(valid, t) == Clean(valid, t[MarkerLen(t)..])
    ensures !InvalidMarkerAt(valid, t, 0) ==> Clean(valid, t) == [t[0]] + Clean(valid, t[1..])
  {
    hide MarkerLen, Clean, IsMarker, ValidMarker;
    assert t[0..] == t;
    CleanStep(valid, t);
    if MarkerLen(t) > 0 {
      MarkerShape(t);
      if !InvalidMarkerAt(valid, t, 0) {
        ValidMarkersAreKept(valid, t);
      }
    }
  }

  lemma ValidMarkersAreKept(valid: set<string>, t: string)
    requires MarkerLen(t) >= 2 && ValidMarker(valid, t[..MarkerLen(t)])
    ensures Clean(valid, t) == [t[0]] + Clean(valid, t[1..])
  {
    hide MarkerLen, Clean, IsMarker, ValidMarker;
    var m := MarkerLen(t);
    MarkerShape(t);
    CleanStep(valid, t);
    var rest, after := t[1..m], t[m..];
    assert t[1..] == rest + after;
    NoBracketInFront(valid, rest, after);
    assert t[..m] == [t[0]] + rest;
    assert [t[0]] + (rest + Clean(valid, after)) == t[..m] + Clean(valid, after);
  }

  lemma NoBracketInFront(valid: set<string>, a: string, b: string)
    requires '[' !in a
    ensures Clean(valid, a + b) == a + Clean(valid, b)
  {
    hide Clean, Filtered;
    NoBracketNoMarker(valid, a, b, 0, {});
    WithoutCutsItIsClean(valid, a + b, 0);
    WithoutCutsItIsClean(valid, b, |a|);
  }

  lemma {:induction false} SpellingIsCleaning(valid: set<string>, t: string, s: string)
    ensures Spells(valid, t, s) <==> s <= Clean(valid, t)
    decreases |t|
  {
    hide MarkerLen, Clean, InvalidMarkerAt;
    if t == "" {
      CleanStep(valid, t);
    } else if s != "" {
      SkipOrKeep(valid, t);
      if InvalidMarkerAt(valid, t, 0) {
        SpellingIsCleaning(valid, t[MarkerLen(t)..], s);
      } else {
        SpellingIsCleaning(valid, t[1..], s[1..]);
        var u := [t[0]] + Clean(valid, t[1..]);
        assert s <= u <==> s[0] == t[0] && s[1..] <= Clean(valid, t[1..]) by {
          assert u[1..] == Clean(valid, t[1..]) && s == [s[0]] + s[1..];
        }
      }
    }
  }

  // Cleaning keeps a text exactly when it holds no invalid marker, and shortens it otherwise.
  lemma {:induction false} FixedIffNoInvalidMarker(valid: set<string>, t: string)
    ensures |Clean(valid, t)| <= |t|
    ensures |Clean(valid, t)| < |t| <==> exists i :: 0 <= i < |t| && InvalidMarkerAt(valid, t, i)
    ensures |Clean(valid, t)| == |t| ==> Clean(valid, t) == t
    decreases |t|
  {
    hide MarkerLen, Clean, InvalidMarkerAt;
    if t == "" {
      CleanStep(valid, t);
    } else {
      SkipOrKeep(valid, t);
      if InvalidMarkerAt(valid, t, 0) {
        FixedIffNoInvalidMarker(valid, t[MarkerLen(t)..]);
      } else {
        FixedIffNoInvalidMarker(valid, t[1..]);
        forall i: nat | i + 1 < |t| ensures InvalidMarkerAt(valid, t[1..], i) == InvalidMarkerAt(valid, t, i + 1) {
          SuffixMarker(valid, t, 1, i);
        }
        if i :| 0 <= i < |t| && InvalidMarkerAt(valid, t, i) {
          assert InvalidMarkerAt(valid, t[1..], i - 1);
        }
        if j :| 0 <= j < |t[1..]| && InvalidMarkerAt(valid, t[1..], j) {
          assert InvalidMarkerAt(valid, t, j + 1);
        }
      }
    }
  }

  lemma SuffixMarker(valid: set<string>, t: string, n: nat, i: nat)
    requires n + i <= |t|
    ensures InvalidMarkerAt(valid, t[n..], i) == InvalidMarkerAt(valid, t, n + i)
  {
    hide MarkerLen, ValidMarker;
    assert t[n..][i..] == t[n + i..];
  }

  // ----- where the markers of the cleaned text come from

  lemma {:induction false} EveryNewMarkerIsSpliced(valid: set<string>, t: string, i: nat) returns (k: nat, s: string)
    requires i < |Clean(valid, t)| && InvalidMarkerAt(valid, Clean(valid, t), i)
    ensures SplicesAt(valid, t, k, s)
    decreases |t|
  {
    hide MarkerLen, Clean, InvalidMarkerAt, IsMarker, ValidMarker, Spells;
    CleanStep(valid, "");
    SkipOrKeep(valid, t);
    var u := Clean(valid, t);
    if InvalidMarkerAt(valid, t, 0) {
      var m := MarkerLen(t);
      k, s := EveryNewMarkerIsSpliced(valid, t[m..], i);
      assert t[m..][k..] == t[m + k..];
      k := m + k;
    } else if i > 0 {
      assert u[1..] == Clean(valid, t[1..]);
      SuffixMarker(valid, u, 1, i - 1);
      k, s := EveryNewMarkerIsSpliced(valid, t[1..], i - 1);
      assert t[1..][k..] == t[k + 1..];
      k := k + 1;
    } else {
      k, s := 0, u[..MarkerLen(u[0..])];
      SpliceAtTheHead(valid, t);
    }
  }

  lemma SpliceAtTheHead(valid: set<string>, t: string)
    requires t != "" && !InvalidMarkerAt(valid, t, 0) && Clean(valid, t) != "" && InvalidMarkerAt(valid, Clean(valid, t), 0)
    ensures SplicesAt(valid, t, 0, Clean(valid, t)[..MarkerLen(Clean(valid, t)[0..])])
  {
    hide MarkerLen, Clean, IsMarker, ValidMarker, Spells;
    var u := Clean(valid, t);
    assert u[0..] == u && t[0..] == t;
    MarkerShape(u);
    SpellingIsCleaning(valid, t, u[..MarkerLen(u)]);
    var m := MarkerLen(t);
    CleanStep(valid, t);
    if m > 0 {
      MarkerShape(t);
      assert u == t[..m] + Clean(valid, t[m..]);
      MarkerIsLocal(t[..m], t[m..]);
      assert t == t[..m] + t[m..];
      MarkerIsLocal(t[..m], Clean(valid, t[m..]));
    }
  }

  lemma EverySpliceIsANewMarker(valid: set<string>, t: string, k: nat, s: string) returns (i: nat)
    requires SplicesAt(valid, t, k, s)
    ensures i < |Clean(valid, t)| && InvalidMarkerAt(valid, Clean(valid, t), i)
  {
    hide MarkerLen, Clean, IsMarker, ValidMarker, Spells, InvalidMarkerAt;
    var a, b := t[..k], t[k..];
    SpellingIsCleaning(valid, b, s);
    SpelledHead(valid, b, s);
    PublishedPiece(valid, a, b, 0, {});
    WithoutCutsItIsClean(valid, a + b, 0);
    WithoutCutsItIsClean(valid, b, |a|);
    assert t == a + b;
    var u := Clean(valid, t);
    i := |Clean(valid, a)|;
    assert u[i..] == Clean(valid, b) && Clean(valid, b)[..|s|] == s;
    MarkersAreRecognised(u[i..], |s|);
    InvalidAt(valid, u, i, s);
  }

  lemma InvalidAt(valid: set<string>, u: string, i: nat, s: string)
    requires i + |s| <= |u| && |s| >= 4 && MarkerLen(u[i..]) == |s| && u[i..][..|s|] == s && !ValidMarker(valid, s)
    ensures InvalidMarkerAt(valid, u, i)
  {
    hide MarkerLen;
  }

  // What spells a marker without starting with one starts with a bracket.
  lemma SpelledHead(valid: set<string>, t: string, s: string)
    requires t != "" && MarkerLen(t) == 0 && Spells(valid, t, s) && IsMarker(s)
    ensures t[0] == '[' && |s| >= 4
  {
    hide MarkerLen;
    assert t[0..] == t;
  }

  // Cleaning is idempotent if and only if no bracket of the text splices an invalid marker; otherwise a second pass
  // deletes more.
  lemma CleaningIsIdempotentIff(valid: set<string>, t: string)
    ensures Clean(valid, Clean(valid, t)) == Clean(valid, t) <==> !exists k: nat, s: string :: SplicesAt(valid, t, k, s)
    ensures (exists k: nat, s: string :: SplicesAt(valid, t, k, s)) ==>
              |Clean(valid, Clean(valid, t))| < |Clean(valid, t)|
  {
    hide Clean, InvalidMarkerAt, SplicesAt;
    var u := Clean(valid, t);
    FixedIffNoInvalidMarker(valid, u);
    if i: nat :| i < |u| && InvalidMarkerAt(valid, u, i) {
      var k, s := EveryNewMarkerIsSpliced(valid, t, i);
    }
    if k: nat, s: string :| SplicesAt(valid, t, k, s) {
      var i := EverySpliceIsANewMarker(valid, t, k, s);
    }
  }

  // ----- a simple guard

  // Before anything is skipped, a spliced marker reads as an unfinished one.
  lemma {:induction false} UpToTheFirstSkip(valid: set<string>, t: string, s: string) returns (n: nat)
    requires Spells(valid, t, s)
    ensures n <= |s| && n <= |t| && t[..n] == s[..n]
    ensures n < |s| ==> n < |t| && InvalidMarkerAt(valid, t, n)
    decreases |t|
  {
    hide MarkerLen, InvalidMarkerAt;
    n := 0;
    if s != "" && !InvalidMarkerAt(valid, t, 0) {
      n := UpToTheFirstSkip(valid, t[1..], s[1..]);
      if n < |s| - 1 {
        SuffixMarker(valid, t, 1, n);
      }
      assert t[..n + 1] == [t[0]] + t[1..][..n] && s[..n + 1] == [s[0]] + s[1..][..n];
      n := n + 1;
    }
  }

  lemma SplicesHaveAnUnfinishedMarker(valid: set<string>, t: string, k: nat, s: string) returns (i: nat)
    requires SplicesAt(valid, t, k, s)
    ensures BehindUnfinished(valid, t, k, i)
  {
    hide MarkerLen, ValidMarker, InvalidMarkerAt;
    var n := UpToTheFirstSkip(valid, t[k..], s);
    assert s[..|s|] == s;
    MarkersAreRecognised(s, |s|);
    MarkerShape(s);
    if n == |s| {
      assert t[k..][..|s|] == s;
      MarkersAreRecognised(t[k..], |s|);
    }
    NotAtTheHead(valid, t, k);
    i := k + n;
    SuffixMarker(valid, t, k, n);
    assert t[k..i] == s[..n];
    if n == 1 {
      assert s[..1] == "[";
    } else {
      CutMarkerIsOpen(s, n);
    }
  }

  lemma NotAtTheHead(valid: set<string>, t: string, k: nat)
    requires k <= |t| && MarkerLen(t[k..]) == 0
    ensures !InvalidMarkerAt(valid, t[k..], 0)
  {
    hide MarkerLen;
    assert t[k..][0..] == t[k..];
  }

  // No invalid marker right behind an unfinished one: cleaning once is enough.
  lemma WithoutUnfinishedMarkersOnceIsEnough(valid: set<string>, t: string)
    requires forall k: nat, i: nat :: !BehindUnfinished(valid, t, k, i)
    ensures Clean(valid, Clean(valid, t)) == Clean(valid, t)
  {
    hide Clean, SplicesAt, BehindUnfinished;
    CleaningIsIdempotentIff(valid, t);
    if k: nat, s: string :| SplicesAt(valid, t, k, s) {
      var i := SplicesHaveAnUnfinishedMarker(valid, t, k, s);
    }
  }

  // Deleting a marker can splice a new one together: cleaning is not idempotent.
  lemma CleaningIsNotIdempotent()
    ensures Clean({"R1"}, "[R[W9]9]") == "[R9]" && Clean({"R1"}, "[R9]") == ""
  {
    hide Clean, MarkerLen, IsMarker;
    var valid := {"R1"};
    OneDigitMarker("[R[W9]9]", 0);
    CleanStep(valid, "[R[W9]9]");
    assert "[R[W9]9]"[1..] == "R[W9]9]" && "R[W9]9]"[1..] == "[W9]9]";
    OneDigitMarker("R[W9]9]", 0);
    CleanStep(valid, "R[W9]9]");
    OneDigitMarker("[W9]9]", 4);
    assert "[W9]9]"[..4] == "[W9]" && "[W9]9]"[4..] == "9]" && "[W9]"[1..3] == "W9" != "R1";
    CleanStep(valid, "[W9]9]");
    NoBracketNoMarker(valid, "9]", "", 0, {});
    OneDigitMarker("[R9]", 4);
    assert "[R9]"[..4] == "[R9]" && "[R9]"[4..] == "" && "[R9]"[1..3] == "R9" != "R1";
    CleanStep(valid, "[R9]");
    CleanStep(valid, "");
  }

  lemma OneDigitMarker(t: string, m: nat)
    requires |t| >= 4
    requires m == if t[0] == '[' && (t[1] == 'R' || t[1] == 'W') && t[2] == '9' && t[3] == ']' then 4 else 0
    requires m == 4 || t[0] != '[' || t[2] == '['
    ensures MarkerLen(t) == m
  {
    if m == 4 {
      assert DigitsBetween(t[..4], 2, 3);
      MarkersAreRecognised(t, 4);
    } else if MarkerLen(t) > 0 {
      MarkerShape(t);
    }
  }
}
