/**
  Citation markers such as [R1.2] or [W3]: the pattern, the batch cleaner, and what cutting a text does to it.

  `valid` is the set of reference ids a marker may carry.
  */
module CitationMarkers {
  import opened Characters

  // The end of the run of digits that starts at `from`.
  function DigitsEnd(t: string, from: nat): (n: nat)
    requires from <= |t|
    ensures from <= n <= |t|
    ensures forall i :: from <= i < n ==> IsDigit(t[i])
    ensures n < |t| ==> !IsDigit(t[n])
    decreases |t| - from
  {
    if from == |t| || !IsDigit(t[from]) then from else DigitsEnd(t, from + 1)
  }

  // The length of the match of \[([RW])(\d+)(?:\.(\d+))?\] at the head of `t`, 0 if there is none.
  function MarkerLen(t: string): (m: nat)
    ensures m <= |t|
  {
    if |t| < 2 || t[0] != '[' || (t[1] != 'R' && t[1] != 'W') then 0
    else
      var d := DigitsEnd(t, 2);
      if d == 2 || d == |t| then 0
      else if t[d] == ']' then d + 1
      else if t[d] != '.' then 0
      else
        var e := DigitsEnd(t, d + 1);
        if e == d + 1 || e == |t| || t[e] != ']' then 0 else e + 1
  }

  ghost predicate DigitsBetween(t: string, from: nat, to: int) {
    from < to <= |t| && forall i :: from <= i < to ==> IsDigit(t[i])
  }

  // A whole marker, as the grammar has it.
  ghost predicate IsMarker(t: string) {
    && |t| >= 4 && t[0] == '[' && (t[1] == 'R' || t[1] == 'W') && t[|t| - 1] == ']'
    && (|| DigitsBetween(t, 2, |t| - 1)
        || exists d :: DigitsBetween(t, 2, d) && t[d] == '.' && DigitsBetween(t, d + 1, |t| - 1))
  }

  // \[[RW]\d*(?:\.\d*)? over the whole of `t`.
  predicate OpenMarker(t: string) {
    && |t| >= 2 && t[0] == '[' && (t[1] == 'R' || t[1] == 'W')
    && var d := DigitsEnd(t, 2);
       d == |t| || (t[d] == '.' && DigitsEnd(t, d + 1) == |t|)
  }

  predicate ValidMarker(valid: set<string>, marker: string)
    requires |marker| >= 2
  {
    marker[1..|marker| - 1] in valid
  }

  // ----- facts about the pattern

  lemma MarkerShape(t: string)
    requires MarkerLen(t) > 0
    ensures 4 <= MarkerLen(t) <= |t| && t[0] == '[' && t[MarkerLen(t) - 1] == ']'
    ensures forall i :: 0 < i < MarkerLen(t) ==> t[i] != '['
    ensures forall i :: 0 <= i < MarkerLen(t) - 1 ==> t[i] != ']'
    ensures IsMarker(t[..MarkerLen(t)])
  {
    var m, d := MarkerLen(t), DigitsEnd(t, 2);
    var marker := t[..m];
    assert DigitsBetween(marker, 2, d);
    if t[d] != ']' {
      assert DigitsBetween(marker, d + 1, m - 1);
    }
  }

  // The recogniser finds exactly the grammar's markers.
  lemma MarkersAreRecognised(t: string, m: nat)
    requires m <= |t| && IsMarker(t[..m])
    ensures MarkerLen(t) == m
  {
    var marker := t[..m];
    assert forall i :: 0 <= i < m ==> t[i] == marker[i];
    if DigitsBetween(marker, 2, m - 1) {
      assert DigitsEnd(t, 2) == m - 1;
    } else {
      var d :| DigitsBetween(marker, 2, d) && marker[d] == '.' && DigitsBetween(marker, d + 1, m - 1);
      assert DigitsEnd(t, 2) == d;
      assert DigitsEnd(t, d + 1) == m - 1;
    }
  }

  // Whether a marker starts here depends on no more text than the marker itself.
  lemma MarkerIsLocal(a: string, b: string)
    ensures MarkerLen(a) > 0 ==> MarkerLen(a + b) == MarkerLen(a)
    ensures MarkerLen(a + b) <= |a| ==> MarkerLen(a) == MarkerLen(a + b)
  {
    if MarkerLen(a) > 0 {
      MarkerShape(a);
      assert (a + b)[..MarkerLen(a)] == a[..MarkerLen(a)];
      MarkersAreRecognised(a + b, MarkerLen(a));
    } else if 0 < MarkerLen(a + b) <= |a| {
      var m := MarkerLen(a + b);
      MarkerShape(a + b);
      assert (a + b)[..m] == a[..m];
      MarkersAreRecognised(a, m);
    }
  }

  // A marker cut after at least two characters leaves an open marker.
  lemma CutMarkerIsOpen(t: string, k: nat)
    requires 2 <= k < MarkerLen(t)
    ensures OpenMarker(t[..k])
  {
    var d := DigitsEnd(t, 2);
    if k <= d {
      assert DigitsEnd(t[..k], 2) == k;
    } else {
      assert DigitsEnd(t[..k], 2) == d;
      assert DigitsEnd(t[..k], d + 1) == k;
    }
  }

  // More text can make a marker of it.
  ghost predicate CanBecomeMarker(t: string) {
    exists rest: string :: rest != "" && IsMarker(t + rest)
  }

  // A letter without digits and a dot: no text makes a marker of it any more.
  ghost predicate DotWithoutNumber(t: string) {
    && |t| >= 3 && t[0] == '[' && (t[1] == 'R' || t[1] == 'W') && t[2] == '.'
    && forall i :: 3 <= i < |t| ==> IsDigit(t[i])
  }

  // Open markers are the texts of at least two characters that can still become a marker, and those that only look so.
  lemma OpenMarkersAre(t: string)
    ensures OpenMarker(t) <==> |t| >= 2 && (CanBecomeMarker(t) || DotWithoutNumber(t))
  {
    if OpenMarker(t) && !DotWithoutNumber(t) {
      var d := DigitsEnd(t, 2);
      Completes(t, if (d == |t| && d > 2) || (d < |t| && d + 1 < |t|) then "]" else "0]");
    }
    if |t| >= 2 && CanBecomeMarker(t) {
      var rest: string :| rest != "" && IsMarker(t + rest);
      var whole := t + rest;
      assert whole[..|whole|] == whole && whole[..|t|] == t;
      MarkersAreRecognised(whole, |whole|);
      CutMarkerIsOpen(whole, |t|);
    }
    if DotWithoutNumber(t) {
      assert !IsDigit(t[2]);
      assert DigitsEnd(t, 2) == 2;
      AllDigits(t, 3);
    }
  }

  lemma {:induction false} AllDigits(t: string, from: nat)
    requires from <= |t| && forall i :: from <= i < |t| ==> IsDigit(t[i])
    ensures DigitsEnd(t, from) == |t|
  {
  }

  lemma Completes(t: string, rest: string)
    requires OpenMarker(t) && !DotWithoutNumber(t)
    requires
      var d := DigitsEnd(t, 2);
      rest == if (d == |t| && d > 2) || (d < |t| && d + 1 < |t|) then "]" else "0]"
    ensures CanBecomeMarker(t)
  {
    var d, whole := DigitsEnd(t, 2), t + rest;
    assert forall i :: 0 <= i < |t| ==> whole[i] == t[i];
    if d == |t| {
      assert DigitsBetween(whole, 2, |whole| - 1);
    } else {
      assert d > 2;
      assert DigitsBetween(whole, 2, d) && whole[d] == '.' && DigitsBetween(whole, d + 1, |whole| - 1);
    }
    assert IsMarker(whole);
  }
}
