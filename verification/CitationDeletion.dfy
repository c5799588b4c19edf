/** Which characters of a text the two filters delete, and which markers stay. */
module CitationDeletion {
  import opened CitationMarkers
  import opened CitationFilter

  // ----- position by position

  // Position i lies in an invalid marker that is not spared.
  ghost predicate Deleted(valid: set<string>, t: string, i: nat, cuts: set<nat>) {
    exists s: nat :: s <= i < |t| && i < s + MarkerLen(t[s..])
                     && InvalidMarkerAt(valid, t, s) && !CutInvalidMarker(valid, t, s, cuts)
  }

  ghost function Remaining(valid: set<string>, t: string, i: nat, cuts: set<nat>): string
    requires i <= |t|
    decreases |t| - i
  {
    if i == |t| then "" else (if Deleted(valid, t, i, cuts) then "" else [t[i]]) + Remaining(valid, t, i + 1, cuts)
  }

  lemma {:induction false} RemainingRun(valid: set<string>, t: string, i: nat, j: nat, cuts: set<nat>)
    requires i <= j <= |t|
    ensures (forall k :: i <= k < j ==> Deleted(valid, t, k, cuts)) ==>
              Remaining(valid, t, i, cuts) == Remaining(valid, t, j, cuts)
    ensures (forall k :: i <= k < j ==> !Deleted(valid, t, k, cuts)) ==>
              Remaining(valid, t, i, cuts) == t[i..j] + Remaining(valid, t, j, cuts)
    decreases j - i
  {
    hide Deleted, Remaining;
    if i < j {
      RemainingStep(valid, t, i, cuts);
      RemainingRun(valid, t, i + 1, j, cuts);
      OneMoreBefore(t, i, j, Remaining(valid, t, j, cuts));
    } else {
      assert t[i..j] == "" && "" + Remaining(valid, t, j, cuts) == Remaining(valid, t, j, cuts);
    }
  }

  lemma RemainingStep(valid: set<string>, t: string, i: nat, cuts: set<nat>)
    requires i < |t|
    ensures Deleted(valid, t, i, cuts) ==> Remaining(valid, t, i, cuts) == Remaining(valid, t, i + 1, cuts)
    ensures !Deleted(valid, t, i, cuts) ==> Remaining(valid, t, i, cuts) == [t[i]] + Remaining(valid, t, i + 1, cuts)
  {
    hide Deleted;
  }

  lemma OneMoreBefore(t: string, i: nat, j: nat, after: string)
    requires i < j <= |t|
    ensures [t[i]] + (t[i + 1..j] + after) == t[i..j] + after
  {
    assert t[i..j] == [t[i]] + t[i + 1..j];
  }

  // No marker that starts earlier reaches beyond i.
  ghost predicate BetweenMarkers(t: string, i: nat) {
    i <= |t| && forall s :: 0 <= s < i ==> s + MarkerLen(t[s..]) <= i
  }

  lemma {:induction false} FilteredByPosition(valid: set<string>, t: string, i: nat, cuts: set<nat>)
    requires BetweenMarkers(t, i)
    ensures Filtered(valid, t[i..], i, cuts) == Remaining(valid, t, i, cuts)
    decreases |t| - i
  {
    hide MarkerLen, Filtered, Clean, ValidMarker, Spared, Remaining;
    if i == |t| {
      FilteredOfNothing(valid, t[i..], i, cuts);
      NothingRemains(valid, t, cuts);
    } else {
      var n, kept, filtered := StepAt(valid, t, i, cuts);
      if MarkerLen(t[i..]) > 0 {
        NoMarkerInsideAMarker(t, i);
      }
      FilteredByPosition(valid, t, i + n, cuts);
      RemainingRun(valid, t, i, i + n, cuts);
    }
  }

  lemma NothingRemains(valid: set<string>, t: string, cuts: set<nat>)
    ensures Remaining(valid, t, |t|, cuts) == ""
  {
  }

  // For every way of cutting, the stream publishes exactly the characters that lie in no complete invalid marker or
  // in a spared one, in order; the batch cleaner is the same without cuts.
  lemma OnlyInvalidMarkersAreDeleted(valid: set<string>, chunks: seq<string>)
    ensures valid != {} ==> Streamed(valid, chunks) == Remaining(valid, Text(chunks), 0, Cuts(0, chunks))
    ensures valid != {} ==> Batch(valid, Text(chunks)) == Remaining(valid, Text(chunks), 0, {})
    ensures valid == {} ==> Streamed(valid, chunks) == Text(chunks)
  {
    hide MarkerLen, Filtered, Clean, Published, Text, Cuts, Remaining;
    var t := Text(chunks);
    StreamIsFiltered(valid, "", chunks, 0);
    WithoutCutsItIsClean(valid, t, 0);
    assert "" + t == t && t[0..] == t;
    FilteredByPosition(valid, t, 0, Cuts(0, chunks));
    FilteredByPosition(valid, t, 0, {});
  }

  // ----- which markers stay

  // The marker's text is that of a known reference in brackets.
  ghost predicate RefersTo(valid: set<string>, marker: string) {
    exists id :: id in valid && marker == "[" + id + "]"
  }

  // A marker stays where it stands exactly when it is the bracketed id of a known reference.
  lemma KnownMarkersStay(valid: set<string>, before: string, marker: string, rest: string)
    requires '[' !in before && IsMarker(marker)
    ensures Clean(valid, before + marker + rest)
            == before + (if RefersTo(valid, marker) then marker else "") + Clean(valid, rest)
  {
    hide Clean, MarkerLen;
    var t := marker + rest;
    assert t[..|marker|] == marker && t[|marker|..] == rest;
    MarkersAreRecognised(t, |marker|);
    CleanStep(valid, t);
    KnownIds(valid, marker);
    WithoutCutsItIsClean(valid, before + t, 0);
    WithoutCutsItIsClean(valid, t, |before|);
    NoBracketNoMarker(valid, before, t, 0, {});
    assert before + marker + rest == before + t;
    Associate(before, if RefersTo(valid, marker) then marker else "", Clean(valid, rest));
  }

  lemma KnownIds(valid: set<string>, marker: string)
    requires IsMarker(marker)
    ensures ValidMarker(valid, marker) <==> RefersTo(valid, marker)
  {
    var id := marker[1..|marker| - 1];
    assert marker == "[" + id + "]";
    forall other: string | marker == "[" + other + "]" ensures other == id {
      assert ("[" + other + "]")[1..|marker| - 1] == other;
    }
  }
}
