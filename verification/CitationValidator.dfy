/**
  The cleaners and the streaming filter as the source writes them: loops over the regular expression's matches, and
  a buffer that `push` and `flush` update.
  */
module CitationValidator {
  import opened Wrappers
  import opened CitationMarkers
  import opened CitationFilter
  import opened TextShape

  datatype Match = Match(start: nat, end: nat)

  // re.finditer: the matches from left to right.
  function FindMatches(t: string, from: nat): (matches: seq<Match>)
    requires from <= |t|
    ensures forall k :: 0 <= k < |matches| ==> from <= matches[k].start < matches[k].end <= |t|
    ensures forall k :: 0 <= k < |matches| ==> MarkerLen(t[matches[k].start..]) == matches[k].end - matches[k].start
    decreases |t| - from
  {
    if from == |t| then []
    else
      var m := MarkerLen(t[from..]);
      if m == 0 then FindMatches(t, from + 1) else [Match(from, from + m)] + FindMatches(t, from + m)
  }

  // The matches are all the markers there are: markers do not overlap.
  lemma {:induction false} MatchesAreAllTheMarkers(t: string, from: nat, i: nat)
    requires from <= i < |t| && MarkerLen(t[i..]) > 0
    requires forall s :: 0 <= s < from ==> s + MarkerLen(t[s..]) <= from
    ensures Match(i, i + MarkerLen(t[i..])) in FindMatches(t, from)
    decreases |t| - from
  {
    hide MarkerLen;
    var m := MarkerLen(t[from..]);
    if m > 0 {
      NoMarkerInsideAMarker(t, from);
      if from < i {
        MatchesAreAllTheMarkers(t, from + m, i);
      }
    } else {
      MatchesAreAllTheMarkers(t, from + 1, i);
    }
  }

  lemma {:induction false} UpToTheNextMatch(valid: set<string>, t: string, from: nat)
    requires from <= |t|
    ensures FindMatches(t, from) == [] ==> Clean(valid, t[from..]) == t[from..]
    ensures FindMatches(t, from) != [] ==>
              var first := FindMatches(t, from)[0];
              && FindMatches(t, from)[1..] == FindMatches(t, first.end)
              && Clean(valid, t[from..])
                 == t[from..first.start]
                    + (if InvalidMarkerAt(valid, t, first.start) then "" else t[first.start..first.end])
                    + Clean(valid, t[first.end..])
    decreases |t| - from
  {
    hide MarkerLen, Clean, InvalidMarkerAt, ValidMarker, CutInvalidMarker, Filtered, FindMatches;
    MatchesStep(t, from);
    if from == |t| {
      CleanStep(valid, t[from..]);
    } else {
      var n, kept, _ := StepAt(valid, t, from, {});
      if MarkerLen(t[from..]) == 0 {
        PlainIsNotInvalid(valid, t, from);
        UpToTheNextMatch(valid, t, from + 1);
        var matches := FindMatches(t, from);
        if matches == [] {
          assert t[from..] == t[from..from + 1] + t[from + 1..];
        } else {
          var first := matches[0];
          OneCharacterMore(t, from, first.start,
            if InvalidMarkerAt(valid, t, first.start) then "" else t[first.start..first.end], Clean(valid, t[first.end..]));
        }
      } else {
        assert t[from..from] == "";
      }
    }
  }

  lemma OneCharacterMore(t: string, from: nat, to: nat, kept: string, after: string)
    requires from < to <= |t|
    ensures t[from..from + 1] + (t[from + 1..to] + kept + after) == t[from..to] + kept + after
  {
    assert t[from..to] == t[from..from + 1] + t[from + 1..to];
  }

  lemma MatchesStep(t: string, from: nat)
    requires from <= |t|
    ensures from == |t| ==> FindMatches(t, from) == []
    ensures from < |t| && MarkerLen(t[from..]) == 0 ==> FindMatches(t, from) == FindMatches(t, from + 1)
    ensures from < |t| && MarkerLen(t[from..]) > 0 ==>
              FindMatches(t, from)
              == [Match(from, from + MarkerLen(t[from..]))] + FindMatches(t, from + MarkerLen(t[from..]))
  {
  }

  lemma PlainIsNotInvalid(valid: set<string>, t: string, i: nat)
    requires i <= |t| && MarkerLen(t[i..]) == 0
    ensures !InvalidMarkerAt(valid, t, i)
  {
  }

  lemma JoinOne(segments: seq<string>, last: string)
    ensures Join("", segments + [last]) == Join("", segments) + last
  {
    assert (segments + [last])[..|segments|] == segments;
  }

  lemma NothingJoined()
    ensures Join("", []) == ""
  {
  }

  method MatchIsValid(valid: set<string>, t: string, found: Match) returns (ok: bool)
    requires found.start < found.end <= |t| && MarkerLen(t[found.start..]) == found.end - found.start
    ensures ok == !InvalidMarkerAt(valid, t, found.start)
  {
    MarkerShape(t[found.start..]);
    assert t[found.start..][..found.end - found.start] == t[found.start..found.end];
    var group := t[found.start..found.end];
    ok := group[1..|group| - 1] in valid;
  }

  function Invalid(valid: set<string>, t: string, matches: seq<Match>): nat
    requires forall k :: 0 <= k < |matches| ==> matches[k].start <= |t|
  {
    if matches == [] then 0
    else (if InvalidMarkerAt(valid, t, matches[0].start) then 1 else 0) + Invalid(valid, t, matches[1..])
  }

  datatype CitationResult = CitationResult(cleanedContent: string, totalCitations: nat, removedCount: nat)

  method CleanMarkers(valid: set<string>, t: string) returns (cleaned: string)
    ensures cleaned == Clean(valid, t)
  {
    var removed: nat;
    cleaned, removed := RemoveInvalid(valid, t, FindMatches(t, 0));
  }

  // The loop that both cleaners contain.
  method RemoveInvalid(valid: set<string>, t: string, matches: seq<Match>) returns (cleaned: string, removed: nat)
    requires matches == FindMatches(t, 0)
    ensures cleaned == Clean(valid, t) && removed == Invalid(valid, t, matches)
  {
    hide MarkerLen, Clean, InvalidMarkerAt, FindMatches, Join;
    var segments: seq<string> := [];
    NothingJoined();
    var lastEnd: nat := 0;
    removed := 0;
    assert t[0..] == t;
    for k := 0 to |matches|
      invariant lastEnd <= |t| && FindMatches(t, lastEnd) == matches[k..]
      invariant Join("", segments) + Clean(valid, t[lastEnd..]) == Clean(valid, t)
      invariant removed + Invalid(valid, t, matches[k..]) == Invalid(valid, t, matches)
    {
      var found := matches[k];
      UpToTheNextMatch(valid, t, lastEnd);
      assert matches[k..][0] == found && matches[k..][1..] == matches[k + 1..];
      JoinOne(segments, t[lastEnd..found.start]);
      segments := segments + [t[lastEnd..found.start]];
      var ok := MatchIsValid(valid, t, found);
      if ok {
        JoinOne(segments, t[found.start..found.end]);
        segments := segments + [t[found.start..found.end]];
      } else {
        removed := removed + 1;
      }
      lastEnd := found.end;
    }
    UpToTheNextMatch(valid, t, lastEnd);
    JoinOne(segments, t[lastEnd..]);
    segments := segments + [t[lastEnd..]];
    cleaned := Join("", segments);
  }

  method ValidateCitations(valid: set<string>, content: string) returns (result: CitationResult)
    ensures result.cleanedContent == Batch(valid, content)
    ensures result.totalCitations == if valid == {} then 0 else |FindMatches(content, 0)|
    ensures result.removedCount == if valid == {} then 0 else Invalid(valid, content, FindMatches(content, 0))
    ensures result.removedCount == 0 <==> result.cleanedContent == content
  {
    if content == "" || valid == {} {
      return CitationResult(content, 0, 0);
    }
    var matches := FindMatches(content, 0);
    var cleaned, removed := RemoveInvalid(valid, content, matches);
    assert content[0..] == content;
    RemovalShortens(valid, content, 0);
    return CitationResult(cleaned, |matches|, removed);
  }

  // Every removed marker costs at least four characters, and nothing else is lost.
  lemma {:induction false} RemovalShortens(valid: set<string>, t: string, from: nat)
    requires from <= |t|
    ensures |Clean(valid, t[from..])| + 4 * Invalid(valid, t, FindMatches(t, from)) <= |t| - from
    ensures Invalid(valid, t, FindMatches(t, from)) == 0 ==> Clean(valid, t[from..]) == t[from..]
    decreases |t| - from
  {
    hide MarkerLen, Clean, InvalidMarkerAt, FindMatches;
    UpToTheNextMatch(valid, t, from);
    if FindMatches(t, from) != [] {
      var first := FindMatches(t, from)[0];
      MarkerShape(t[first.start..]);
      RemovalShortens(valid, t, first.end);
      assert t[from..] == t[from..first.start] + t[first.start..first.end] + t[first.end..];
    }
  }

  // ----- the streaming filter

  function AfterPush(valid: set<string>, buffer: string, chunk: string): string {
    if valid == {} then buffer
    else match Held(buffer + chunk) case None => "" case Some(p) => (buffer + chunk)[p..]
  }

  // What one push publishes; None and "" both publish nothing.
  function Output(published: Option<string>): string {
    match published case None => "" case Some(text) => text
  }

  class StreamingCitationFilter {
    const valid: set<string>
    var buffer: string

    constructor (validRefIds: set<string>)
      ensures valid == validRefIds && buffer == ""
    {
      valid := validRefIds;
      buffer := "";
    }

    // With `rest` still to come, a push publishes exactly its part of what the whole stream publishes.
    method Push(chunk: string) returns (published: Option<string>)
      modifies this
      ensures buffer == AfterPush(valid, old(buffer), chunk)
      ensures valid == {} ==> published == Some(chunk)
      ensures published.None? <==> valid != {} && Held(old(buffer) + chunk) == Some(0)
      ensures valid != {} ==> forall rest ::
                Published(valid, old(buffer), [chunk] + rest) == Output(published) + Published(valid, buffer, rest)
    {
      if valid == {} {
        return Some(chunk);
      }
      var combined := buffer + chunk;
      buffer := "";
      assert forall rest: seq<string> :: ([chunk] + rest)[0] == chunk && ([chunk] + rest)[1..] == rest;
      var splitPos := FindPotentialSplit(combined);
      if splitPos.Some? {
        var readyPart := combined[..splitPos.value];
        buffer := combined[splitPos.value..];
        if readyPart == "" {
          return None;
        }
        var cleaned := CleanMarkers(valid, readyPart);
        return Some(cleaned);
      }
      var cleaned := CleanMarkers(valid, combined);
      return Some(cleaned);
    }

    method Flush() returns (published: string)
      modifies this
      ensures buffer == "" && published == Clean(valid, old(buffer))
    {
      if buffer == "" {
        return "";
      }
      var remaining := buffer;
      buffer := "";
      published := CleanMarkers(valid, remaining);
    }

    method FindPotentialSplit(t: string) returns (p: Option<nat>)
      ensures p == Held(t)
    {
      var bracketPos := LastBracket(t);
      if bracketPos == -1 {
        return None;
      }
      var tail := t[bracketPos..];
      if |tail| > MAX_BRACKET_LEN {
        return None;
      }
      if ']' in tail {
        return None;
      }
      if PartialPrefix(tail) {
        return Some(bracketPos);
      }
      return None;
    }
  }

  // A fresh filter, pushed every chunk and then flushed.
  method FilterStream(valid: set<string>, chunks: seq<string>) returns (text: string)
    ensures text == Streamed(valid, chunks)
  {
    hide Published, Clean, AfterPush, Held;
    var filter := new StreamingCitationFilter(valid);
    text := "";
    for k := 0 to |chunks|
      invariant filter.valid == valid
      invariant valid == {} ==> filter.buffer == "" && text + Text(chunks[k..]) == Text(chunks)
      invariant valid != {} ==> text + Published(valid, filter.buffer, chunks[k..]) == Streamed(valid, chunks)
    {
      assert chunks[k..] == [chunks[k]] + chunks[k + 1..];
      ghost var before := filter.buffer;
      var published := filter.Push(chunks[k]);
      UnchangedWithoutReferences(valid, before, chunks[k]);
      text := text + Output(published);
    }
    PublishedAtTheEnd(valid, filter.buffer, chunks[|chunks|..]);
    var last := filter.Flush();
    text := text + last;
  }

  lemma UnchangedWithoutReferences(valid: set<string>, buffer: string, chunk: string)
    ensures valid == {} ==> AfterPush(valid, buffer, chunk) == buffer
  {
  }

  lemma PublishedAtTheEnd(valid: set<string>, buffer: string, none: seq<string>)
    requires none == []
    ensures Published(valid, buffer, none) == Clean(valid, buffer)
    ensures Clean(valid, "") == ""
  {
  }
}
