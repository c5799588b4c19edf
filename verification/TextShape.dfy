/**
  The string operations the chunker uses (strip, splitlines, join, rfind, line ending normalisation) and the one
  thing they all leave alone: the text with its white space erased.
  */
module TextShape {
  import opened Characters

  function Erase(t: string): string {
    if t == "" then "" else (if IsSpace(t[0]) then "" else [t[0]]) + Erase(t[1..])
  }

  lemma {:induction false} EraseConcat(a: string, b: string)
    ensures Erase(a + b) == Erase(a) + Erase(b)
  {
    hide IsSpace;
    if a == "" {
      assert a + b == b;
    } else {
      EraseConcat(a[1..], b);
      assert (a + b)[1..] == a[1..] + b;
    }
  }

  lemma {:induction false} ErasedLength(t: string)
    ensures |Erase(t)| <= |t|
    ensures Erase(t) == "" <==> StripsToNothing(t)
  {
    hide IsSpace;
    if t != "" {
      ErasedLength(t[1..]);
      assert StripsToNothing(t) <==> IsSpace(t[0]) && StripsToNothing(t[1..]) by {
        assert forall i | 0 < i < |t| :: t[i] == t[1..][i - 1];
      }
    }
  }

  // str.strip
  function Strip(t: string): (r: string)
    ensures |r| <= |t|
    ensures r != "" ==> !IsSpace(r[0]) && !IsSpace(r[|r| - 1])
    decreases |t|
  {
    if t == "" then ""
    else if IsSpace(t[0]) then Strip(t[1..])
    else if IsSpace(t[|t| - 1]) then Strip(t[..|t| - 1])
    else t
  }

  lemma {:induction false} StripErases(t: string)
    ensures Erase(Strip(t)) == Erase(t)
    ensures Strip(t) == "" <==> StripsToNothing(t)
    decreases |t|
  {
    hide IsSpace;
    if t != "" {
      if IsSpace(t[0]) {
        StripErases(t[1..]);
      } else if IsSpace(t[|t| - 1]) {
        StripErases(t[..|t| - 1]);
        assert t == t[..|t| - 1] + [t[|t| - 1]];
        EraseConcat(t[..|t| - 1], [t[|t| - 1]]);
      }
      ErasedLength(t);
      ErasedLength(Strip(t));
    }
  }

  // text.replace("\r\n", "\n")
  function Normalise(t: string): string
    decreases |t|
  {
    if t == "" then ""
    else if |t| >= 2 && t[0] == '\r' && t[1] == '\n' then "\n" + Normalise(t[2..])
    else [t[0]] + Normalise(t[1..])
  }

  // Every carriage return with its line feed becomes a line feed, and a text without such a pair stays as it is.
  lemma {:induction false} LineEndingsAreNormalised(a: string, b: string)
    ensures Normalise(a + "\r\n" + b) == Normalise(a) + "\n" + Normalise(b)
    decreases |a|
  {
    var t := a + "\r\n" + b;
    if a == "" {
      assert t == "\r\n" + b && t[2..] == b;
    } else if |a| >= 2 && a[0] == '\r' && a[1] == '\n' {
      assert t[2..] == a[2..] + "\r\n" + b;
      LineEndingsAreNormalised(a[2..], b);
    } else {
      assert t[1..] == a[1..] + "\r\n" + b;
      LineEndingsAreNormalised(a[1..], b);
    }
  }

  predicate PairAt(t: string, i: nat) {
    i + 1 < |t| && t[i] == '\r' && t[i + 1] == '\n'
  }

  lemma {:induction false} OtherTextStays(t: string)
    requires forall i: nat :: !PairAt(t, i)
    ensures Normalise(t) == t
  {
    if t != "" {
      assert !PairAt(t, 0);
      forall i: nat ensures !PairAt(t[1..], i) {
        assert !PairAt(t, i + 1);
      }
      OtherTextStays(t[1..]);
    }
  }

  lemma {:induction false} NormaliseErases(t: string)
    ensures Erase(Normalise(t)) == Erase(t) && |Normalise(t)| <= |t|
    decreases |t|
  {
    if t != "" {
      if |t| >= 2 && t[0] == '\r' && t[1] == '\n' {
        NormaliseErases(t[2..]);
        assert t[1..][1..] == t[2..];
      } else {
        NormaliseErases(t[1..]);
      }
    }
  }

  function LineEnd(t: string): (e: nat)
    ensures e <= |t|
    ensures forall i :: 0 <= i < e ==> !IsLineBreak(t[i])
    ensures e < |t| ==> IsLineBreak(t[e])
  {
    if t == "" || IsLineBreak(t[0]) then 0 else 1 + LineEnd(t[1..])
  }

  // str.splitlines: a carriage return and line feed are one boundary; a final boundary opens no further line.
  function SplitLines(t: string): seq<string>
    decreases |t|
  {
    if t == "" then []
    else
      var e := LineEnd(t);
      if e == |t| then [t]
      else
        var width := if t[e] == '\r' && e + 1 < |t| && t[e + 1] == '\n' then 2 else 1;
        [t[..e]] + SplitLines(t[e + width..])
  }

  function EraseAll(parts: seq<string>): string {
    if parts == [] then "" else Erase(parts[0]) + EraseAll(parts[1..])
  }

  lemma {:induction false} EraseAllConcat(a: seq<string>, b: seq<string>)
    ensures EraseAll(a + b) == EraseAll(a) + EraseAll(b)
  {
    hide Erase;
    if a == [] {
      assert a + b == b;
    } else {
      EraseAllConcat(a[1..], b);
      assert (a + b)[1..] == a[1..] + b;
      assert EraseAll(a + b) == Erase(a[0]) + (EraseAll(a[1..]) + EraseAll(b));
    }
  }

  // The first line, the boundary after it, and what follows.
  lemma FirstLine(t: string) returns (line: string, gap: string, rest: string)
    requires t != ""
    ensures t == line + gap + rest && |rest| < |t| && SplitLines(t) == [line] + SplitLines(rest)
    ensures Erase(gap) == ""
    ensures forall i :: 0 <= i < |line| ==> !IsLineBreak(line[i])
  {
    hide IsLineBreak, IsSpace;
    var e := LineEnd(t);
    var width := if e == |t| then 0 else if t[e] == '\r' && e + 1 < |t| && t[e + 1] == '\n' then 2 else 1;
    line, gap, rest := t[..e], t[e..e + width], t[e + width..];
    if e < |t| {
      BreakErases(gap);
    } else {
      assert line == t;
    }
  }

  lemma {:induction false} SplitLinesErase(t: string)
    ensures EraseAll(SplitLines(t)) == Erase(t)
    decreases |t|
  {
    hide IsLineBreak, Erase, SplitLines;
    if t == "" {
      NoLines();
    } else {
      var line, gap, rest := FirstLine(t);
      SplitLinesErase(rest);
      ErasedAround(line, gap, rest);
      assert ([line] + SplitLines(rest))[1..] == SplitLines(rest);
    }
  }

  lemma NoLines()
    ensures SplitLines("") == [] && Erase("") == ""
  {
  }

  lemma ErasedAround(a: string, gap: string, b: string)
    requires Erase(gap) == ""
    ensures Erase(a + gap + b) == Erase(a) + Erase(b)
  {
    EraseConcat(a + gap, b);
    EraseConcat(a, gap);
  }

  lemma BreakErases(t: string)
    requires (|t| == 1 && IsLineBreak(t[0])) || t == "\r\n"
    ensures Erase(t) == ""
  {
    ErasedLength(t);
    LineBreaksAreSpaces(t[0]);
  }

  // separator.join(parts)
  function Join(separator: string, parts: seq<string>): string {
    if parts == [] then ""
    else if |parts| == 1 then parts[0]
    else Join(separator, parts[..|parts| - 1]) + separator + parts[|parts| - 1]
  }

  lemma {:induction false} JoinErases(separator: string, parts: seq<string>)
    requires StripsToNothing(separator)
    ensures Erase(Join(separator, parts)) == EraseAll(parts)
  {
    hide StripsToNothing;
    if |parts| == 1 {
      assert EraseAll(parts) == Erase(parts[0]) + EraseAll(parts[1..]);
    } else if parts != [] {
      var init, last := parts[..|parts| - 1], parts[|parts| - 1];
      JoinErases(separator, init);
      ErasedLength(separator);
      EraseConcat(Join(separator, init), separator);
      EraseConcat(Join(separator, init) + separator, last);
      assert parts == init + [last];
      EraseAllConcat(init, [last]);
      assert EraseAll([last]) == Erase(last) + EraseAll([]);
    }
  }

  predicate OccursAt(t: string, pattern: string, i: int) {
    0 <= i && i + |pattern| <= |t| && t[i..i + |pattern|] == pattern
  }

  // text.rfind(pattern, lo, hi)
  function RFind(t: string, pattern: string, lo: nat, hi: nat): (p: int)
    requires lo <= hi <= |t| && pattern != ""
    ensures p == -1 || (lo <= p && p + |pattern| <= hi && OccursAt(t, pattern, p))
    ensures forall i :: lo <= i && i + |pattern| <= hi && OccursAt(t, pattern, i) ==> i <= p
    decreases hi - lo
  {
    if hi - lo < |pattern| then -1
    else if t[hi - |pattern|..hi] == pattern then hi - |pattern|
    else RFind(t, pattern, lo, hi - 1)
  }
}
