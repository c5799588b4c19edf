/** Applying a reranker's scores to the candidates, and the fallback when there is none. */
module Rerank {
  import opened Wrappers
  import opened StableSort

  datatype Ranking = Ranking(index: int, score: real)

  // (index, score, order): `order` is the position in the rankings.
  datatype Indexed = Indexed(index: int, score: real, order: nat)

  datatype Selected = Selected(candidate: nat, ranking: Option<Indexed>)

  datatype Scored = Scored(candidate: nat, score: Option<real>)

  function Enumerated(rankings: seq<Ranking>): (r: seq<Indexed>)
    ensures |r| == |rankings|
    ensures forall k :: 0 <= k < |r| ==> r[k] == Indexed(rankings[k].index, rankings[k].score, k)
  {
    seq(|rankings|, k requires 0 <= k < |rankings| => Indexed(rankings[k].index, rankings[k].score, k))
  }

  // sorted(..., key=lambda item: (-item[1], item[2]))
  function ByScore(rankings: seq<Ranking>): seq<Indexed> {
    SortDescending(Enumerated(rankings), (e: Indexed) => e.score)
  }

  predicate Earlier(a: Indexed, b: Indexed) {
    a.score > b.score || (a.score == b.score && a.order < b.order)
  }

  ghost predicate Ordered(s: seq<Indexed>) {
    forall i, j :: 0 <= i < j < |s| ==> Earlier(s[i], s[j])
  }

  lemma ByScoreIsOrdered(rankings: seq<Ranking>)
    ensures Ordered(ByScore(rankings)) && multiset(ByScore(rankings)) == multiset(Enumerated(rankings))
    ensures forall e :: e in ByScore(rankings) <==> e in Enumerated(rankings)
  {
    var items := Enumerated(rankings);
    Sorts(items, (e: Indexed) => e.score, (e: Indexed) => e.order);
    assert forall i, j | 0 <= i < j < |items| ::
      Before(ByScore(rankings)[i], ByScore(rankings)[j], (e: Indexed) => e.score, (e: Indexed) => e.order);
  }

  // The entries the first loop takes: in range and not taken before.
  function Walk(sorted: seq<Indexed>, base: int, n: nat, seen: set<int>): (r: seq<Indexed>)
    decreases |sorted|
  {
    if sorted == [] then []
    else
      var i := sorted[0].index - base;
      if i in seen || !(0 <= i < n) then Walk(sorted[1..], base, n, seen)
      else [sorted[0]] + Walk(sorted[1..], base, n, seen + {i})
  }

  function Rest(n: nat, from: nat, seen: set<int>): seq<Selected>
    requires from <= n
    decreases n - from
  {
    if from == n then []
    else if from in seen then Rest(n, from + 1, seen)
    else [Selected(from, None)] + Rest(n, from + 1, seen)
  }

  function Taken(walk: seq<Indexed>, base: int): set<int> {
    set k | 0 <= k < |walk| :: walk[k].index - base
  }

  // All candidates in their final order.
  function Arrangement(rankings: seq<Ranking>, base: int, n: nat): seq<Selected> {
    var walk := Walk(ByScore(rankings), base, n, {});
    WalkTakes(ByScore(rankings), base, n, {});
    seq(|walk|, k requires 0 <= k < |walk| => Selected(walk[k].index - base, Some(walk[k]))) + Rest(n, 0, Taken(walk, base))
  }

  // At least one candidate is taken before the limit is looked at.
  function Length(limit: int, n: nat): (r: nat)
    ensures r <= n && (limit >= 1 ==> r == if limit < n then limit else n)
  {
    if n == 0 then 0 else if limit <= 1 then 1 else if limit < n then limit else n
  }

  // ----- what is taken

  lemma {:induction false} WalkTakes(sorted: seq<Indexed>, base: int, n: nat, seen: set<int>)
    ensures forall k :: 0 <= k < |Walk(sorted, base, n, seen)| ==>
                          var e := Walk(sorted, base, n, seen)[k];
                          e in sorted && 0 <= e.index - base < n && e.index - base !in seen
    ensures forall p, q :: 0 <= p < q < |Walk(sorted, base, n, seen)| ==>
                             Walk(sorted, base, n, seen)[p].index != Walk(sorted, base, n, seen)[q].index
    decreases |sorted|
  {
    if sorted != [] {
      var i := sorted[0].index - base;
      assert sorted == [sorted[0]] + sorted[1..];
      if i in seen || !(0 <= i < n) {
        WalkTakes(sorted[1..], base, n, seen);
      } else {
        WalkTakes(sorted[1..], base, n, seen + {i});
        var later := Walk(sorted[1..], base, n, seen + {i});
        assert forall k | 0 <= k < |later| :: later[k].index - base !in seen + {i};
      }
    }
  }

  // It stays in order, and every entry in range that was passed over follows a taken one of the same candidate.
  lemma WalkTakesTheBest(sorted: seq<Indexed>, base: int, n: nat, seen: set<int>)
    requires Ordered(sorted)
    ensures Ordered(Walk(sorted, base, n, seen))
    ensures forall e :: e in sorted && 0 <= e.index - base < n && e.index - base !in seen ==>
                          BestOf(Walk(sorted, base, n, seen), e)
  {
    WalkIsOrdered(sorted, base, n, seen);
    forall e | e in sorted && 0 <= e.index - base < n && e.index - base !in seen
      ensures BestOf(Walk(sorted, base, n, seen), e)
    {
      WalkTakesABetterOne(sorted, base, n, seen, e);
    }
  }

  lemma {:induction false} WalkIsOrdered(sorted: seq<Indexed>, base: int, n: nat, seen: set<int>)
    requires Ordered(sorted)
    ensures Ordered(Walk(sorted, base, n, seen))
    decreases |sorted|
  {
    hide Walk, Earlier;
    if sorted == [] {
      NoWalk(base, n, seen);
    } else {
      var head, rest := sorted[0], sorted[1..];
      WalkStep(sorted, base, n, seen);
      assert forall k | 0 <= k < |rest| :: rest[k] == sorted[k + 1] && Earlier(head, sorted[k + 1]);
      WalkIsOrdered(rest, base, n, seen);
      WalkIsOrdered(rest, base, n, seen + {head.index - base});
      WalkTakes(rest, base, n, seen + {head.index - base});
    }
  }

  lemma {:induction false} WalkTakesABetterOne(sorted: seq<Indexed>, base: int, n: nat, seen: set<int>, e: Indexed)
    requires Ordered(sorted) && e in sorted && 0 <= e.index - base < n && e.index - base !in seen
    ensures BestOf(Walk(sorted, base, n, seen), e)
    decreases |sorted|
  {
    hide Walk, Earlier;
    var head, rest := sorted[0], sorted[1..];
    var i := head.index - base;
    WalkStep(sorted, base, n, seen);
    assert forall k | 0 <= k < |rest| :: rest[k] == sorted[k + 1] && Earlier(head, sorted[k + 1]);
    if i in seen || !(0 <= i < n) {
      WalkTakesABetterOne(rest, base, n, seen, e);
    } else if e.index - base == i {
      assert Same(Walk(sorted, base, n, seen)[0], e);
    } else {
      var later := Walk(rest, base, n, seen + {i});
      WalkTakesABetterOne(rest, base, n, seen + {i}, e);
      var k :| 0 <= k < |later| && Same(later[k], e);
      assert Walk(sorted, base, n, seen)[k + 1] == later[k];
    }
  }

  ghost predicate Same(taken: Indexed, e: Indexed) {
    taken.index == e.index && (taken == e || Earlier(taken, e))
  }

  ghost predicate BestOf(walk: seq<Indexed>, e: Indexed) {
    exists k :: 0 <= k < |walk| && Same(walk[k], e)
  }

  lemma {:induction false} RestIsTheUnseen(n: nat, from: nat, seen: set<int>)
    requires from <= n
    ensures forall p :: 0 <= p < |Rest(n, from, seen)| ==>
                          var s := Rest(n, from, seen)[p];
                          from <= s.candidate < n && s.candidate !in seen && s.ranking.None?
    ensures forall p, q :: 0 <= p < q < |Rest(n, from, seen)| ==>
                             Rest(n, from, seen)[p].candidate < Rest(n, from, seen)[q].candidate
    ensures forall i: nat :: from <= i < n && i !in seen ==> Selected(i, None) in Rest(n, from, seen)
    decreases n - from
  {
    if from < n {
      RestIsTheUnseen(n, from + 1, seen);
    }
  }

  // ----- the arrangement, candidate by candidate

  ghost predicate Names(rankings: seq<Ranking>, base: int, k: int, candidate: nat) {
    0 <= k < |rankings| && rankings[k].index - base == candidate
  }

  // `ranking` is the candidate's best: none is higher, none as high stands earlier; none at all if it has none.
  ghost predicate IsBest(rankings: seq<Ranking>, base: int, s: Selected) {
    match s.ranking
    case None => forall k :: !Names(rankings, base, k, s.candidate)
    case Some(best) =>
      && Names(rankings, base, best.order, s.candidate)
      && best == Indexed(rankings[best.order].index, rankings[best.order].score, best.order)
      && forall k :: Names(rankings, base, k, s.candidate) ==>
                       best.order == k || Earlier(best, Indexed(rankings[k].index, rankings[k].score, k))
  }

  // Scored candidates first, by descending score and then by their place in the rankings; then the others in order.
  predicate Precedes(a: Selected, b: Selected) {
    match (a.ranking, b.ranking)
    case (Some(x), Some(y)) => Earlier(x, y)
    case (Some(_), None) => true
    case (None, Some(_)) => false
    case (None, None) => a.candidate < b.candidate
  }

  lemma WalkedIsBest(rankings: seq<Ranking>, base: int, n: nat, p: nat)
    requires p < |Walk(ByScore(rankings), base, n, {})|
    ensures
      var e := Walk(ByScore(rankings), base, n, {})[p];
      e.index >= base && IsBest(rankings, base, Selected(e.index - base, Some(e)))
  {
    hide Walk, ByScore;
    var sorted, items := ByScore(rankings), Enumerated(rankings);
    var walk := Walk(sorted, base, n, {});
    ByScoreIsOrdered(rankings);
    WalkTakes(sorted, base, n, {});
    WalkTakesTheBest(sorted, base, n, {});
    var e := walk[p];
    assert e in items;
    forall k | Names(rankings, base, k, e.index - base)
      ensures e.order == k || Earlier(e, Indexed(rankings[k].index, rankings[k].score, k))
    {
      assert items[k] in sorted && BestOf(walk, items[k]);
      var j :| 0 <= j < |walk| && Same(walk[j], items[k]);
      assert j == p;
    }
  }

  lemma NamedIsTaken(rankings: seq<Ranking>, base: int, n: nat, k: nat, candidate: nat)
    requires candidate < n && Names(rankings, base, k, candidate)
    ensures candidate in Taken(Walk(ByScore(rankings), base, n, {}), base)
  {
    hide Walk, ByScore;
    var sorted, items := ByScore(rankings), Enumerated(rankings);
    var walk := Walk(sorted, base, n, {});
    ByScoreIsOrdered(rankings);
    WalkTakesTheBest(sorted, base, n, {});
    assert items[k] in sorted && BestOf(walk, items[k]);
    var j :| 0 <= j < |walk| && Same(walk[j], items[k]);
    assert walk[j].index - base in Taken(walk, base);
  }

  lemma UnwalkedIsUnranked(rankings: seq<Ranking>, base: int, n: nat, candidate: nat)
    requires candidate < n && candidate !in Taken(Walk(ByScore(rankings), base, n, {}), base)
    ensures IsBest(rankings, base, Selected(candidate, None))
  {
    hide Walk, ByScore, Taken;
    forall k: nat
      ensures Names(rankings, base, k, candidate) ==> candidate in Taken(Walk(ByScore(rankings), base, n, {}), base)
    {
      if Names(rankings, base, k, candidate) {
        NamedIsTaken(rankings, base, n, k, candidate);
      }
    }
  }

  // The candidate's place in the arrangement.
  ghost predicate At(all: seq<Selected>, p: int, candidate: nat) {
    0 <= p < |all| && all[p].candidate == candidate
  }

  ghost predicate Placed(all: seq<Selected>, candidate: nat) {
    exists p :: At(all, p, candidate)
  }

  lemma InOrderOfPreference(rankings: seq<Ranking>, base: int, n: nat, p: nat, q: nat)
    requires p < q < |Arrangement(rankings, base, n)|
    ensures
      var all := Arrangement(rankings, base, n);
      Precedes(all[p], all[q]) && all[p].candidate != all[q].candidate
  {
    hide Walk, ByScore, Rest, Arrangement, Earlier, Enumerated, BestOf;
    var sorted := ByScore(rankings);
    var walk := Walk(sorted, base, n, {});
    var all, rest := Arrangement(rankings, base, n), Rest(n, 0, Taken(walk, base));
    ArrangementIs(rankings, base, n);
    if q < |walk| {
      ByScoreIsOrdered(rankings);
      WalkTakes(sorted, base, n, {});
      WalkTakesTheBest(sorted, base, n, {});
    } else {
      RestIsTheUnseen(n, 0, Taken(walk, base));
      assert all[q] == rest[q - |walk|];
      if p < |walk| {
        assert walk[p].index - base in Taken(walk, base);
      } else {
        assert all[p] == rest[p - |walk|];
      }
    }
  }

  lemma EachIsBest(rankings: seq<Ranking>, base: int, n: nat, p: nat)
    requires p < |Arrangement(rankings, base, n)|
    ensures Arrangement(rankings, base, n)[p].candidate < n && IsBest(rankings, base, Arrangement(rankings, base, n)[p])
  {
    hide Walk, ByScore, Rest, IsBest;
    var walk := Walk(ByScore(rankings), base, n, {});
    WalkTakes(ByScore(rankings), base, n, {});
    RestIsTheUnseen(n, 0, Taken(walk, base));
    if p < |walk| {
      WalkedIsBest(rankings, base, n, p);
    } else {
      UnwalkedIsUnranked(rankings, base, n, Arrangement(rankings, base, n)[p].candidate);
    }
  }

  lemma EachIsThere(rankings: seq<Ranking>, base: int, n: nat, candidate: nat)
    requires candidate < n
    ensures Placed(Arrangement(rankings, base, n), candidate)
  {
    hide Walk, ByScore, Rest;
    var walk := Walk(ByScore(rankings), base, n, {});
    var all, taken := Arrangement(rankings, base, n), Taken(walk, base);
    ArrangementIs(rankings, base, n);
    RestIsTheUnseen(n, 0, taken);
    if candidate in taken {
      var k :| 0 <= k < |walk| && walk[k].index - base == candidate;
      assert At(all, k, candidate);
    } else {
      var q :| 0 <= q < |all[|walk|..]| && all[|walk|..][q] == Selected(candidate, None);
      assert At(all, |walk| + q, candidate);
    }
  }

  // For every ranking list, with duplicates, ties and indexes out of range: each candidate appears exactly once,
  // with its best score if it has one, in the order of Precedes.
  lemma EveryCandidateOnceInOrder(rankings: seq<Ranking>, base: int, n: nat)
    ensures
      var all := Arrangement(rankings, base, n);
      && (forall p, q :: 0 <= p < q < |all| ==> Precedes(all[p], all[q]) && all[p].candidate != all[q].candidate)
      && (forall p :: 0 <= p < |all| ==> all[p].candidate < n && IsBest(rankings, base, all[p]))
      && (forall i: nat | i < n :: Placed(all, i))
      && |all| == n
  {
    hide Arrangement, IsBest, Precedes;
    var all := Arrangement(rankings, base, n);
    forall p: nat, q: nat | p < q < |all| ensures Precedes(all[p], all[q]) && all[p].candidate != all[q].candidate {
      InOrderOfPreference(rankings, base, n, p, q);
    }
    forall p: nat | p < |all| ensures all[p].candidate < n && IsBest(rankings, base, all[p]) {
      EachIsBest(rankings, base, n, p);
    }
    forall i: nat | i < n ensures Placed(all, i) {
      EachIsThere(rankings, base, n, i);
    }
    OnePositionEach(all, n);
  }

  lemma {:induction false} OnePositionEach(all: seq<Selected>, n: nat)
    requires forall p, q :: 0 <= p < q < |all| ==> all[p].candidate != all[q].candidate
    requires forall p :: 0 <= p < |all| ==> all[p].candidate < n
    requires forall i: nat | i < n :: Placed(all, i)
    ensures |all| == n
    decreases n
  {
    assert all != [] ==> all[0].candidate < n;
    if n > 0 {
      assert Placed(all, n - 1);
      var p :| At(all, p, n - 1);
      var others := all[..p] + all[p + 1..];
      assert forall k | 0 <= k < |others| :: others[k] == all[if k < p then k else k + 1];
      forall i: nat | i < n - 1 ensures Placed(others, i) {
        assert Placed(all, i);
        var q :| At(all, q, i);
        assert At(others, if q < p then q else q - 1, i);
      }
      OnePositionEach(others, n - 1);
    }
  }

  // ----- the loops

  // The candidate with the score of its best ranking, if it has one.
  predicate Carries(scored: Scored, s: Selected) {
    && scored.candidate == s.candidate
    && match s.ranking
       case Some(best) => scored.score == Some(best.score)
       case None => scored.score == None
  }

  ghost predicate Follows(selected: seq<Scored>, all: seq<Selected>) {
    |selected| <= |all| && forall j :: 0 <= j < |selected| ==> Carries(selected[j], all[j])
  }

  method ApplyRankings(n: nat, rankings: seq<Ranking>, limit: int, base: int) returns (selected: seq<Scored>)
    ensures |selected| == if n == 0 then 0 else if limit < 1 then 1 else if limit < n then limit else n
    ensures Follows(selected, Arrangement(rankings, base, n))
  {
    hide Walk, ByScore, IsBest, Rest, Arrangement, Follows;
    EveryCandidateOnceInOrder(rankings, base, n);
    ghost var all := Arrangement(rankings, base, n);
    var selectedIndexes: set<int>;
    var full: bool;
    selected, selectedIndexes, full := TakeRanked(n, rankings, limit, base);
    if full {
      return;
    }
    ArrangementIs(rankings, base, n);
    selected := FillUp(n, all, selected, selectedIndexes, limit);
  }

  // The loop over the sorted rankings; `full` when it returns early.
  method TakeRanked(n: nat, rankings: seq<Ranking>, limit: int, base: int)
    returns (selected: seq<Scored>, selectedIndexes: set<int>, full: bool)
    requires |Arrangement(rankings, base, n)| == n
    ensures Follows(selected, Arrangement(rankings, base, n))
    ensures full ==> |selected| == Length(limit, n)
    ensures !full ==> (selected == [] || |selected| < limit)
    ensures !full ==> |selected| == |Walk(ByScore(rankings), base, n, {})|
    ensures !full ==> selectedIndexes == Taken(Walk(ByScore(rankings), base, n, {}), base)
  {
    hide Walk, ByScore, Arrangement, Taken, Enumerated;
    var sorted := ByScore(rankings);
    ghost var all, walk := Arrangement(rankings, base, n), Walk(sorted, base, n, {});
    ArrangementIs(rankings, base, n);
    selected, selectedIndexes, full := [], {}, false;
    NothingTaken(base);
    for k := 0 to |sorted|
      invariant |selected| <= |walk| && Follows(selected, all)
      invariant walk[|selected|..] == Walk(sorted[k..], base, n, selectedIndexes)
      invariant selectedIndexes == Taken(walk[..|selected|], base)
      invariant selected == [] || |selected| < limit
    {
      var e := sorted[k];
      var i := e.index - base;
      WalkStep(sorted[k..], base, n, selectedIndexes);
      assert sorted[k..][0] == e && sorted[k..][1..] == sorted[k + 1..];
      if i in selectedIndexes || !(0 <= i < n) {
        continue;
      }
      assert walk[|selected|..][0] == e && walk[|selected|..][1..] == walk[|selected| + 1..];
      assert walk[..|selected| + 1] == walk[..|selected|] + [e];
      TakenGrows(walk[..|selected|], e, base);
      selected := selected + [Scored(i, Some(e.score))];
      selectedIndexes := selectedIndexes + {i};
      if |selected| >= limit {
        full := true;
        return;
      }
    }
    NoWalk(base, n, selectedIndexes);
    assert walk[..|selected|] == walk;
  }

  // The loop over the candidates that are left.
  method FillUp(n: nat, ghost all: seq<Selected>, ranked: seq<Scored>, selectedIndexes: set<int>, limit: int)
    returns (selected: seq<Scored>)
    requires |all| == n && Follows(ranked, all) && all[|ranked|..] == Rest(n, 0, selectedIndexes)
    requires ranked == [] || |ranked| < limit
    ensures |selected| == Length(limit, n) && Follows(selected, all)
  {
    hide Rest;
    selected := ranked;
    for i := 0 to n
      invariant Follows(selected, all) && all[|selected|..] == Rest(n, i, selectedIndexes)
      invariant selected == [] || |selected| < limit
    {
      RestStep(n, i, selectedIndexes);
      if i in selectedIndexes {
        continue;
      }
      assert all[|selected|..][0] == Selected(i, None) && all[|selected|..][1..] == all[|selected| + 1..];
      selected := selected + [Scored(i, None)];
      if |selected| >= limit {
        return;
      }
    }
    RestStep(n, n, selectedIndexes);
  }

  lemma NothingTaken(base: int)
    ensures Taken([], base) == {}
  {
  }

  lemma ArrangementIs(rankings: seq<Ranking>, base: int, n: nat)
    ensures
      var walk := Walk(ByScore(rankings), base, n, {});
      var all := Arrangement(rankings, base, n);
      && |walk| <= |all|
      && (forall k :: 0 <= k < |walk| ==> walk[k].index >= base && all[k] == Selected(walk[k].index - base, Some(walk[k])))
      && all[|walk|..] == Rest(n, 0, Taken(walk, base))
  {
    WalkTakes(ByScore(rankings), base, n, {});
  }

  lemma WalkStep(sorted: seq<Indexed>, base: int, n: nat, seen: set<int>)
    requires sorted != []
    ensures
      var i := sorted[0].index - base;
      Walk(sorted, base, n, seen)
      == if i in seen || !(0 <= i < n) then Walk(sorted[1..], base, n, seen)
         else [sorted[0]] + Walk(sorted[1..], base, n, seen + {i})
  {
  }

  lemma NoWalk(base: int, n: nat, seen: set<int>)
    ensures Walk([], base, n, seen) == []
  {
  }

  lemma TakenGrows(walk: seq<Indexed>, e: Indexed, base: int)
    ensures Taken(walk + [e], base) == Taken(walk, base) + {e.index - base}
  {
    var more := walk + [e];
    assert forall k | 0 <= k < |walk| :: more[k] == walk[k];
    assert more[|walk|] == e;
  }

  lemma RestStep(n: nat, from: nat, seen: set<int>)
    requires from <= n
    ensures Rest(n, from, seen)
         == if from == n then []
            else if from in seen then Rest(n, from + 1, seen)
            else [Selected(from, None)] + Rest(n, from + 1, seen)
  {
  }

  // ----- without a reranker

  // The first candidates in order; if none of them is from the web, the first web candidate replaces the last one.
  method SelectRerankFallbackCandidates<C(==)>(candidates: seq<C>, isWeb: C -> bool, limit: int) returns (selected: seq<C>)
    ensures |selected| == if limit <= 0 then 0 else if limit < |candidates| then limit else |candidates|
    ensures selected != [] ==> selected[..|selected| - 1] == candidates[..|selected| - 1]
    ensures selected != [] ==>
              ((exists c :: c in selected && isWeb(c)) <==> (exists c :: c in candidates && isWeb(c)))
    ensures selected == candidates[..|selected|]
         || ((forall c :: c in candidates[..|selected|] ==> !isWeb(c))
             && exists k :: |selected| <= k < |candidates| && selected[|selected| - 1] == candidates[k] && isWeb(candidates[k])
                            && forall j :: 0 <= j < k ==> !isWeb(candidates[j]))
  {
    if limit <= 0 {
      return [];
    }
    selected := if limit < |candidates| then candidates[..limit] else candidates;
    assert selected == candidates[..|selected|];
    if selected == [] {
      return;
    }
    var found := FirstWeb(selected, isWeb);
    if found < |selected| {
      assert selected[found] in selected && candidates[found] in candidates;
      return;
    }
    assert forall c | c in selected :: !isWeb(c);
    var web := FirstWeb(candidates, isWeb);
    if web == |candidates| {
      return;
    }
    assert forall j | 0 <= j < |selected| :: candidates[j] == selected[j];
    selected := selected[|selected| - 1 := candidates[web]];
    assert selected[|selected| - 1] in selected && candidates[web] in candidates;
  }

  method FirstWeb<C>(candidates: seq<C>, isWeb: C -> bool) returns (k: nat)
    ensures k <= |candidates| && (k < |candidates| ==> isWeb(candidates[k]))
    ensures forall j :: 0 <= j < k ==> !isWeb(candidates[j])
  {
    k := 0;
    while k < |candidates| && !isWeb(candidates[k])
      invariant k <= |candidates| && forall j :: 0 <= j < k ==> !isWeb(candidates[j])
    {
      k := k + 1;
    }
  }
}
