/** The dictionaries of the hybrid search, entry by entry: insertion order and contents. */
module VectorIndexService {
  import opened Wrappers
  import opened StableSort
  import opened HybridFusion

  // ----- one channel only

  function OneChannelHit(channel: Channel, hit: ChannelHit): RetrievalHit {
    if channel.Vector? then
      RetrievalHit(hit.chunk, hit.value, VectorScore, VectorSimilarity(hit.value), VectorSimilarity(hit.value), {Vector})
    else
      RetrievalHit(hit.chunk, RankToDistance(hit.value), FulltextScore, hit.value, FulltextSimilarity(hit.value), {Fulltext})
  }

  function OneChannelHits(channel: Channel, hits: seq<ChannelHit>): (r: seq<RetrievalHit>)
    ensures |r| == |hits|
    ensures forall k :: 0 <= k < |r| ==> r[k] == OneChannelHit(channel, hits[k])
  {
    seq(|hits|, k requires 0 <= k < |hits| => OneChannelHit(channel, hits[k]))
  }

  function ChunksOf(hits: seq<RetrievalHit>): seq<nat> {
    FirstSeen([], hits, (h: RetrievalHit) => h.chunk)
  }

  // The first hit of the chunk with the highest evidence, and every channel that found it.
  function BestHit(hits: seq<RetrievalHit>, chunk: nat): Option<RetrievalHit> {
    if hits == [] then None
    else
      var before, last := BestHit(hits[..|hits| - 1], chunk), hits[|hits| - 1];
      if last.chunk != chunk then before
      else if before.None? then Some(last)
      else if last.evidenceScore > before.value.evidenceScore then
        Some(last.(matchedBy := before.value.matchedBy + last.matchedBy))
      else Some(before.value.(matchedBy := before.value.matchedBy + last.matchedBy))
  }

  // Independent of the recursion: it carries the highest evidence of the chunk's hits, from the first that has it,
  // and exactly the channels of all of them.
  lemma {:induction false} BestHitIsBest(hits: seq<RetrievalHit>, chunk: nat)
    ensures BestHit(hits, chunk).None? <==> forall k :: 0 <= k < |hits| ==> hits[k].chunk != chunk
    ensures BestHit(hits, chunk).Some? ==> IsBestOf(hits, chunk, BestHit(hits, chunk).value)
  {
    if hits != [] {
      var init, last := hits[..|hits| - 1], hits[|hits| - 1];
      BestHitIsBest(init, chunk);
      assert forall k | 0 <= k < |init| :: init[k] == hits[k];
      if BestHit(hits, chunk).Some? {
        var best := BestHit(hits, chunk).value;
        if last.chunk != chunk || (BestHit(init, chunk).Some? && last.evidenceScore <= BestHit(init, chunk).value.evidenceScore) {
          var j: nat :| j < |init| && FirstBest(init, chunk, j, BestHit(init, chunk).value);
          assert FirstBest(hits, chunk, j, best);
        } else {
          assert FirstBest(hits, chunk, |hits| - 1, best);
        }
      }
    }
  }

  ghost predicate FirstBest(hits: seq<RetrievalHit>, chunk: nat, j: nat, best: RetrievalHit)
    requires j < |hits|
  {
    && hits[j].chunk == chunk && best == hits[j].(matchedBy := best.matchedBy)
    && (forall k :: 0 <= k < |hits| && hits[k].chunk == chunk ==> hits[k].evidenceScore <= best.evidenceScore)
    && (forall k :: 0 <= k < j && hits[k].chunk == chunk ==> hits[k].evidenceScore < best.evidenceScore)
  }

  ghost predicate IsBestOf(hits: seq<RetrievalHit>, chunk: nat, best: RetrievalHit) {
    && (exists j: nat :: j < |hits| && FirstBest(hits, chunk, j, best))
    && (forall k :: 0 <= k < |hits| && hits[k].chunk == chunk ==> hits[k].matchedBy <= best.matchedBy)
    && (forall c :: c in best.matchedBy ==> exists k :: 0 <= k < |hits| && hits[k].chunk == chunk && c in hits[k].matchedBy)
  }

  lemma {:induction false} ChunksOfAreDistinct(hits: seq<RetrievalHit>)
    ensures Distinct(ChunksOf(hits))
    ensures forall c: nat :: c in ChunksOf(hits) <==> BestHit(hits, c).Some?
  {
    if hits != [] {
      ChunksOfAreDistinct(hits[..|hits| - 1]);
    }
  }

  function Collected(hits: seq<RetrievalHit>): (r: seq<RetrievalHit>)
    ensures |r| == |ChunksOf(hits)|
    ensures forall k :: 0 <= k < |r| ==> BestHit(hits, ChunksOf(hits)[k]) == Some(r[k])
  {
    ChunksOfAreDistinct(hits);
    var chunks := ChunksOf(hits);
    seq(|chunks|, k requires 0 <= k < |chunks| && BestHit(hits, chunks[k]).Some? => BestHit(hits, chunks[k]).value)
  }

  function SingleChannel(v: seq<ChannelHit>, f: seq<ChannelHit>, limit: int): seq<RetrievalHit> {
    var hits := OneChannelHits(Vector, v) + OneChannelHits(Fulltext, f);
    Prefix(SortDescending(Collected(hits), (h: RetrievalHit) => h.evidenceScore), limit)
  }

  // The whole of _fuse_hybrid_hits.
  function FusedHits(
    vectorHits: seq<ChannelHit>, fulltextHits: seq<ChannelHit>, limit: int, w: Weights, min: real): seq<RetrievalHit>
  {
    var v, f := AtLeast(Vector, vectorHits, min), AtLeast(Fulltext, fulltextHits, min);
    if v == [] && f == [] then []
    else if v == [] || f == [] then SingleChannel(v, f, limit)
    else ToHits(w, Ranked(v, f, w, limit))
  }

  // ----- what the search returns

  lemma {:induction false} FilteringKeepsDistinct(channel: Channel, hits: seq<ChannelHit>, min: real)
    requires DistinctHits(hits)
    ensures DistinctHits(AtLeast(channel, hits, min))
    decreases |hits|
  {
    if hits != [] {
      var init := hits[..|hits| - 1];
      FilteringKeepsDistinct(channel, init, min);
      forall h | h in AtLeast(channel, init, min) ensures h.chunk != hits[|hits| - 1].chunk {
        assert h in init;
        var k :| 0 <= k < |init| && init[k] == h;
      }
    }
  }

  ghost predicate SomeReaches(channel: Channel, hits: seq<ChannelHit>, min: real) {
    exists k: nat :: k < |hits| && Similarity(channel, hits[k].value) >= min
  }

  // With distinct chunks in each channel and positive weights, the fused list is a descending, repetition-free
  // prefix of the chunks found, with distances in [0, 1), evidence above the minimum, and exact channels.
  lemma WhatHybridSearchReturns(
    vectorHits: seq<ChannelHit>, fulltextHits: seq<ChannelHit>, limit: nat, w: Weights, min: real)
    requires DistinctHits(vectorHits) && DistinctHits(fulltextHits) && w.vector > 0.0 && w.fulltext > 0.0
    requires SomeReaches(Vector, vectorHits, min) && SomeReaches(Fulltext, fulltextHits, min)
    ensures
      var v, f := AtLeast(Vector, vectorHits, min), AtLeast(Fulltext, fulltextHits, min);
      var r := FusedHits(vectorHits, fulltextHits, limit, w, min);
      && |r| == (if limit < |Chunks(v, f)| then limit else |Chunks(v, f)|)
      && (forall i, j :: 0 <= i < j < |r| ==> r[i].rawScore >= r[j].rawScore && r[i].chunk != r[j].chunk)
      && (forall i :: 0 <= i < |r| ==> GoodHit(v, f, min, r[i]))
  {
    hide AtLeast, Ranked, Direct, ToHit, GoodHit;
    var v, f := AtLeast(Vector, vectorHits, min), AtLeast(Fulltext, fulltextHits, min);
    var ranked := Ranked(v, f, w, limit);
    var first: nat :| first < |vectorHits| && Similarity(Vector, vectorHits[first].value) >= min;
    var second: nat :| second < |fulltextHits| && Similarity(Fulltext, fulltextHits[second].value) >= min;
    assert vectorHits[first] in v && fulltextHits[second] in f;
    FilteringKeepsDistinct(Vector, vectorHits, min);
    FilteringKeepsDistinct(Fulltext, fulltextHits, min);
    RankedIsTheTop(v, f, w, limit);
    HitKeepsTheScore(w);
    forall i | 0 <= i < |ranked| ensures GoodHit(v, f, min, ToHit(w, ranked[i])) {
      HitIsGood(v, f, w, min, ranked[i].chunk);
    }
  }

  lemma HitKeepsTheScore(w: Weights)
    ensures forall item :: ToHit(w, item).rawScore == item.score && ToHit(w, item).chunk == item.chunk
  {
  }

  ghost predicate GoodHit(v: seq<ChannelHit>, f: seq<ChannelHit>, min: real, hit: RetrievalHit) {
    && 0.0 <= hit.distance < 1.0 && hit.evidenceScore >= min
    && (hit.distance == 0.0 <==> v != [] && f != [] && v[0].chunk == hit.chunk == f[0].chunk)
    && (Vector in hit.matchedBy <==> Mentions(v, hit.chunk)) && (Fulltext in hit.matchedBy <==> Mentions(f, hit.chunk))
    && (HasEvidence(Vector, v, hit.chunk, hit.evidenceScore) || HasEvidence(Fulltext, f, hit.chunk, hit.evidenceScore))
    && forall e :: HasEvidence(Vector, v, hit.chunk, e) || HasEvidence(Fulltext, f, hit.chunk, e) ==> hit.evidenceScore >= e
  }

  lemma HitIsGood(v: seq<ChannelHit>, f: seq<ChannelHit>, w: Weights, min: real, chunk: nat)
    requires DistinctHits(v) && DistinctHits(f) && w.vector > 0.0 && w.fulltext > 0.0
    requires forall h :: h in v ==> VectorSimilarity(h.value) >= min
    requires forall h :: h in f ==> FulltextSimilarity(h.value) >= min
    requires Mentions(v, chunk) || Mentions(f, chunk)
    ensures GoodHit(v, f, min, ToHit(w, Direct(v, f, w, chunk)))
  {
    hide Share, LastScore, HasEvidence, VectorSimilarity, FulltextSimilarity;
    DistanceIsRelative(v, f, w, chunk);
    EvidenceIsTheBestSimilarity(v, f, w, min, chunk);
  }

  // A lone channel: the chunks it found by descending evidence, each with its own similarity; what the limit leaves
  // out has no more evidence than what is returned.
  lemma ALoneChannelIsSorted(channel: Channel, hits: seq<ChannelHit>, limit: nat)
    requires DistinctHits(hits)
    ensures
      var r := SingleChannel(if channel.Vector? then hits else [], if channel.Vector? then [] else hits, limit);
      && |r| == (if limit < |hits| then limit else |hits|)
      && ByEvidence(r)
      && (forall i :: 0 <= i < |r| ==> ComesFrom(channel, hits, r[i]))
      && (forall k :: 0 <= k < |hits| ==> IsTopOrOut(r, limit, |hits|, OneChannelHit(channel, hits[k])))
  {
    hide OneChannelHit, SingleChannel, SortedAll, ComesFrom, IsTopOrOut, ByEvidence;
    SingleIsSorted(channel, hits, limit);
    AllAreSorted(channel, hits);
    TheTopIsTaken(SortedAll(channel, hits), Prefix(SortedAll(channel, hits), limit), limit);
  }

  ghost predicate ByEvidence(r: seq<RetrievalHit>) {
    forall i, j :: 0 <= i < j < |r| ==> r[i].evidenceScore >= r[j].evidenceScore && r[i].chunk != r[j].chunk
  }

  // One of the `total` candidates: returned, or cut off by the limit behind hits with no less evidence.
  ghost predicate IsTopOrOut(r: seq<RetrievalHit>, limit: nat, total: nat, hit: RetrievalHit) {
    hit in r || (|r| == limit < total && forall i :: 0 <= i < |r| ==> r[i].evidenceScore >= hit.evidenceScore)
  }

  lemma AllAreSorted(channel: Channel, hits: seq<ChannelHit>)
    requires DistinctHits(hits)
    ensures
      var sorted := SortedAll(channel, hits);
      && |sorted| == |hits| && ByEvidence(sorted)
      && (forall i :: 0 <= i < |sorted| ==> ComesFrom(channel, hits, sorted[i]))
      && (forall k :: 0 <= k < |hits| ==> OneChannelHit(channel, hits[k]) in sorted)
  {
    hide OneChannelHit, ChunksOf, SortDescending;
    var all, sorted := OneChannelHits(channel, hits), SortedAll(channel, hits);
    OneChannelHitKeepsTheChunk(channel);
    DistinctAreCollected(all);
    SortsDistinct(all, sorted, (h: RetrievalHit) => h.evidenceScore, ChunksOf(all), (h: RetrievalHit) => h.chunk);
    forall i | 0 <= i < |sorted| ensures ComesFrom(channel, hits, sorted[i]) {
      assert sorted[i] in all;
      var k :| 0 <= k < |all| && all[k] == sorted[i];
      assert sorted[i] == OneChannelHit(channel, hits[k]);
    }
    forall k | 0 <= k < |hits| ensures OneChannelHit(channel, hits[k]) in sorted {
      assert all[k] in all;
    }
  }

  lemma TheTopIsTaken(sorted: seq<RetrievalHit>, r: seq<RetrievalHit>, limit: nat)
    requires r == Prefix(sorted, limit) && ByEvidence(sorted)
    ensures ByEvidence(r) && forall hit :: hit in sorted ==> IsTopOrOut(r, limit, |sorted|, hit)
    ensures |r| == (if limit < |sorted| then limit else |sorted|) && forall i :: 0 <= i < |r| ==> r[i] == sorted[i]
  {
    forall hit | hit in sorted ensures IsTopOrOut(r, limit, |sorted|, hit) {
      var j :| 0 <= j < |sorted| && sorted[j] == hit;
      if j < |r| {
        assert r[j] == hit;
      }
    }
  }

  ghost predicate ComesFrom(channel: Channel, hits: seq<ChannelHit>, hit: RetrievalHit) {
    exists k :: 0 <= k < |hits| && hit == OneChannelHit(channel, hits[k])
  }

  function SortedAll(channel: Channel, hits: seq<ChannelHit>): seq<RetrievalHit> {
    SortDescending(OneChannelHits(channel, hits), (h: RetrievalHit) => h.evidenceScore)
  }

  lemma SingleIsSorted(channel: Channel, hits: seq<ChannelHit>, limit: int)
    requires DistinctHits(hits)
    ensures SingleChannel(if channel.Vector? then hits else [], if channel.Vector? then [] else hits, limit)
            == Prefix(SortedAll(channel, hits), limit)
  {
    hide OneChannelHit, ChunksOf, SortDescending, BestHit;
    var v, f := if channel.Vector? then hits else [], if channel.Vector? then [] else hits;
    OneChannelHitKeepsTheChunk(channel);
    DistinctAreCollected(OneChannelHits(channel, hits));
    assert OneChannelHits(Vector, v) + OneChannelHits(Fulltext, f) == OneChannelHits(channel, hits);
  }

  lemma OneChannelHitKeepsTheChunk(channel: Channel)
    ensures forall h :: OneChannelHit(channel, h).chunk == h.chunk
  {
  }

  lemma {:induction false} DistinctAreCollected(hits: seq<RetrievalHit>)
    requires forall i, j :: 0 <= i < j < |hits| ==> hits[i].chunk != hits[j].chunk
    ensures |ChunksOf(hits)| == |hits| && forall k :: 0 <= k < |hits| ==> ChunksOf(hits)[k] == hits[k].chunk
    ensures Collected(hits) == hits
  {
    if hits != [] {
      var init := hits[..|hits| - 1];
      assert forall k | 0 <= k < |init| :: init[k] == hits[k];
      DistinctAreCollected(init);
      BestHitIsBest(init, hits[|hits| - 1].chunk);
      forall k | 0 <= k < |hits| ensures BestHit(hits, hits[k].chunk) == Some(hits[k]) {
        if k < |init| {
          assert BestHit(init, ChunksOf(init)[k]) == Some(init[k]);
        }
      }
    }
  }

  // ----- the loops

  method FilterHits(channel: Channel, hits: seq<ChannelHit>, min: real) returns (kept: seq<ChannelHit>)
    ensures kept == AtLeast(channel, hits, min)
  {
    kept := [];
    for k := 0 to |hits|
      invariant kept == AtLeast(channel, hits[..k], min)
    {
      assert hits[..k + 1][..k] == hits[..k];
      if Similarity(channel, hits[k].value) >= min {
        kept := kept + [hits[k]];
      }
    }
    assert hits[..|hits|] == hits;
  }

  ghost predicate Holds(order: seq<nat>, items: map<nat, Fused>, v: seq<ChannelHit>, f: seq<ChannelHit>, w: Weights) {
    && order == Chunks(v, f) && (forall c: nat :: c in items <==> c in order)
    && (forall c: nat :: c in items ==> items[c] == Direct(v, f, w, c))
  }

  function Unseen(chunk: nat): Fused {
    Fused(chunk, 0.0, {}, None, None)
  }

  lemma DirectOneMore(v: seq<ChannelHit>, f: seq<ChannelHit>, w: Weights, hit: ChannelHit, chunk: nat)
    ensures Direct(v + [hit], [], w, chunk) ==
            (var d := Direct(v, [], w, chunk);
             if hit.chunk != chunk then d
             else d.(score := d.score + w.vector / (RRF_K + (|v| + 1) as real), matchedBy := d.matchedBy + {Vector},
                     vectorScore := Some(VectorSimilarity(hit.value))))
    ensures Direct(v, f + [hit], w, chunk) ==
            (var d := Direct(v, f, w, chunk);
             if hit.chunk != chunk then d
             else d.(score := d.score + w.fulltext / (RRF_K + (|f| + 1) as real), matchedBy := d.matchedBy + {Fulltext},
                     fulltextScore := Some(FulltextSimilarity(hit.value))))
  {
    hide VectorSimilarity, FulltextSimilarity;
    assert (v + [hit])[..|v|] == v && (f + [hit])[..|f|] == f;
    MentionsOneMore(v + [hit], chunk);
    MentionsOneMore(f + [hit], chunk);
  }

  lemma UnseenIsDirect(v: seq<ChannelHit>, f: seq<ChannelHit>, w: Weights, chunk: nat)
    requires chunk !in Chunks(v, f)
    ensures Direct(v, f, w, chunk) == Unseen(chunk)
  {
    SeenInIsDistinct([], v);
    SeenInIsDistinct(SeenIn([], v), f);
    NotMentioned(Vector, v, w.vector, chunk);
    NotMentioned(Fulltext, f, w.fulltext, chunk);
  }

  lemma ChunksOneMore(v: seq<ChannelHit>, f: seq<ChannelHit>, hit: ChannelHit)
    ensures Chunks(v + [hit], []) == if hit.chunk in Chunks(v, []) then Chunks(v, []) else Chunks(v, []) + [hit.chunk]
    ensures Chunks(v, f + [hit]) == if hit.chunk in Chunks(v, f) then Chunks(v, f) else Chunks(v, f) + [hit.chunk]
  {
    assert (v + [hit])[..|v|] == v && (f + [hit])[..|f|] == f;
  }

  // fused.setdefault(key, {...})
  method SetDefault(order: seq<nat>, items: map<nat, Fused>, chunk: nat)
    returns (order': seq<nat>, items': map<nat, Fused>)
    ensures chunk in items'
    ensures items' == if chunk in items then items else items[chunk := Unseen(chunk)]
    ensures order' == if chunk in items then order else order + [chunk]
  {
    order', items' := order, items;
    if chunk !in items {
      order', items' := order + [chunk], items[chunk := Unseen(chunk)];
    }
  }

  method AccumulateVector(v: seq<ChannelHit>, w: Weights) returns (order: seq<nat>, items: map<nat, Fused>)
    ensures Holds(order, items, v, [], w)
  {
    hide Share, LastScore, Mentions, SeenIn, Direct, VectorSimilarity, Chunks, Holds;
    order, items := [], map[];
    NothingYet();
    for k := 0 to |v|
      invariant Holds(order, items, v[..k], [], w)
    {
      var hit := v[k];
      assert v[..k + 1] == v[..k] + [hit];
      OneVectorHit(order, items, v[..k], w, hit);
      ghost var before := items;
      order, items := SetDefault(order, items, hit.chunk);
      var item := items[hit.chunk];
      item := item.(score := item.score + w.vector / (RRF_K + (k + 1) as real));
      item := item.(matchedBy := item.matchedBy + {Vector}, vectorScore := Some(VectorSimilarity(hit.value)));
      UpdatedTwice(before, items, hit.chunk, Unseen(hit.chunk), item);
      items := items[hit.chunk := item];
    }
    assert v[..|v|] == v;
  }

  function Found(items: map<nat, Fused>, chunk: nat): Fused {
    if chunk in items then items[chunk] else Unseen(chunk)
  }

  function Extended(order: seq<nat>, items: map<nat, Fused>, chunk: nat): seq<nat> {
    if chunk in items then order else order + [chunk]
  }

  lemma OneVectorHit(order: seq<nat>, items: map<nat, Fused>, v: seq<ChannelHit>, w: Weights, hit: ChannelHit)
    requires Holds(order, items, v, [], w)
    ensures
      var item := Found(items, hit.chunk);
      var item' := item.(score := item.score + w.vector / (RRF_K + (|v| + 1) as real), matchedBy := item.matchedBy + {Vector},
                         vectorScore := Some(VectorSimilarity(hit.value)));
      Holds(Extended(order, items, hit.chunk), items[hit.chunk := item'], v + [hit], [], w)
  {
    hide Share, LastScore, Mentions, SeenIn, Direct, VectorSimilarity, Chunks;
    ChunksOneMore(v, [], hit);
    if hit.chunk !in Chunks(v, []) {
      UnseenIsDirect(v, [], w, hit.chunk);
    }
    forall c: nat {
      DirectOneMore(v, [], w, hit, c);
    }
  }

  lemma OneFulltextHit(
    order: seq<nat>, items: map<nat, Fused>, v: seq<ChannelHit>, f: seq<ChannelHit>, w: Weights, hit: ChannelHit)
    requires Holds(order, items, v, f, w)
    ensures
      var item := Found(items, hit.chunk);
      var item' := item.(score := item.score + w.fulltext / (RRF_K + (|f| + 1) as real),
                         matchedBy := item.matchedBy + {Fulltext}, fulltextScore := Some(FulltextSimilarity(hit.value)));
      Holds(Extended(order, items, hit.chunk), items[hit.chunk := item'], v, f + [hit], w)
  {
    hide Share, LastScore, Mentions, SeenIn, Direct, FulltextSimilarity, Chunks;
    ChunksOneMore(v, f, hit);
    if hit.chunk !in Chunks(v, f) {
      UnseenIsDirect(v, f, w, hit.chunk);
    }
    forall c: nat {
      DirectOneMore(v, f, w, hit, c);
    }
  }

  lemma UpdatedTwice(before: map<nat, Fused>, between: map<nat, Fused>, chunk: nat, first: Fused, second: Fused)
    requires between == if chunk in before then before else before[chunk := first]
    ensures between[chunk := second] == before[chunk := second]
  {
  }

  lemma NothingYet()
    ensures forall w :: Holds([], map[], [], [], w)
  {
  }

  method AccumulateFulltext(
    v: seq<ChannelHit>, f: seq<ChannelHit>, w: Weights, order: seq<nat>, items: map<nat, Fused>)
    returns (order': seq<nat>, items': map<nat, Fused>)
    requires Holds(order, items, v, [], w)
    ensures Holds(order', items', v, f, w)
  {
    hide Share, LastScore, Mentions, SeenIn, Direct, FulltextSimilarity, Chunks, Holds;
    order', items' := order, items;
    for k := 0 to |f|
      invariant Holds(order', items', v, f[..k], w)
    {
      var hit := f[k];
      assert f[..k + 1] == f[..k] + [hit];
      OneFulltextHit(order', items', v, f[..k], w, hit);
      ghost var before := items';
      order', items' := SetDefault(order', items', hit.chunk);
      var item := items'[hit.chunk];
      item := item.(score := item.score + w.fulltext / (RRF_K + (k + 1) as real));
      item := item.(matchedBy := item.matchedBy + {Fulltext}, fulltextScore := Some(FulltextSimilarity(hit.value)));
      UpdatedTwice(before, items', hit.chunk, Unseen(hit.chunk), item);
      items' := items'[hit.chunk := item];
    }
    assert f[..|f|] == f;
  }

  method FuseHybridHits(vectorHits: seq<ChannelHit>, fulltextHits: seq<ChannelHit>, limit: int, w: Weights, min: real)
    returns (result: seq<RetrievalHit>)
    ensures result == FusedHits(vectorHits, fulltextHits, limit, w, min)
  {
    hide AtLeast, Direct, Chunks, SortDescending, SingleChannel;
    var v := FilterHits(Vector, vectorHits, min);
    var f := FilterHits(Fulltext, fulltextHits, min);
    if v == [] && f == [] {
      return [];
    }
    if v == [] || f == [] {
      result := BuildSingleChannelHybridHits(v, f, limit);
      return;
    }
    var order, fused := AccumulateVector(v, w);
    order, fused := AccumulateFulltext(v, f, w, order, fused);
    var values := seq(|order|, k requires 0 <= k < |order| && order[k] in fused => fused[order[k]]);
    assert values == DirectAll(v, f, w);
    var ranked := Prefix(SortDescending(values, (item: Fused) => item.score), limit);
    result := ToHits(w, ranked);
  }

  ghost predicate Keeps(order: seq<nat>, items: map<nat, RetrievalHit>, hits: seq<RetrievalHit>) {
    && order == ChunksOf(hits) && (forall c: nat :: c in items <==> c in order)
    && (forall c: nat :: BestHit(hits, c) == if c in items then Some(items[c]) else None)
  }

  // add_hit
  method AddHit(order: seq<nat>, items: map<nat, RetrievalHit>, ghost hits: seq<RetrievalHit>, hit: RetrievalHit)
    returns (order': seq<nat>, items': map<nat, RetrievalHit>)
    requires Keeps(order, items, hits)
    ensures Keeps(order', items', hits + [hit])
  {
    assert (hits + [hit])[..|hits|] == hits;
    order', items' := order, items;
    if hit.chunk !in items {
      order', items' := order + [hit.chunk], items[hit.chunk := hit];
    } else if hit.evidenceScore > items[hit.chunk].evidenceScore {
      items' := items[hit.chunk := hit.(matchedBy := items[hit.chunk].matchedBy + hit.matchedBy)];
    } else {
      var existing := items[hit.chunk];
      items' := items[hit.chunk := existing.(matchedBy := existing.matchedBy + hit.matchedBy)];
    }
  }

  method BuildSingleChannelHybridHits(v: seq<ChannelHit>, f: seq<ChannelHit>, limit: int) returns (result: seq<RetrievalHit>)
    ensures result == SingleChannel(v, f, limit)
  {
    hide BestHit, ChunksOf, SortDescending, OneChannelHit;
    var order: seq<nat>, items: map<nat, RetrievalHit> := [], map[];
    ghost var first, second := OneChannelHits(Vector, v), OneChannelHits(Fulltext, f);
    NothingKept();
    for k := 0 to |v|
      invariant Keeps(order, items, first[..k])
    {
      order, items := AddHit(order, items, first[..k], OneChannelHit(Vector, v[k]));
      assert first[..k + 1] == first[..k] + [OneChannelHit(Vector, v[k])];
    }
    assert first[..|v|] == first && first + second[..0] == first;
    for k := 0 to |f|
      invariant Keeps(order, items, first + second[..k])
    {
      order, items := AddHit(order, items, first + second[..k], OneChannelHit(Fulltext, f[k]));
      assert first + second[..k + 1] == first + second[..k] + [OneChannelHit(Fulltext, f[k])];
    }
    assert second[..|f|] == second;
    var values := seq(|order|, k requires 0 <= k < |order| && order[k] in items => items[order[k]]);
    assert values == Collected(first + second);
    result := Prefix(SortDescending(values, (h: RetrievalHit) => h.evidenceScore), limit);
  }

  lemma NothingKept()
    ensures Keeps([], map[], [])
  {
  }
}
