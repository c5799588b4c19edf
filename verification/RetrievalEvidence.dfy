/** What the hybrid search finds and how strongly, in the distances and rank values it was given. */
module RetrievalEvidence {
  import opened StableSort
  import opened HybridFusion
  import opened VectorIndexService

  // ----- the two scales

  // Nearer is better: one minus the distance, and nothing beyond distance one.
  predicate NearEvidence(distance: real, evidence: real) {
    if distance <= 1.0 then evidence == 1.0 - distance else evidence == 0.0
  }

  // A higher rank is better: r / (1 + r), and nothing for a rank below zero.
  predicate RankEvidence(rank: real, evidence: real) {
    if rank > 0.0 then evidence * (1.0 + rank) == rank else evidence == 0.0
  }

  predicate Evidence(channel: Channel, value: real, evidence: real) {
    if channel.Vector? then NearEvidence(value, evidence) else RankEvidence(value, evidence)
  }

  lemma RankEvidenceIs(rank: real)
    ensures RankEvidence(rank, FulltextSimilarity(rank))
  {
    if rank > 0.0 {
      var d := RankToDistance(rank);
      assert d * (1.0 + rank) == 1.0;
    }
  }

  lemma SimilarityIsEvidence(channel: Channel, value: real, evidence: real)
    ensures Evidence(channel, value, evidence) <==> Similarity(channel, value) == evidence
  {
    if channel.Fulltext? {
      RankEvidenceIs(value);
      if RankEvidence(value, evidence) && value > 0.0 {
        Cancel(evidence, FulltextSimilarity(value), 1.0 + value);
      }
    }
  }

  lemma Cancel(x: real, y: real, factor: real)
    requires factor > 0.0 && x * factor == y * factor
    ensures x == y
  {
  }

  // The nearer of two distances and the higher of two ranks have more evidence.
  lemma EvidenceIsMonotone(channel: Channel, x: real, y: real)
    ensures channel.Vector? && x <= y ==> Similarity(channel, x) >= Similarity(channel, y)
    ensures channel.Vector? && x < y && x < 1.0 ==> Similarity(channel, x) > Similarity(channel, y)
    ensures channel.Fulltext? && x >= y ==> Similarity(channel, x) >= Similarity(channel, y)
    ensures channel.Fulltext? && x > y && x > 0.0 ==> Similarity(channel, x) > Similarity(channel, y)
  {
    if channel.Fulltext? {
      if x > y && x > 0.0 {
        HigherRanksHaveMore(x, y);
      } else if x < y && y > 0.0 {
        HigherRanksHaveMore(y, x);
      }
    }
  }

  lemma HigherRanksHaveMore(x: real, y: real)
    requires x > y && x > 0.0
    ensures FulltextSimilarity(x) > FulltextSimilarity(y)
  {
    var a, b := 1.0 + x, 1.0 + Max(0.0, y);
    var p, q := 1.0 / a, 1.0 / b;
    assert p * a == 1.0 == q * b;
    assert q > 0.0 && q * (a - b) > 0.0;
    assert (q - p) * a == q * (a - b);
    Positive(q - p, a);
  }

  lemma Positive(x: real, factor: real)
    requires factor > 0.0 && x * factor > 0.0
    ensures x > 0.0
  {
  }

  // What a hit needs to survive: any value will do unless the minimum is positive.
  predicate Enough(channel: Channel, value: real, min: real) {
    || min <= 0.0
    || (if channel.Vector? then value <= 1.0 - min else value > 0.0 && value >= min * (1.0 + value))
  }

  lemma WhoSurvives(channel: Channel, value: real, min: real)
    ensures Similarity(channel, value) >= min <==> Enough(channel, value, min)
  {
    if channel.Fulltext? && min > 0.0 {
      RankEvidenceIs(value);
      hide FulltextSimilarity;
      if value > 0.0 {
        RankSurvives(value, FulltextSimilarity(value), min);
      }
    }
  }

  lemma RankSurvives(rank: real, evidence: real, min: real)
    requires rank > 0.0 && evidence * (1.0 + rank) == rank
    ensures evidence >= min <==> rank >= min * (1.0 + rank)
  {
    Compare(evidence, min, 1.0 + rank);
  }

  lemma Compare(x: real, y: real, factor: real)
    requires factor > 0.0
    ensures x >= y <==> x * factor >= y * factor
  {
    Scaled(x, y, factor);
    Scaled(y, x, factor);
  }

  // ----- one channel only

  // The fields of a hit that one channel found: its distance on the channel's own scale, and its evidence.
  predicate FoundBy(channel: Channel, source: ChannelHit, hit: RetrievalHit) {
    && hit.chunk == source.chunk && hit.matchedBy == {channel} && Evidence(channel, source.value, hit.evidenceScore)
    && (if channel.Vector? then hit.distance == source.value && hit.rawScore == hit.evidenceScore && hit.scoreKind == VectorScore
        else hit.distance == 1.0 - hit.evidenceScore && hit.rawScore == source.value && hit.scoreKind == FulltextScore)
  }

  ghost predicate IsFound(channel: Channel, hits: seq<ChannelHit>, min: real, hit: RetrievalHit) {
    exists k :: 0 <= k < |hits| && Enough(channel, hits[k].value, min) && FoundBy(channel, hits[k], hit)
  }

  ghost predicate NothingSurvives(channel: Channel, hits: seq<ChannelHit>, min: real) {
    forall k :: 0 <= k < |hits| ==> !Enough(channel, hits[k].value, min)
  }

  // When the other channel has nothing to offer: exactly the hits with enough evidence, each with its own fields, the
  // nearest or highest-ranked first, cut at the limit.
  lemma WhatALoneChannelReturns(
    channel: Channel, hits: seq<ChannelHit>, others: seq<ChannelHit>, limit: nat, w: Weights, min: real)
    requires DistinctHits(hits)
    requires NothingSurvives(if channel.Vector? then Fulltext else Vector, others, min)
    ensures
      var r := FusedHits(if channel.Vector? then hits else others, if channel.Vector? then others else hits, limit, w, min);
      && |r| <= limit && ByEvidence(r)
      && (forall i :: 0 <= i < |r| ==> IsFound(channel, hits, min, r[i]))
      && (forall k :: 0 <= k < |hits| && Enough(channel, hits[k].value, min) ==>
            exists hit :: FoundBy(channel, hits[k], hit) && IsTopOrOut(r, limit, |hits|, hit))
  {
    hide AtLeast, SingleChannel, ByEvidence, IsTopOrOut, Enough, FoundBy, OneChannelHit;
    var other := if channel.Vector? then Fulltext else Vector;
    var kept := AtLeast(channel, hits, min);
    Survivors(channel, hits, min);
    FilteringKeepsDistinct(channel, hits, min);
    NoneSurvive(other, others, min);
    var r := FusedHits(if channel.Vector? then hits else others, if channel.Vector? then others else hits, limit, w, min);
    var v, f := if channel.Vector? then kept else [], if channel.Vector? then [] else kept;
    SingleOfNothing(limit);
    assert r == SingleChannel(v, f, limit);
    ALoneChannelIsSorted(channel, kept, limit);
    forall i | 0 <= i < |r| ensures IsFound(channel, hits, min, r[i]) {
      assert ComesFrom(channel, kept, r[i]);
      var m :| 0 <= m < |kept| && r[i] == OneChannelHit(channel, kept[m]);
      assert kept[m] in kept;
      var k :| 0 <= k < |hits| && hits[k] == kept[m] && Enough(channel, hits[k].value, min);
      OneHitIsFound(channel, hits[k]);
    }
    forall k | 0 <= k < |hits| && Enough(channel, hits[k].value, min)
      ensures exists hit :: FoundBy(channel, hits[k], hit) && IsTopOrOut(r, limit, |hits|, hit)
    {
      assert hits[k] in kept;
      var m :| 0 <= m < |kept| && kept[m] == hits[k];
      OneHitIsFound(channel, hits[k]);
      assert IsTopOrOut(r, limit, |kept|, OneChannelHit(channel, kept[m]));
      MoreCandidates(r, limit, |kept|, |hits|, OneChannelHit(channel, hits[k]));
    }
  }

  lemma {:induction false} NoneSurvive(channel: Channel, hits: seq<ChannelHit>, min: real)
    requires NothingSurvives(channel, hits, min)
    ensures AtLeast(channel, hits, min) == []
  {
    hide Enough;
    if hits != [] {
      WhoSurvives(channel, hits[|hits| - 1].value, min);
      NoneSurvive(channel, hits[..|hits| - 1], min);
    }
  }

  lemma MoreCandidates(r: seq<RetrievalHit>, limit: nat, few: nat, many: nat, hit: RetrievalHit)
    requires IsTopOrOut(r, limit, few, hit) && few <= many
    ensures IsTopOrOut(r, limit, many, hit)
  {
  }

  lemma SingleOfNothing(limit: nat)
    ensures SingleChannel([], [], limit) == []
  {
  }

  lemma OneHitIsFound(channel: Channel, hit: ChannelHit)
    ensures FoundBy(channel, hit, OneChannelHit(channel, hit))
  {
    SimilarityIsEvidence(channel, hit.value, Similarity(channel, hit.value));
  }

  lemma Survivors(channel: Channel, hits: seq<ChannelHit>, min: real)
    ensures forall h :: h in AtLeast(channel, hits, min) <==>
                          exists k :: 0 <= k < |hits| && hits[k] == h && Enough(channel, hits[k].value, min)
  {
    forall h ensures h in AtLeast(channel, hits, min) <==>
                       exists k :: 0 <= k < |hits| && hits[k] == h && Enough(channel, hits[k].value, min)
    {
      WhoSurvives(channel, h.value, min);
    }
  }

  // ----- both channels

  ghost predicate FoundIn(channel: Channel, hits: seq<ChannelHit>, min: real, chunk: nat) {
    exists k :: 0 <= k < |hits| && hits[k].chunk == chunk && Enough(channel, hits[k].value, min)
  }

  ghost predicate EvidenceFrom(channel: Channel, hits: seq<ChannelHit>, min: real, chunk: nat, evidence: real) {
    exists k :: 0 <= k < |hits| && hits[k].chunk == chunk && Enough(channel, hits[k].value, min)
                && Evidence(channel, hits[k].value, evidence)
  }

  lemma InTermsOfTheHits(channel: Channel, hits: seq<ChannelHit>, min: real, chunk: nat)
    ensures Mentions(AtLeast(channel, hits, min), chunk) <==> FoundIn(channel, hits, min, chunk)
    ensures forall e ::
              HasEvidence(channel, AtLeast(channel, hits, min), chunk, e) <==> EvidenceFrom(channel, hits, min, chunk, e)
  {
    hide AtLeast, Enough, Evidence, Similarity;
    Survivors(channel, hits, min);
    var kept := AtLeast(channel, hits, min);
    if Mentions(kept, chunk) {
      var m :| 0 <= m < |kept| && kept[m].chunk == chunk;
      assert kept[m] in kept;
    }
    if FoundIn(channel, hits, min, chunk) {
      var k :| 0 <= k < |hits| && hits[k].chunk == chunk && Enough(channel, hits[k].value, min);
      assert hits[k] in kept;
    }
    forall e ensures HasEvidence(channel, kept, chunk, e) <==> EvidenceFrom(channel, hits, min, chunk, e) {
      if HasEvidence(channel, kept, chunk, e) {
        var m :| 0 <= m < |kept| && kept[m].chunk == chunk && Similarity(channel, kept[m].value) == e;
        assert kept[m] in kept;
        SimilarityIsEvidence(channel, kept[m].value, e);
      }
      if EvidenceFrom(channel, hits, min, chunk, e) {
        var k :| 0 <= k < |hits| && hits[k].chunk == chunk && Enough(channel, hits[k].value, min)
                 && Evidence(channel, hits[k].value, e);
        SimilarityIsEvidence(channel, hits[k].value, e);
        assert hits[k] in kept;
      }
    }
  }

  // A hit names the channels that found its chunk with enough evidence, and carries the best of their evidence.
  ghost predicate ShowsItsEvidence(v: seq<ChannelHit>, f: seq<ChannelHit>, min: real, hit: RetrievalHit) {
    && (Vector in hit.matchedBy <==> FoundIn(Vector, v, min, hit.chunk))
    && (Fulltext in hit.matchedBy <==> FoundIn(Fulltext, f, min, hit.chunk))
    && (|| EvidenceFrom(Vector, v, min, hit.chunk, hit.evidenceScore)
        || EvidenceFrom(Fulltext, f, min, hit.chunk, hit.evidenceScore))
    && (forall e :: EvidenceFrom(Vector, v, min, hit.chunk, e) || EvidenceFrom(Fulltext, f, min, hit.chunk, e) ==>
                      hit.evidenceScore >= e)
  }

  lemma EveryHitShowsItsEvidence(v: seq<ChannelHit>, f: seq<ChannelHit>, limit: nat, w: Weights, min: real)
    requires DistinctHits(v) && DistinctHits(f) && w.vector > 0.0 && w.fulltext > 0.0
    ensures forall hit :: hit in FusedHits(v, f, limit, w, min) ==> ShowsItsEvidence(v, f, min, hit)
  {
    hide AtLeast, Ranked, ShowsItsEvidence, FusedHits, GoodHit, Enough;
    var r := FusedHits(v, f, limit, w, min);
    forall hit | hit in r ensures ShowsItsEvidence(v, f, min, hit) {
      var i :| 0 <= i < |r| && r[i] == hit;
      if NothingSurvives(Fulltext, f, min) {
        WhatALoneChannelReturns(Vector, v, f, limit, w, min);
        LoneHitShowsItsEvidence(Vector, v, f, min, hit);
      } else if NothingSurvives(Vector, v, min) {
        WhatALoneChannelReturns(Fulltext, f, v, limit, w, min);
        LoneHitShowsItsEvidence(Fulltext, f, v, min, hit);
      } else {
        SomeSurvive(Vector, v, min);
        SomeSurvive(Fulltext, f, min);
        WhatHybridSearchReturns(v, f, limit, w, min);
        assert GoodHit(AtLeast(Vector, v, min), AtLeast(Fulltext, f, min), min, r[i]);
        GoodHitShowsItsEvidence(v, f, min, hit);
      }
    }
  }

  lemma SomeSurvive(channel: Channel, hits: seq<ChannelHit>, min: real)
    requires !NothingSurvives(channel, hits, min)
    ensures SomeReaches(channel, hits, min)
  {
    hide Enough, Similarity;
    var k :| 0 <= k < |hits| && Enough(channel, hits[k].value, min);
    WhoSurvives(channel, hits[k].value, min);
  }

  lemma GoodHitShowsItsEvidence(v: seq<ChannelHit>, f: seq<ChannelHit>, min: real, hit: RetrievalHit)
    requires GoodHit(AtLeast(Vector, v, min), AtLeast(Fulltext, f, min), min, hit)
    ensures ShowsItsEvidence(v, f, min, hit)
  {
    hide AtLeast, FoundIn, EvidenceFrom, HasEvidence, Mentions;
    InTermsOfTheHits(Vector, v, min, hit.chunk);
    InTermsOfTheHits(Fulltext, f, min, hit.chunk);
  }

  lemma LoneHitShowsItsEvidence(channel: Channel, hits: seq<ChannelHit>, others: seq<ChannelHit>, min: real, hit: RetrievalHit)
    requires DistinctHits(hits) && IsFound(channel, hits, min, hit)
    requires NothingSurvives(if channel.Vector? then Fulltext else Vector, others, min)
    ensures ShowsItsEvidence(if channel.Vector? then hits else others, if channel.Vector? then others else hits, min, hit)
  {
    hide Enough;
    var other := if channel.Vector? then Fulltext else Vector;
    var k :| 0 <= k < |hits| && Enough(channel, hits[k].value, min) && FoundBy(channel, hits[k], hit);
    assert FoundIn(channel, hits, min, hit.chunk) && !FoundIn(other, others, min, hit.chunk);
    assert EvidenceFrom(channel, hits, min, hit.chunk, hit.evidenceScore);
    forall e ensures !EvidenceFrom(other, others, min, hit.chunk, e)
                     && (EvidenceFrom(channel, hits, min, hit.chunk, e) ==> e == hit.evidenceScore)
    {
      if EvidenceFrom(channel, hits, min, hit.chunk, e) {
        var m :| 0 <= m < |hits| && hits[m].chunk == hit.chunk && Evidence(channel, hits[m].value, e);
        assert m == k;
        SimilarityIsEvidence(channel, hits[k].value, e);
        SimilarityIsEvidence(channel, hits[k].value, hit.evidenceScore);
      }
    }
  }

  // With room for all of them, the search finds exactly the chunks that one of the channels found with enough evidence.
  lemma WhoIsFound(v: seq<ChannelHit>, f: seq<ChannelHit>, limit: nat, w: Weights, min: real, chunk: nat)
    requires DistinctHits(v) && DistinctHits(f) && w.vector > 0.0 && w.fulltext > 0.0
    requires |v| + |f| <= limit
    ensures (exists hit :: hit in FusedHits(v, f, limit, w, min) && hit.chunk == chunk)
            <==> FoundIn(Vector, v, min, chunk) || FoundIn(Fulltext, f, min, chunk)
  {
    hide AtLeast, Ranked, FusedHits, Enough, FoundIn, IsFound, FoundBy, Direct;
    var r := FusedHits(v, f, limit, w, min);
    EveryHitShowsItsEvidence(v, f, limit, w, min);
    forall hit | hit in r ensures FoundIn(Vector, v, min, hit.chunk) || FoundIn(Fulltext, f, min, hit.chunk) {
      assert ShowsItsEvidence(v, f, min, hit);
      EvidenceMeansFound(v, f, min, hit);
    }
    if FoundIn(Vector, v, min, chunk) || FoundIn(Fulltext, f, min, chunk) {
      if NothingSurvives(Fulltext, f, min) {
        LoneChunkIsFound(Vector, v, f, limit, w, min, chunk);
      } else if NothingSurvives(Vector, v, min) {
        LoneChunkIsFound(Fulltext, f, v, limit, w, min, chunk);
      } else {
        FusedChunkIsFound(v, f, limit, w, min, chunk);
      }
    }
  }

  lemma EvidenceMeansFound(v: seq<ChannelHit>, f: seq<ChannelHit>, min: real, hit: RetrievalHit)
    requires ShowsItsEvidence(v, f, min, hit)
    ensures FoundIn(Vector, v, min, hit.chunk) || FoundIn(Fulltext, f, min, hit.chunk)
  {
    hide Enough, Evidence;
  }

  lemma LoneChunkIsFound(channel: Channel, hits: seq<ChannelHit>, others: seq<ChannelHit>, limit: nat, w: Weights, min: real,
                         chunk: nat)
    requires DistinctHits(hits) && |hits| <= limit
    requires NothingSurvives(if channel.Vector? then Fulltext else Vector, others, min)
    requires FoundIn(Vector, if channel.Vector? then hits else others, min, chunk)
          || FoundIn(Fulltext, if channel.Vector? then others else hits, min, chunk)
    ensures exists hit ::
              hit in FusedHits(if channel.Vector? then hits else others, if channel.Vector? then others else hits, limit, w, min)
              && hit.chunk == chunk
  {
    hide Enough, FusedHits, AtLeast, Evidence, ByEvidence;
    var v, f := if channel.Vector? then hits else others, if channel.Vector? then others else hits;
    var k :| 0 <= k < |hits| && hits[k].chunk == chunk && Enough(channel, hits[k].value, min);
    WhatALoneChannelReturns(channel, hits, others, limit, w, min);
    var r := FusedHits(v, f, limit, w, min);
    var hit :| FoundBy(channel, hits[k], hit) && IsTopOrOut(r, limit, |hits|, hit);
  }

  lemma FusedChunkIsFound(v: seq<ChannelHit>, f: seq<ChannelHit>, limit: nat, w: Weights, min: real, chunk: nat)
    requires DistinctHits(v) && DistinctHits(f) && w.vector > 0.0 && w.fulltext > 0.0
    requires |v| + |f| <= limit && !NothingSurvives(Vector, v, min) && !NothingSurvives(Fulltext, f, min)
    requires FoundIn(Vector, v, min, chunk) || FoundIn(Fulltext, f, min, chunk)
    ensures exists hit :: hit in FusedHits(v, f, limit, w, min) && hit.chunk == chunk
  {
    hide AtLeast, Ranked, Enough, Direct, ToHit, SeenIn, Mentions;
    var kept, strong := AtLeast(Vector, v, min), AtLeast(Fulltext, f, min);
    SomeSurvive(Vector, v, min);
    SomeSurvive(Fulltext, f, min);
    SurvivorsAreKept(Vector, v, min);
    SurvivorsAreKept(Fulltext, f, min);
    InTermsOfTheHits(Vector, v, min, chunk);
    InTermsOfTheHits(Fulltext, f, min, chunk);
    FilteringKeepsDistinct(Vector, v, min);
    FilteringKeepsDistinct(Fulltext, f, min);
    RankedIsTheTop(kept, strong, w, limit);
    SeenInIsShort([], kept);
    SeenInIsShort(SeenIn([], kept), strong);
    HitKeepsTheScore(w);
    var ranked := Ranked(kept, strong, w, limit);
    assert exists j :: 0 <= j < |ranked| && ranked[j].chunk == chunk;
    var j :| 0 <= j < |ranked| && ranked[j].chunk == chunk;
    assert FusedHits(v, f, limit, w, min)[j].chunk == chunk;
  }

  lemma SurvivorsAreKept(channel: Channel, hits: seq<ChannelHit>, min: real)
    requires SomeReaches(channel, hits, min)
    ensures AtLeast(channel, hits, min) != []
  {
    hide AtLeast;
    var k: nat :| k < |hits| && Similarity(channel, hits[k].value) >= min;
    assert hits[k] in AtLeast(channel, hits, min);
  }

  // Without a positive weight no score means anything: every hit of both channels together shows distance one and no
  // evidence, and still names its channels.
  lemma WithoutWeightThereIsNoEvidence(v: seq<ChannelHit>, f: seq<ChannelHit>, limit: nat, w: Weights, min: real)
    requires w.vector + w.fulltext <= 0.0
    requires !NothingSurvives(Vector, v, min) && !NothingSurvives(Fulltext, f, min)
    ensures forall hit :: hit in FusedHits(v, f, limit, w, min) ==>
                            && hit.distance == 1.0 && hit.evidenceScore == 0.0
                            && (Vector in hit.matchedBy <==> FoundIn(Vector, v, min, hit.chunk))
                            && (Fulltext in hit.matchedBy <==> FoundIn(Fulltext, f, min, hit.chunk))
  {
    hide AtLeast, Ranked, Enough, Direct, FoundIn, Mentions;
    SomeSurvive(Vector, v, min);
    SomeSurvive(Fulltext, f, min);
    SurvivorsAreKept(Vector, v, min);
    SurvivorsAreKept(Fulltext, f, min);
    var kept, strong := AtLeast(Vector, v, min), AtLeast(Fulltext, f, min);
    var ranked, r := Ranked(kept, strong, w, limit), FusedHits(v, f, limit, w, min);
    RankedIsTheTop(kept, strong, w, limit);
    assert Best(w) <= 0.0 by {
      NoBest(w);
    }
    forall hit | hit in r
      ensures hit.distance == 1.0 && hit.evidenceScore == 0.0
              && (Vector in hit.matchedBy <==> FoundIn(Vector, v, min, hit.chunk))
              && (Fulltext in hit.matchedBy <==> FoundIn(Fulltext, f, min, hit.chunk))
    {
      var i :| 0 <= i < |r| && r[i] == hit;
      assert hit == ToHit(w, ranked[i]) && ranked[i] == Direct(kept, strong, w, ranked[i].chunk);
      InTermsOfTheHits(Vector, v, min, hit.chunk);
      InTermsOfTheHits(Fulltext, f, min, hit.chunk);
      ChannelsOf(kept, strong, w, hit.chunk);
    }
  }

  lemma NoBest(w: Weights)
    requires w.vector + w.fulltext <= 0.0
    ensures Best(w) <= 0.0
  {
  }

  lemma ChannelsOf(v: seq<ChannelHit>, f: seq<ChannelHit>, w: Weights, chunk: nat)
    ensures Vector in Direct(v, f, w, chunk).matchedBy <==> Mentions(v, chunk)
    ensures Fulltext in Direct(v, f, w, chunk).matchedBy <==> Mentions(f, chunk)
  {
  }
}
