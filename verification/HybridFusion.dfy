/**
  Reciprocal rank fusion of the vector and the full-text channel: the dictionaries the source accumulates, and a
  direct formula for every chunk.

  A chunk is its id; a channel is a list of chunks with a distance (vector) or a rank value (full text).
  */
module HybridFusion {
  import opened Wrappers
  import opened StableSort

  const RRF_K := 60.0

  datatype ChannelHit = ChannelHit(chunk: nat, value: real)

  datatype Channel = Vector | Fulltext

  datatype Weights = Weights(vector: real, fulltext: real)

  datatype Fused = Fused(chunk: nat, score: real, matchedBy: set<Channel>, vectorScore: Option<real>, fulltextScore: Option<real>)

  datatype ScoreKind = RelativeRrf | VectorScore | FulltextScore

  datatype RetrievalHit =
    RetrievalHit(chunk: nat, distance: real, scoreKind: ScoreKind, rawScore: real, evidenceScore: real, matchedBy: set<Channel>)

  function Max(x: real, y: real): real {
    if x >= y then x else y
  }

  function VectorSimilarity(distance: real): real {
    Max(0.0, 1.0 - distance)
  }

  function RankToDistance(rank: real): (d: real)
    ensures 0.0 < d <= 1.0
  {
    1.0 / (1.0 + Max(0.0, rank))
  }

  function FulltextSimilarity(rank: real): (s: real)
    ensures s == 1.0 - RankToDistance(rank) && 0.0 <= s < 1.0
  {
    Max(0.0, 1.0 - RankToDistance(rank))
  }

  function Similarity(channel: Channel, value: real): real {
    if channel.Vector? then VectorSimilarity(value) else FulltextSimilarity(value)
  }

  // The hits whose similarity reaches the minimum.
  function AtLeast(channel: Channel, hits: seq<ChannelHit>, min: real): (r: seq<ChannelHit>)
    ensures forall h :: h in r <==> h in hits && Similarity(channel, h.value) >= min
    ensures |r| <= |hits|
  {
    if hits == [] then []
    else
      var r := AtLeast(channel, hits[..|hits| - 1], min);
      var last := hits[|hits| - 1];
      assert hits == hits[..|hits| - 1] + [last];
      if Similarity(channel, last.value) >= min then r + [last] else r
  }

  // items[:limit], where a negative limit counts from the end
  function Prefix<T>(items: seq<T>, limit: int): (r: seq<T>)
    ensures r <= items
    ensures limit >= 0 ==> |r| == if limit < |items| then limit else |items|
  {
    if limit >= |items| then items
    else if limit >= 0 then items[..limit]
    else if |items| + limit >= 0 then items[..|items| + limit]
    else []
  }

  // ----- the direct formula

  predicate Mentions(hits: seq<ChannelHit>, chunk: nat) {
    exists k :: 0 <= k < |hits| && hits[k].chunk == chunk
  }

  // The sum over the occurrences of the chunk, the k-th hit counting weight / (60 + k).
  function Share(hits: seq<ChannelHit>, weight: real, chunk: nat): real {
    if hits == [] then 0.0
    else
      Share(hits[..|hits| - 1], weight, chunk)
      + if hits[|hits| - 1].chunk == chunk then weight / (RRF_K + |hits| as real) else 0.0
  }

  function LastScore(channel: Channel, hits: seq<ChannelHit>, chunk: nat): Option<real> {
    if hits == [] then None
    else if hits[|hits| - 1].chunk == chunk then Some(Similarity(channel, hits[|hits| - 1].value))
    else LastScore(channel, hits[..|hits| - 1], chunk)
  }

  function Direct(v: seq<ChannelHit>, f: seq<ChannelHit>, w: Weights, chunk: nat): Fused {
    Fused(chunk,
          Share(v, w.vector, chunk) + Share(f, w.fulltext, chunk),
          (if Mentions(v, chunk) then {Vector} else {}) + (if Mentions(f, chunk) then {Fulltext} else {}),
          LastScore(Vector, v, chunk),
          LastScore(Fulltext, f, chunk))
  }

  // The chunks in the order in which they are first seen, each once.
  function FirstSeen<T>(known: seq<nat>, hits: seq<T>, id: T -> nat): seq<nat> {
    if hits == [] then known
    else
      var r := FirstSeen(known, hits[..|hits| - 1], id);
      var last := id(hits[|hits| - 1]);
      if last in r then r else r + [last]
  }

  function SeenIn(known: seq<nat>, hits: seq<ChannelHit>): seq<nat> {
    FirstSeen(known, hits, (h: ChannelHit) => h.chunk)
  }

  function Chunks(v: seq<ChannelHit>, f: seq<ChannelHit>): seq<nat> {
    SeenIn(SeenIn([], v), f)
  }

  function DirectAll(v: seq<ChannelHit>, f: seq<ChannelHit>, w: Weights): (r: seq<Fused>)
    ensures |r| == |Chunks(v, f)|
    ensures forall k :: 0 <= k < |r| ==> r[k] == Direct(v, f, w, Chunks(v, f)[k])
  {
    var chunks := Chunks(v, f);
    seq(|chunks|, k requires 0 <= k < |chunks| => Direct(v, f, w, chunks[k]))
  }

  function Ranked(v: seq<ChannelHit>, f: seq<ChannelHit>, w: Weights, limit: int): seq<Fused> {
    Prefix(SortDescending(DirectAll(v, f, w), (item: Fused) => item.score), limit)
  }

  function Best(w: Weights): real {
    (w.vector + w.fulltext) / (RRF_K + 1.0)
  }

  function MaxOptional(x: Option<real>, y: Option<real>): real {
    match (x, y)
    case (None, None) => 0.0
    case (Some(a), None) => a
    case (None, Some(b)) => b
    case (Some(a), Some(b)) => Max(a, b)
  }

  function ToHit(w: Weights, item: Fused): RetrievalHit {
    if Best(w) <= 0.0 then RetrievalHit(item.chunk, 1.0, RelativeRrf, item.score, 0.0, item.matchedBy)
    else
      RetrievalHit(item.chunk, Max(0.0, 1.0 - item.score / Best(w)), RelativeRrf, item.score,
                   MaxOptional(item.vectorScore, item.fulltextScore), item.matchedBy)
  }

  function ToHits(w: Weights, items: seq<Fused>): (r: seq<RetrievalHit>)
    ensures |r| == |items|
    ensures forall k :: 0 <= k < |r| ==> r[k] == ToHit(w, items[k])
  {
    seq(|items|, k requires 0 <= k < |items| => ToHit(w, items[k]))
  }

  // ----- the order of the chunks

  lemma MentionsOneMore(hits: seq<ChannelHit>, chunk: nat)
    requires hits != []
    ensures Mentions(hits, chunk) <==> Mentions(hits[..|hits| - 1], chunk) || hits[|hits| - 1].chunk == chunk
  {
    assert hits[|hits| - 1].chunk == chunk ==> Mentions(hits, chunk);
    assert forall k | 0 <= k < |hits| - 1 :: hits[..|hits| - 1][k] == hits[k];
  }

  lemma {:induction false} SeenInIsDistinct(known: seq<nat>, hits: seq<ChannelHit>)
    requires Distinct(known)
    ensures Distinct(SeenIn(known, hits))
    ensures forall c: nat :: c in SeenIn(known, hits) <==> c in known || Mentions(hits, c)
  {
    if hits != [] {
      SeenInIsDistinct(known, hits[..|hits| - 1]);
      forall c: nat ensures Mentions(hits, c) <==> Mentions(hits[..|hits| - 1], c) || hits[|hits| - 1].chunk == c {
        MentionsOneMore(hits, c);
      }
    }
  }

  lemma {:induction false} SeenInIsShort(known: seq<nat>, hits: seq<ChannelHit>)
    ensures |SeenIn(known, hits)| <= |known| + |hits|
  {
    if hits != [] {
      SeenInIsShort(known, hits[..|hits| - 1]);
    }
  }

  lemma {:induction false} NotMentioned(channel: Channel, hits: seq<ChannelHit>, weight: real, chunk: nat)
    requires !Mentions(hits, chunk)
    ensures Share(hits, weight, chunk) == 0.0 && LastScore(channel, hits, chunk) == None
  {
    if hits != [] {
      MentionsOneMore(hits, chunk);
      NotMentioned(channel, hits[..|hits| - 1], weight, chunk);
    }
  }

  // ----- with distinct chunks in each channel

  ghost predicate DistinctHits(hits: seq<ChannelHit>) {
    forall i, j :: 0 <= i < j < |hits| ==> hits[i].chunk != hits[j].chunk
  }

  lemma {:induction false} ShareOfTheOnlyHit(channel: Channel, hits: seq<ChannelHit>, weight: real, k: nat)
    requires DistinctHits(hits) && k < |hits|
    ensures Share(hits, weight, hits[k].chunk) == weight / (60.0 + (k + 1) as real)
    ensures LastScore(channel, hits, hits[k].chunk) == Some(Similarity(channel, hits[k].value))
  {
    var n := |hits| - 1;
    if k == n {
      assert forall i | 0 <= i < n :: hits[..n][i].chunk != hits[k].chunk;
      NotMentioned(channel, hits[..n], weight, hits[k].chunk);
    } else {
      ShareOfTheOnlyHit(channel, hits[..n], weight, k);
      assert hits[..n][k] == hits[k];
    }
  }

  lemma Fractions(weight: real, a: real, b: real)
    requires weight > 0.0 && 0.0 < a <= b
    ensures 0.0 < weight / b <= weight / a
    ensures a < b ==> weight / b < weight / a
  {
    var x, y := weight / a, weight / b;
    assert x * a == weight == y * b;
    assert y > 0.0;
    assert y * b >= y * a;
  }

  // A channel contributes at most weight / 61, and exactly that to its first chunk only.
  lemma ShareBounds(hits: seq<ChannelHit>, weight: real, chunk: nat)
    requires DistinctHits(hits) && weight > 0.0
    ensures 0.0 <= Share(hits, weight, chunk) <= weight / 61.0
    ensures Share(hits, weight, chunk) == weight / 61.0 <==> hits != [] && hits[0].chunk == chunk
    ensures Share(hits, weight, chunk) > 0.0 <==> Mentions(hits, chunk)
  {
    Fractions(weight, RRF_K + 1.0, RRF_K + 1.0);
    if Mentions(hits, chunk) {
      var k: nat :| k < |hits| && hits[k].chunk == chunk;
      ShareOfTheOnlyHit(Vector, hits, weight, k);
      Fractions(weight, RRF_K + 1.0, RRF_K + (k + 1) as real);
    } else {
      NotMentioned(Vector, hits, weight, chunk);
    }
  }

  // `a` stands before `b` in the channel, or `b` is not in it.
  ghost predicate NotBehind(hits: seq<ChannelHit>, a: nat, b: nat) {
    forall j :: 0 <= j < |hits| && hits[j].chunk == b ==> exists i :: 0 <= i <= j && hits[i].chunk == a
  }

  lemma NotBehindScoresNoLess(hits: seq<ChannelHit>, weight: real, a: nat, b: nat)
    requires DistinctHits(hits) && weight > 0.0 && NotBehind(hits, a, b)
    ensures Share(hits, weight, a) >= Share(hits, weight, b)
  {
    ShareBounds(hits, weight, a);
    if Mentions(hits, b) {
      var j: nat :| j < |hits| && hits[j].chunk == b;
      var i: nat :| i <= j && hits[i].chunk == a;
      ShareOfTheOnlyHit(Vector, hits, weight, i);
      ShareOfTheOnlyHit(Vector, hits, weight, j);
      Fractions(weight, RRF_K + (i + 1) as real, RRF_K + (j + 1) as real);
    } else {
      NotMentioned(Vector, hits, weight, b);
    }
  }

  // Dominance: a chunk that is not behind another one in either channel scores no less.
  lemma DominanceInBothChannels(v: seq<ChannelHit>, f: seq<ChannelHit>, w: Weights, a: nat, b: nat)
    requires DistinctHits(v) && DistinctHits(f) && w.vector > 0.0 && w.fulltext > 0.0
    requires NotBehind(v, a, b) && NotBehind(f, a, b)
    ensures Direct(v, f, w, a).score >= Direct(v, f, w, b).score
  {
    NotBehindScoresNoLess(v, w.vector, a, b);
    NotBehindScoresNoLess(f, w.fulltext, a, b);
  }

  lemma Scaled(x: real, y: real, r: real)
    requires r > 0.0
    ensures x < y ==> x * r < y * r
  {
  }

  lemma Quotient(score: real, best: real)
    requires 0.0 < score <= best
    ensures 0.0 < score / best <= 1.0
    ensures score / best == 1.0 <==> score == best
  {
    var q := score / best;
    assert q * best == score;
    assert q > 0.0;
    Scaled(1.0, q, best);
  }

  // The distance is what the score lacks of the best possible one: it lies in [0, 1) and is 0 exactly for a chunk that
  // is first in both channels.
  lemma DistanceIsRelative(v: seq<ChannelHit>, f: seq<ChannelHit>, w: Weights, chunk: nat)
    requires DistinctHits(v) && DistinctHits(f) && w.vector > 0.0 && w.fulltext > 0.0
    requires Mentions(v, chunk) || Mentions(f, chunk)
    ensures
      var hit := ToHit(w, Direct(v, f, w, chunk));
      && 0.0 <= hit.distance < 1.0
      && (hit.distance == 0.0 <==> v != [] && f != [] && v[0].chunk == chunk == f[0].chunk)
      && hit.distance == 1.0 - hit.rawScore / ((w.vector + w.fulltext) / 61.0)
  {
    ShareBounds(v, w.vector, chunk);
    ShareBounds(f, w.fulltext, chunk);
    var score := Direct(v, f, w, chunk).score;
    BestIsPositive(w);
    assert Best(w) == w.vector / (RRF_K + 1.0) + w.fulltext / (RRF_K + 1.0);
    Quotient(score, Best(w));
  }

  // The one similarity a channel has for a chunk.
  lemma OnlyScore(channel: Channel, hits: seq<ChannelHit>, chunk: nat)
    requires DistinctHits(hits)
    ensures LastScore(channel, hits, chunk).Some? <==> Mentions(hits, chunk)
    ensures forall k :: 0 <= k < |hits| && hits[k].chunk == chunk ==>
                          LastScore(channel, hits, chunk) == Some(Similarity(channel, hits[k].value))
  {
    if Mentions(hits, chunk) {
      var k: nat :| k < |hits| && hits[k].chunk == chunk;
      ShareOfTheOnlyHit(channel, hits, 1.0, k);
    } else {
      NotMentioned(channel, hits, 1.0, chunk);
    }
  }

  lemma BestIsPositive(w: Weights)
    requires w.vector > 0.0 && w.fulltext > 0.0
    ensures Best(w) > 0.0
  {
    Fractions(w.vector + w.fulltext, RRF_K + 1.0, RRF_K + 1.0);
  }

  ghost predicate HasEvidence(channel: Channel, hits: seq<ChannelHit>, chunk: nat, evidence: real) {
    exists k :: 0 <= k < |hits| && hits[k].chunk == chunk && Similarity(channel, hits[k].value) == evidence
  }

  // The evidence is the larger similarity of the channels that found the chunk, and reaches the minimum.
  lemma EvidenceIsTheBestSimilarity(v: seq<ChannelHit>, f: seq<ChannelHit>, w: Weights, min: real, chunk: nat)
    requires DistinctHits(v) && DistinctHits(f) && w.vector > 0.0 && w.fulltext > 0.0
    requires forall k :: 0 <= k < |v| ==> VectorSimilarity(v[k].value) >= min
    requires forall k :: 0 <= k < |f| ==> FulltextSimilarity(f[k].value) >= min
    requires Mentions(v, chunk) || Mentions(f, chunk)
    ensures
      var evidence := ToHit(w, Direct(v, f, w, chunk)).evidenceScore;
      && evidence >= min
      && (HasEvidence(Vector, v, chunk, evidence) || HasEvidence(Fulltext, f, chunk, evidence))
      && (forall e :: HasEvidence(Vector, v, chunk, e) || HasEvidence(Fulltext, f, chunk, e) ==> evidence >= e)
  {
    hide Share, VectorSimilarity, FulltextSimilarity, Best;
    BestIsPositive(w);
    OnlyScore(Vector, v, chunk);
    OnlyScore(Fulltext, f, chunk);
    if Mentions(v, chunk) {
      var k: nat :| k < |v| && v[k].chunk == chunk;
      assert HasEvidence(Vector, v, chunk, VectorSimilarity(v[k].value));
    }
    if Mentions(f, chunk) {
      var k: nat :| k < |f| && f[k].chunk == chunk;
      assert HasEvidence(Fulltext, f, chunk, FulltextSimilarity(f[k].value));
    }
  }

  // ----- the ranking

  // Ranked is a prefix of all chunks by descending score, without repetition, ties in the order first seen; what it
  // leaves out scores no more than what it contains.
  lemma RankedIsTheTop(v: seq<ChannelHit>, f: seq<ChannelHit>, w: Weights, limit: int)
    requires limit >= 0
    ensures
      var r := Ranked(v, f, w, limit);
      && |r| == (if limit < |Chunks(v, f)| then limit else |Chunks(v, f)|)
      && (forall i, j :: 0 <= i < j < |r| ==>
            r[i].chunk != r[j].chunk
            && Ahead(r[i], r[j], (x: Fused) => x.score, Chunks(v, f), (x: Fused) => x.chunk))
      && (forall i :: 0 <= i < |r| ==>
            r[i] == Direct(v, f, w, r[i].chunk) && (Mentions(v, r[i].chunk) || Mentions(f, r[i].chunk)))
      && (forall c: nat, i :: (Mentions(v, c) || Mentions(f, c)) && 0 <= i < |r| && (forall j :: 0 <= j < |r| ==> r[j].chunk != c)
                              ==> r[i].score >= Direct(v, f, w, c).score)
      && (forall c: nat :: (Mentions(v, c) || Mentions(f, c)) && (forall j :: 0 <= j < |r| ==> r[j].chunk != c)
                           ==> |r| == limit < |Chunks(v, f)|)
  {
    hide Share, LastScore, Mentions, Direct, SortDescending, SeenIn, PlaceOf;
    var chunks, all := Chunks(v, f), DirectAll(v, f, w);
    var sorted := SortDescending(all, (item: Fused) => item.score);
    SeenInIsDistinct([], v);
    SeenInIsDistinct(SeenIn([], v), f);
    DirectKeepsTheChunk(v, f, w);
    SortsDistinct(all, sorted, (item: Fused) => item.score, chunks, (item: Fused) => item.chunk);
    var r := Ranked(v, f, w, limit);
    assert forall i | 0 <= i < |r| :: r[i] == sorted[i];
    forall i | 0 <= i < |r| ensures r[i] == Direct(v, f, w, r[i].chunk) && r[i].chunk in chunks {
      assert sorted[i] in all;
    }
    forall c: nat | c in chunks && (forall j :: 0 <= j < |r| ==> r[j].chunk != c)
      ensures |r| == limit < |chunks| && forall i :: 0 <= i < |r| ==> r[i].score >= Direct(v, f, w, c).score
    {
      var k :| 0 <= k < |chunks| && chunks[k] == c;
      assert all[k] in sorted;
      var j :| 0 <= j < |sorted| && sorted[j] == all[k];
      assert j >= |r|;
    }
  }

  lemma DirectKeepsTheChunk(v: seq<ChannelHit>, f: seq<ChannelHit>, w: Weights)
    ensures forall c: nat :: Direct(v, f, w, c).chunk == c
  {
  }
}
