/** Reciprocal rank fusion of the search layers: scores are added up over all occurrences of an id, and the
    payload of an id is that of its first appearance. */
module SearchFusion {
  import opened Collections
  import opened Ranking

  datatype Fragment = Fragment(
    id: string, content: Option<string>, similarity: Option<real>, rerankerScore: Option<real>,
    rrfScore: Option<real>, keywords: seq<string>, estimatedTokens: nat, superseded: bool)

  /** A search result: the L1 layer yields bare ids, the others yield fragments. */
  datatype Item = Bare(bareId: string) | Full(fragment: Fragment)
  {
    function Id(): string { if Bare? then bareId else fragment.id }

    function Payload(): Fragment
    {
      if Bare? then Fragment(bareId, None, None, None, None, [], 0, false) else fragment
    }
  }

  datatype Layer = Layer(results: seq<Item>, weight: real)

  /** One occurrence of an item in a layer, with what it adds to the score of its id. */
  datatype Hit = Hit(item: Item, points: real)

  function Points(l: Layer, rank: nat, k: nat): real
  {
    l.weight / (k + rank + 1) as real
  }

  function HitAt(l: Layer, rank: nat, k: nat): Hit
    requires rank < |l.results|
  {
    Hit(l.results[rank], Points(l, rank, k))
  }

  function LayerHits(l: Layer, n: nat, k: nat): (r: seq<Hit>)
    requires n <= |l.results|
    ensures |r| == n && forall i :: 0 <= i < n ==> r[i] == HitAt(l, i, k)
  {
    if n == 0 then [] else LayerHits(l, n - 1, k) + [HitAt(l, n - 1, k)]
  }

  /** All occurrences, layer by layer and rank by rank. */
  function Hits(layers: seq<Layer>, k: nat): seq<Hit>
  {
    if layers == [] then []
    else
      var last := layers[|layers| - 1];
      Hits(layers[..|layers| - 1], k) + LayerHits(last, |last.results|, k)
  }

  function Ids(hits: seq<Hit>): (r: seq<string>)
    ensures |r| == |hits| && forall i :: 0 <= i < |r| ==> r[i] == hits[i].item.Id()
  {
    if hits == [] then [] else Ids(hits[..|hits| - 1]) + [hits[|hits| - 1].item.Id()]
  }

  /** What all occurrences of `id` add up to. */
  function Score(hits: seq<Hit>, id: string): real
  {
    if hits == [] then 0.0
    else
      Score(hits[..|hits| - 1], id)
      + if hits[|hits| - 1].item.Id() == id then hits[|hits| - 1].points else 0.0
  }

  function Scored(hits: seq<Hit>, id: string): Fragment
    requires id in Ids(hits)
  {
    FirstIndexFound(Ids(hits), id);
    hits[FirstIndex(Ids(hits), id)].item.Payload().(rrfScore := Some(Score(hits, id)))
  }

  function RrfKey(f: Fragment): real
  {
    if f.rrfScore.Some? then f.rrfScore.value else 0.0
  }

  ghost function Position(hits: seq<Hit>): Fragment -> int
  {
    (f: Fragment) => FirstIndex(Ids(hits), f.id)
  }

  /** What `MergeRRF` promises about its result: every id once, with its first payload and its whole score,
      in descending order of score, ties in order of first appearance. */
  ghost predicate Fused(merged: seq<Fragment>, hits: seq<Hit>)
  {
    && (forall i :: 0 <= i < |merged| ==> merged[i].id in Ids(hits) && merged[i] == Scored(hits, merged[i].id))
    && (forall id :: id in Ids(hits) ==> exists i :: 0 <= i < |merged| && merged[i].id == id)
    && Ordered(merged, RrfKey, Position(hits))
  }

  /** The promise leaves no freedom: positions, payloads and scores are all determined. */
  lemma FusedOnce(merged: seq<Fragment>, hits: seq<Hit>, i: nat, j: nat)
    requires Fused(merged, hits) && i < |merged| && j < |merged| && merged[i].id == merged[j].id
    ensures i == j
  {
  }

  lemma IdsAppend(a: seq<Hit>, b: seq<Hit>)
    ensures Ids(a + b) == Ids(a) + Ids(b)
  {
  }

  /** The map and its insertion order after the occurrences `hits`. */
  ghost predicate Tallied(scores: map<string, Fragment>, order: seq<string>, hits: seq<Hit>)
  {
    && order == Order(Ids(hits))
    && (forall id :: id in scores <==> id in Ids(hits))
    && forall id :: id in Ids(hits) ==> scores[id] == Scored(hits, id)
  }

  lemma ScoreSnoc(hits: seq<Hit>, h: Hit, id: string)
    ensures Score(hits + [h], id) == Score(hits, id) + if h.item.Id() == id then h.points else 0.0
  {
  }

  lemma IdsSnoc(hits: seq<Hit>, h: Hit)
    ensures Ids(hits + [h]) == Ids(hits) + [h.item.Id()]
  {
  }

  lemma OrderSnoc(ids: seq<string>, id: string)
    ensures Order(ids + [id]) == if id in ids then Order(ids) else Order(ids) + [id]
  {
  }

  /** A further occurrence of a known id adds to its score only. */
  lemma ScoredAgain(hits: seq<Hit>, h: Hit, id: string)
    requires id in Ids(hits)
    ensures id in Ids(hits + [h])
    ensures Scored(hits + [h], id)
            == Scored(hits, id).(rrfScore := Some(Score(hits, id) + if h.item.Id() == id then h.points else 0.0))
  {
    hide Ids, Score, FirstIndex, Item.Payload;
    IdsSnoc(hits, h);
    ScoreSnoc(hits, h, id);
    FirstIndexFound(Ids(hits), id);
    FirstIndexAppend(Ids(hits), [h.item.Id()], id);
  }

  lemma ScoredFirst(hits: seq<Hit>, h: Hit)
    requires h.item.Id() !in Ids(hits)
    ensures h.item.Id() in Ids(hits + [h])
    ensures Scored(hits + [h], h.item.Id()) == h.item.Payload().(rrfScore := Some(h.points))
  {
    hide Ids, Score, FirstIndex, Item.Payload;
    var id := h.item.Id();
    IdsSnoc(hits, h);
    assert (Ids(hits) + [id])[|hits|] == id;
    ScoreSnoc(hits, h, id);
    NoPoints(hits, id);
    FirstIndexFound(Ids(hits), id);
    FirstIndexAppend(Ids(hits), [id], id);
  }

  lemma {:induction false} NoPoints(hits: seq<Hit>, id: string)
    requires id !in Ids(hits)
    ensures Score(hits, id) == 0.0
  {
    if hits != [] {
      assert Ids(hits)[|hits| - 1] == hits[|hits| - 1].item.Id();
      assert forall i :: 0 <= i < |hits| - 1 ==> Ids(hits[..|hits| - 1])[i] == Ids(hits)[i];
      NoPoints(hits[..|hits| - 1], id);
    }
  }

  /** How one more occurrence changes the map. */
  function Tallying(scores: map<string, Fragment>, h: Hit): map<string, Fragment>
  {
    var id := h.item.Id();
    if id in scores then
      scores[id := scores[id].(rrfScore := Some(RrfKey(scores[id]) + h.points))]
    else
      scores[id := h.item.Payload().(rrfScore := Some(h.points))]
  }

  lemma TallyingScores(scores: map<string, Fragment>, order: seq<string>, hits: seq<Hit>, h: Hit)
    requires Tallied(scores, order, hits)
    ensures var order' := if h.item.Id() in scores then order else order + [h.item.Id()];
      Tallied(Tallying(scores, h), order', hits + [h])
  {
    hide Ids, Order, Scored, Tallying;
    var ids, id := Ids(hits), h.item.Id();
    IdsSnoc(hits, h);
    OrderSnoc(ids, id);
    assert forall x :: x in ids + [id] <==> x in ids || x == id;
    forall x
      ensures x in Tallying(scores, h) <==> x in ids + [id]
      ensures x in ids + [id] ==> Tallying(scores, h)[x] == Scored(hits + [h], x)
    {
      TallyingScore(scores, hits, h, x);
    }
  }

  lemma TallyingScore(scores: map<string, Fragment>, hits: seq<Hit>, h: Hit, x: string)
    requires forall id :: id in scores <==> id in Ids(hits)
    requires forall id :: id in Ids(hits) ==> scores[id] == Scored(hits, id)
    ensures x in Tallying(scores, h) <==> x in scores || x == h.item.Id()
    ensures x in scores || x == h.item.Id() ==>
              x in Ids(hits + [h]) && Tallying(scores, h)[x] == Scored(hits + [h], x)
  {
    hide Ids, Score, FirstIndex, Scored, Item.Payload, Item.Id;
    if x in scores {
      ScoredAgain(hits, h, x);
      ScoreOfScored(hits, x);
      AddingNothing(Scored(hits, x), Score(hits, x));
    } else if x == h.item.Id() {
      ScoredFirst(hits, h);
    }
  }

  lemma ScoreOfScored(hits: seq<Hit>, id: string)
    requires id in Ids(hits)
    ensures Scored(hits, id).rrfScore == Some(Score(hits, id))
  {
  }

  lemma AddingNothing(f: Fragment, score: real)
    requires f.rrfScore == Some(score)
    ensures f.(rrfScore := Some(score + 0.0)) == f && RrfKey(f) == score
  {
  }

  lemma LastLayer(front: seq<Layer>, last: Layer, k: nat)
    ensures Hits(front + [last], k) == Hits(front, k) + LayerHits(last, |last.results|, k)
  {
    hide LayerHits;
    assert (front + [last])[..|front|] == front;
  }

  lemma NothingTallied(k: nat)
    ensures Hits([], k) == [] && Tallied(map[], [], [])
  {
  }

  /** Fuses the layers; see `Fused` for what that means. */
  method MergeRRF(layers: seq<Layer>, k: nat) returns (merged: seq<Fragment>)
    ensures Fused(merged, Hits(layers, k))
  {
    hide Tallied, Fused, Hits;
    var scores: map<string, Fragment>, order: seq<string> := map[], [];
    NothingTallied(k);
    assert layers[..0] == [];
    for l := 0 to |layers|
      invariant Tallied(scores, order, Hits(layers[..l], k))
    {
      var layer := layers[l];
      ghost var before := Hits(layers[..l], k);
      assert before + LayerHits(layer, 0, k) == before;
      for rank := 0 to |layer.results|
        invariant Tallied(scores, order, before + LayerHits(layer, rank, k))
      {
        var h := HitAt(layer, rank, k);
        var id := h.item.Id();
        TallyingScores(scores, order, before + LayerHits(layer, rank, k), h);
        if id in scores {
          scores := scores[id := scores[id].(rrfScore := Some(RrfKey(scores[id]) + h.points))];
        } else {
          scores := scores[id := h.item.Payload().(rrfScore := Some(h.points))];
          order := order + [id];
        }
        assert before + LayerHits(layer, rank + 1, k) == (before + LayerHits(layer, rank, k)) + [h];
      }
      assert layers[..l + 1] == layers[..l] + [layer];
      LastLayer(layers[..l], layer, k);
    }
    assert layers[..|layers|] == layers;
    SortedIsFused(scores, order, Hits(layers, k));
    merged := SortDesc(Values(scores, order), RrfKey);
  }

  function Values(scores: map<string, Fragment>, order: seq<string>): (r: seq<Fragment>)
    requires forall id :: id in order ==> id in scores
    ensures |r| == |order| && forall i :: 0 <= i < |r| ==> r[i] == scores[order[i]]
  {
    if order == [] then [] else Values(scores, order[..|order| - 1]) + [scores[order[|order| - 1]]]
  }

  lemma ValuesAreScored(scores: map<string, Fragment>, order: seq<string>, hits: seq<Hit>)
    requires Tallied(scores, order, hits)
    ensures forall id :: id in order <==> id in Ids(hits)
    ensures forall i :: 0 <= i < |order| ==> order[i] in scores
    ensures forall i :: 0 <= i < |order| ==>
              Values(scores, order)[i] == Scored(hits, order[i]) && Values(scores, order)[i].id == order[i]
    ensures forall i, j :: 0 <= i < j < |order| ==> FirstIndex(Ids(hits), order[i]) < FirstIndex(Ids(hits), order[j])
  {
    OrderByFirstAppearance(Ids(hits));
    hide Order, Score, Ids, FirstIndex, Values;
    assert forall i :: 0 <= i < |order| ==> order[i] in order;
    forall i | 0 <= i < |order|
      ensures Values(scores, order)[i] == Scored(hits, order[i]) && Values(scores, order)[i].id == order[i]
    {
      FirstIndexFound(Ids(hits), order[i]);
    }
  }

  lemma FoundIn(a: seq<Fragment>, b: seq<Fragment>, i: nat) returns (j: nat)
    requires multiset(a) == multiset(b) && i < |a|
    ensures j < |b| && b[j] == a[i]
  {
    assert a[i] in multiset(a);
    j :| j < |b| && b[j] == a[i];
  }

  lemma SortedIsFused(scores: map<string, Fragment>, order: seq<string>, hits: seq<Hit>)
    requires Tallied(scores, order, hits)
    ensures forall id :: id in order ==> id in scores
    ensures Fused(SortDesc(Values(scores, order), RrfKey), hits)
  {
    hide *;
    ValuesAreScored(scores, order, hits);
    ValuesOrdered(scores, order, hits);
    var vals := Values(scores, order);
    var merged := SortDesc(vals, RrfKey);
    SortPermutes(vals, RrfKey);
    FusedFrom(merged, vals, order, hits);
  }

  lemma ValuesOrdered(scores: map<string, Fragment>, order: seq<string>, hits: seq<Hit>)
    requires Tallied(scores, order, hits)
    ensures forall id :: id in order ==> id in scores
    ensures Ordered(SortDesc(Values(scores, order), RrfKey), RrfKey, Position(hits))
  {
    ValuesAreScored(scores, order, hits);
    var vals := Values(scores, order);
    hide Tallied, Ids, Scored, Values, FirstIndex, Ordered, SortDesc, RrfKey;
    assert forall i :: 0 <= i < |vals| ==> Position(hits)(vals[i]) == FirstIndex(Ids(hits), order[i]);
    SortIsStable(vals, RrfKey, Position(hits));
  }

  lemma FusedFrom(merged: seq<Fragment>, vals: seq<Fragment>, order: seq<string>, hits: seq<Hit>)
    requires |vals| == |order| && forall id :: id in order <==> id in Ids(hits)
    requires forall i :: 0 <= i < |vals| ==>
               order[i] in Ids(hits) && vals[i] == Scored(hits, order[i]) && vals[i].id == order[i]
    requires multiset(merged) == multiset(vals)
    requires Ordered(merged, RrfKey, Position(hits))
    ensures Fused(merged, hits)
  {
    hide Ordered, Scored, Ids, Position;
    forall i | 0 <= i < |merged|
      ensures merged[i].id in Ids(hits) && merged[i] == Scored(hits, merged[i].id)
    {
      var j := FoundIn(merged, vals, i);
    }
    forall id | id in Ids(hits)
      ensures exists i :: 0 <= i < |merged| && merged[i].id == id
    {
      assert id in order;
      var j :| 0 <= j < |order| && order[j] == id;
      var i := FoundIn(vals, merged, j);
      assert merged[i].id == id;
    }
  }

  // An item ranked ahead of another in every layer that holds the other.

  function LayerIds(l: Layer, k: nat): seq<string>
  {
    Ids(LayerHits(l, |l.results|, k))
  }

  ghost predicate DuplicateFree(l: Layer)
  {
    forall i, j :: 0 <= i < j < |l.results| ==> l.results[i].Id() != l.results[j].Id()
  }

  /** `a` stands before `b` wherever `b` stands. */
  ghost predicate AheadIn(l: Layer, k: nat, a: string, b: string)
  {
    b in LayerIds(l, k) ==> FirstIndex(LayerIds(l, k), a) < FirstIndex(LayerIds(l, k), b)
  }

  lemma {:induction false} ScoreAppend(x: seq<Hit>, y: seq<Hit>, id: string)
    ensures Score(x + y, id) == Score(x, id) + Score(y, id)
  {
    if y == [] {
      assert x + y == x;
    } else {
      ScoreAppend(x, y[..|y| - 1], id);
      assert x + y == (x + y[..|y| - 1]) + [y[|y| - 1]];
      ScoreSnoc(x + y[..|y| - 1], y[|y| - 1], id);
    }
  }

  /** Where no id occurs twice, the score of an id is what its one occurrence adds. */
  lemma {:induction false} ScoreOfDistinct(hits: seq<Hit>, id: string)
    requires Distinct(Ids(hits))
    ensures var p := FirstIndex(Ids(hits), id);
      Score(hits, id) == if p < |hits| then hits[p].points else 0.0
  {
    if hits != [] {
      var front, h := hits[..|hits| - 1], hits[|hits| - 1];
      assert hits == front + [h];
      hide Ids, Score, FirstIndex;
      IdsSnoc(front, h);
      assert Distinct(Ids(front)) by { DistinctFront(Ids(front), h.item.Id()); }
      ScoreOfDistinct(front, id);
      ScoreSnoc(front, h, id);
      SnocIndex(Ids(front), h.item.Id(), id);
    }
  }

  lemma DistinctFront(ids: seq<string>, last: string)
    requires Distinct(ids + [last])
    ensures Distinct(ids) && last !in ids
  {
    assert forall i :: 0 <= i < |ids| ==> (ids + [last])[i] == ids[i];
    assert (ids + [last])[|ids|] == last;
  }

  lemma SnocIndex(ids: seq<string>, last: string, id: string)
    requires Distinct(ids + [last])
    ensures var p := FirstIndex(ids, id);
      && (last == id ==> p == |ids|)
      && FirstIndex(ids + [last], id) == if p < |ids| || last == id then p else p + 1
  {
    FirstIndexAppend(ids, [last], id);
    var p := FirstIndex(ids, id);
    assert (ids + [last])[|ids|] == last;
    assert p < |ids| ==> (ids + [last])[p] == ids[p];
  }

  lemma LayerScore(l: Layer, k: nat, id: string)
    requires DuplicateFree(l)
    ensures var p := FirstIndex(LayerIds(l, k), id);
      Score(LayerHits(l, |l.results|, k), id) == if p < |l.results| then Points(l, p, k) else 0.0
  {
    hide Ids, Score, FirstIndex, LayerHits, Points;
    ScoreOfDistinct(LayerHits(l, |l.results|, k), id);
  }

  lemma DivideByLess(w: real, x: real, y: real)
    requires w >= 0.0 && 0.0 < x <= y
    ensures w / x >= w / y >= 0.0
  {
  }

  lemma LayerScoreDominates(l: Layer, k: nat, a: string, b: string)
    requires DuplicateFree(l) && l.weight >= 0.0 && AheadIn(l, k, a, b)
    ensures var hits := LayerHits(l, |l.results|, k); Score(hits, a) >= Score(hits, b) && Score(hits, a) >= 0.0
  {
    hide Ids, Score, FirstIndex, LayerHits, Points;
    var n := |l.results|;
    LayerScore(l, k, a);
    LayerScore(l, k, b);
    var pa, pb := FirstIndex(LayerIds(l, k), a), FirstIndex(LayerIds(l, k), b);
    FirstIndexFound(LayerIds(l, k), b);
    PointsDecrease(l, pa, pa, k);
    if pb < n {
      PointsDecrease(l, pa, pb, k);
    }
  }

  lemma PointsDecrease(l: Layer, p: nat, q: nat, k: nat)
    requires l.weight >= 0.0 && p <= q
    ensures Points(l, p, k) >= Points(l, q, k) >= 0.0
  {
    DivideByLess(l.weight, (k + p + 1) as real, (k + q + 1) as real);
  }

  lemma {:induction false} HitsDominate(layers: seq<Layer>, k: nat, a: string, b: string)
    requires forall i :: 0 <= i < |layers| ==>
               DuplicateFree(layers[i]) && layers[i].weight >= 0.0 && AheadIn(layers[i], k, a, b)
    ensures var hits := Hits(layers, k);
      && Score(hits, a) >= Score(hits, b)
      && (b in Ids(hits) ==> FirstIndex(Ids(hits), a) < FirstIndex(Ids(hits), b))
  {
    if layers != [] {
      var front, last := layers[..|layers| - 1], layers[|layers| - 1];
      HitsDominate(front, k, a, b);
      LayerScoreDominates(last, k, a, b);
      AppendKeepsAhead(Hits(front, k), LayerHits(last, |last.results|, k), a, b);
    }
  }

  lemma AppendKeepsAhead(x: seq<Hit>, y: seq<Hit>, a: string, b: string)
    requires Score(x, a) >= Score(x, b) && Score(y, a) >= Score(y, b)
    requires b in Ids(x) ==> FirstIndex(Ids(x), a) < FirstIndex(Ids(x), b)
    requires b in Ids(y) ==> FirstIndex(Ids(y), a) < FirstIndex(Ids(y), b)
    ensures Score(x + y, a) >= Score(x + y, b)
    ensures b in Ids(x + y) ==> FirstIndex(Ids(x + y), a) < FirstIndex(Ids(x + y), b)
  {
    hide Score, Ids, FirstIndex;
    ScoreAppend(x, y, a);
    ScoreAppend(x, y, b);
    IdsAppend(x, y);
    FirstIndexAppend(Ids(x), Ids(y), a);
    FirstIndexAppend(Ids(x), Ids(y), b);
    FirstIndexFound(Ids(x), b);
    FirstIndexFound(Ids(y), b);
    FirstIndexFound(Ids(x), a);
  }

  /** An item ranked ahead of another in every layer that holds the other comes first in the fused result. */
  lemma AheadEverywhereComesFirst(layers: seq<Layer>, k: nat, merged: seq<Fragment>, i: nat, j: nat)
    requires Fused(merged, Hits(layers, k)) && i < |merged| && j < |merged| && i != j
    requires forall l :: 0 <= l < |layers| ==>
               && DuplicateFree(layers[l]) && layers[l].weight >= 0.0
               && AheadIn(layers[l], k, merged[i].id, merged[j].id)
    ensures i < j
  {
    HitsDominate(layers, k, merged[i].id, merged[j].id);
    hide Score, Ids, FirstIndex, Hits, AheadIn, DuplicateFree;
  }

  /** The fused fragment is the first one with its id, and that of a bare id has neither content nor similarity; only
      the score is new. */
  lemma FirstPayloadIsKept(merged: seq<Fragment>, hits: seq<Hit>, i: nat) returns (p: nat)
    requires Fused(merged, hits) && i < |merged|
    ensures p < |hits| && hits[p].item.Id() == merged[i].id
    ensures forall q :: 0 <= q < p ==> hits[q].item.Id() != merged[i].id
    ensures match hits[p].item
            case Full(f) => merged[i] == f.(rrfScore := merged[i].rrfScore)
            case Bare(id) => merged[i] == Fragment(id, None, None, None, merged[i].rrfScore, [], 0, false)
  {
    hide Score, Ordered;
    FirstIndexFound(Ids(hits), merged[i].id);
    p := FirstIndex(Ids(hits), merged[i].id);
    assert Ids(hits)[p] == merged[i].id;
    forall q | 0 <= q < p
      ensures hits[q].item.Id() != merged[i].id
    {
      assert Ids(hits)[q] != merged[i].id;
    }
  }

  /** What a layer in which the id has rank `p` contributes in reciprocal rank fusion. */
  function Share(l: Layer, k: nat, id: string): real
  {
    var p := FirstIndex(LayerIds(l, k), id);
    if p < |l.results| then l.weight / (k + 1 + p) as real else 0.0
  }

  function Shares(layers: seq<Layer>, k: nat, id: string): real
  {
    if layers == [] then 0.0
    else Shares(layers[..|layers| - 1], k, id) + Share(layers[|layers| - 1], k, id)
  }

  lemma {:induction false} ScoreIsShares(layers: seq<Layer>, k: nat, id: string)
    requires forall l :: 0 <= l < |layers| ==> DuplicateFree(layers[l])
    ensures Score(Hits(layers, k), id) == Shares(layers, k, id)
  {
    hide Score, LayerHits, DuplicateFree, FirstIndex, LayerIds;
    if layers == [] {
      NothingTallied(k);
      assert Score([], id) == 0.0 by { NoPoints([], id); }
    } else {
      var front, last := layers[..|layers| - 1], layers[|layers| - 1];
      ScoreIsShares(front, k, id);
      ScoreAppend(Hits(front, k), LayerHits(last, |last.results|, k), id);
      LayerScore(last, k, id);
    }
  }

  /** With duplicate-free layers the score of a fused fragment is the sum of its shares, each the weight of a layer
      divided by one more than the constant and the rank. */
  lemma FusedScoreIs(layers: seq<Layer>, k: nat, merged: seq<Fragment>, i: nat)
    requires Fused(merged, Hits(layers, k)) && i < |merged|
    requires forall l :: 0 <= l < |layers| ==> DuplicateFree(layers[l])
    ensures merged[i].rrfScore == Some(Shares(layers, k, merged[i].id))
  {
    hide Score, Hits, DuplicateFree, FirstIndex, Ids, Ordered;
    ScoreIsShares(layers, k, merged[i].id);
  }

  // The content filter that follows the fusion.

  predicate HasContent(f: Fragment) { f.content.Some? }

  lemma {:induction false} HitsCons(first: Layer, others: seq<Layer>, k: nat)
    ensures Hits([first] + others, k) == LayerHits(first, |first.results|, k) + Hits(others, k)
  {
    hide LayerHits, Hits;
    if others == [] {
      assert [first] + others == [] + [first];
      NothingTallied(k);
      LastLayer([], first, k);
    } else {
      var front, last := others[..|others| - 1], others[|others| - 1];
      assert [first] + others == ([first] + front) + [last] && others == front + [last];
      LastLayer([first] + front, last, k);
      HitsCons(first, front, k);
      LastLayer(front, last, k);
    }
  }

  lemma {:induction false} HitsAreFull(layers: seq<Layer>, k: nat)
    requires forall l, i :: 0 <= l < |layers| && 0 <= i < |layers[l].results| ==>
               layers[l].results[i].Full? && HasContent(layers[l].results[i].fragment)
    ensures forall h :: h in Hits(layers, k) ==> h.item.Full? && HasContent(h.item.fragment)
  {
    if layers != [] {
      HitsAreFull(layers[..|layers| - 1], k);
    }
  }

  /** L1 yields bare ids, every other layer fragments with content. */
  ghost predicate UsualLayers(l1: Layer, others: seq<Layer>)
  {
    && (forall r :: 0 <= r < |l1.results| ==> l1.results[r].Bare?)
    && forall l, r :: 0 <= l < |others| && 0 <= r < |others[l].results| ==>
         others[l].results[r].Full? && HasContent(others[l].results[r].fragment)
  }

  lemma ContentUnlessInL1(l1: Layer, others: seq<Layer>, k: nat, id: string)
    requires UsualLayers(l1, others) && id in Ids(Hits([l1] + others, k))
    ensures HasContent(Scored(Hits([l1] + others, k), id)) <==> id !in LayerIds(l1, k)
  {
    hide Score, Ids, FirstIndex, Hits, LayerHits;
    var first, rest := LayerHits(l1, |l1.results|, k), Hits(others, k);
    HitsCons(l1, others, k);
    HitsAreFull(others, k);
    IdsAppend(first, rest);
    FirstIndexAppend(Ids(first), Ids(rest), id);
    FirstIndexFound(Ids(first), id);
    FirstIndexFound(Ids(first + rest), id);
    var p := FirstIndex(Ids(first + rest), id);
    if p < |first| {
      assert (first + rest)[p] == HitAt(l1, p, k);
    } else {
      assert (first + rest)[p] == rest[p - |first|];
      assert rest[p - |first|] in rest;
    }
  }

  /** Although its comment speaks of fragments only L1 has, the filter drops every id that L1 lists: L1 comes
      first and has no content, and the first payload is kept. */
  lemma ContentFilterDropsWhatL1Lists(l1: Layer, others: seq<Layer>, k: nat, merged: seq<Fragment>, i: nat)
    requires Fused(merged, Hits([l1] + others, k)) && i < |merged| && UsualLayers(l1, others)
    ensures HasContent(merged[i]) <==> merged[i].id !in LayerIds(l1, k)
  {
    hide Score, Ids, FirstIndex, Hits, LayerHits, UsualLayers, LayerIds, Scored, HasContent;
    ContentUnlessInL1(l1, others, k, merged[i].id);
  }
}
