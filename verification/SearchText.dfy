/** A search with a text from end to end: the layers are fused, what has no content is dropped, the reranker may
    reorder, filters apply, and the tail finishes. */
module SearchText {
  import opened Collections
  import opened Ranking
  import opened SearchFusion
  import opened SearchTail

  const RERANKED := 30
  const TOP := 15

  function AtMost(fragments: seq<Fragment>, n: nat): (r: seq<Fragment>)
    ensures r <= fragments && |r| <= n
  {
    if |fragments| <= n then fragments else fragments[..n]
  }

  function RerankKey(f: Fragment): real
  {
    if f.rerankerScore.Some? then f.rerankerScore.value else 0.0
  }

  function Rescored(fragments: seq<Fragment>, scores: Fragment -> real): (r: seq<Fragment>)
    ensures |r| == |fragments|
    ensures forall i :: 0 <= i < |r| ==> r[i] == fragments[i].(rerankerScore := Some(scores(fragments[i])))
  {
    if fragments == [] then []
    else
      var front, last := fragments[..|fragments| - 1], fragments[|fragments| - 1];
      Rescored(front, scores) + [last.(rerankerScore := Some(scores(last)))]
  }

  /** The reranker scores the first fragments and returns the best of them; without scores nothing changes. */
  function Rerank(fragments: seq<Fragment>, scores: Option<Fragment -> real>): seq<Fragment>
  {
    if scores.None? then fragments
    else AtMost(SortDesc(Rescored(AtMost(fragments, RERANKED), scores.value), RerankKey), TOP)
  }

  /** The fragment is an id of the layers with its first payload and whole score, as the reranker leaves it. */
  ghost predicate FromLayers(f: Fragment, hits: seq<Hit>, scores: Option<Fragment -> real>)
  {
    && f.id in Ids(hits)
    && f == AsReranked(Scored(hits, f.id), scores)
    && HasContent(f)
  }

  function AsReranked(f: Fragment, scores: Option<Fragment -> real>): Fragment
  {
    if scores.None? then f else f.(rerankerScore := Some(scores.value(f)))
  }

  lemma FusedIds(merged: seq<Fragment>, hits: seq<Hit>)
    requires Fused(merged, hits)
    ensures DistinctIds(merged)
  {
    hide Fused;
    forall i, j | 0 <= i < j < |merged|
      ensures merged[i].id != merged[j].id
    {
      if merged[i].id == merged[j].id {
        FusedOnce(merged, hits, i, j);
      }
    }
  }

  lemma RerankKeeps(fragments: seq<Fragment>, scores: Option<Fragment -> real>)
    requires DistinctIds(fragments)
    ensures DistinctIds(Rerank(fragments, scores))
    ensures forall f :: f in Rerank(fragments, scores) ==> exists g :: g in fragments && f == AsReranked(g, scores)
  {
    if scores.Some? {
      var scored := Rescored(AtMost(fragments, RERANKED), scores.value);
      assert DistinctIds(scored);
      var sorted := SortDesc(scored, RerankKey);
      SortPermutes(scored, RerankKey);
      hide SortDesc, Rescored;
      ReorderedIds(scored, sorted);
      forall f | f in AtMost(sorted, TOP)
        ensures exists g :: g in fragments && f == AsReranked(g, scores)
      {
        assert f in multiset(sorted);
        var i :| 0 <= i < |scored| && scored[i] == f;
        assert f == AsReranked(fragments[i], scores);
      }
    } else {
      forall f | f in fragments
        ensures exists g :: g in fragments && f == AsReranked(g, scores)
      {
        assert f == AsReranked(f, scores);
      }
    }
  }

  /** The scored fragment is among the returned ones, or these are as many as may be and none scores less. */
  ghost predicate MakesTheCut(f: Fragment, r: seq<Fragment>, score: real)
  {
    f in r || (|r| == 15 && forall i :: 0 <= i < |r| ==> r[i].rerankerScore.Some? && r[i].rerankerScore.value >= score)
  }

  /** A reranker that answers leaves the best fifteen of the first thirty fragments, best first, with its scores. */
  lemma RerankKeepsTheBest(fragments: seq<Fragment>, scores: Fragment -> real)
    ensures var r, n := Rerank(fragments, Some(scores)), if |fragments| < 30 then |fragments| else 30;
      && |r| == (if n < 15 then n else 15)
      && (forall i :: 0 <= i < |r| ==> r[i].rerankerScore.Some?)
      && (forall i, j :: 0 <= i < j < |r| ==> r[i].rerankerScore.value >= r[j].rerankerScore.value)
      && forall p :: 0 <= p < n ==>
           MakesTheCut(fragments[p].(rerankerScore := Some(scores(fragments[p]))), r, scores(fragments[p]))
  {
    hide SortDesc, Rescored, MakesTheCut;
    var pool := AtMost(fragments, RERANKED);
    SortedScores(pool, scores);
    var sorted := SortDesc(Rescored(pool, scores), RerankKey);
    forall p | 0 <= p < |pool|
      ensures MakesTheCut(pool[p].(rerankerScore := Some(scores(pool[p]))), AtMost(sorted, TOP), scores(pool[p]))
    {
      CutKeepsTheBest(sorted, pool[p].(rerankerScore := Some(scores(pool[p]))));
    }
  }

  ghost predicate ByScore(s: seq<Fragment>)
  {
    && (forall i :: 0 <= i < |s| ==> s[i].rerankerScore.Some?)
    && forall i, j :: 0 <= i < j < |s| ==> s[i].rerankerScore.value >= s[j].rerankerScore.value
  }

  lemma SortedScores(pool: seq<Fragment>, scores: Fragment -> real)
    ensures var s := SortDesc(Rescored(pool, scores), RerankKey);
      && |s| == |pool| && ByScore(s)
      && forall p :: 0 <= p < |pool| ==> pool[p].(rerankerScore := Some(scores(pool[p]))) in s
  {
    var scored := Rescored(pool, scores);
    var s := SortDesc(scored, RerankKey);
    SortPermutes(scored, RerankKey);
    SortDescends(scored, RerankKey);
    hide SortDesc;
    assert |multiset(s)| == |multiset(scored)|;
    forall i | 0 <= i < |s|
      ensures s[i].rerankerScore.Some? && RerankKey(s[i]) == s[i].rerankerScore.value
    {
      assert s[i] in multiset(scored);
    }
    hide RerankKey;
    forall p | 0 <= p < |pool|
      ensures scored[p] in s
    {
      assert scored[p] in multiset(s);
    }
  }

  lemma CutKeepsTheBest(s: seq<Fragment>, f: Fragment)
    requires ByScore(s) && f in s && f.rerankerScore.Some?
    ensures MakesTheCut(f, AtMost(s, TOP), f.rerankerScore.value)
  {
    var q :| 0 <= q < |s| && s[q] == f;
    if q < TOP {
      assert AtMost(s, TOP)[q] == f;
    }
  }

  /** Where ids are distinct the tail's duplicate removal only sorts: nothing gets lost. */
  lemma NothingToRemove(r: seq<Fragment>, fragments: seq<Fragment>, score: Fragment -> real)
    requires DistinctIds(fragments) && Deduplicated(r, fragments, score)
    ensures multiset(r) == multiset(fragments)
  {
    DeduplicatedIds(r, fragments, score);
    hide FirstIndex, Ordered, Place;
    forall f
      ensures f in r <==> f in fragments
    {
      SameMembers(r, fragments, score, f);
    }
    hide Deduplicated;
    forall f
      ensures multiset(r)[f] == multiset(fragments)[f]
    {
      Occurrences(r, f);
      Occurrences(fragments, f);
    }
  }

  lemma Occurrences(s: seq<Fragment>, f: Fragment)
    requires DistinctIds(s)
    ensures multiset(s)[f] == if f in s then 1 else 0
  {
    if p :| 0 <= p < |s| && s[p] == f {
      OnceEach(s, p);
    } else {
      assert f !in s;
    }
  }

  lemma SameMembers(r: seq<Fragment>, fragments: seq<Fragment>, score: Fragment -> real, f: Fragment)
    requires DistinctIds(fragments) && Deduplicated(r, fragments, score)
    ensures f in r <==> f in fragments
  {
    hide Ordered, Place, Beats;
    if f in r {
      assert Appearance(f, fragments);
    }
    if p :| 0 <= p < |fragments| && fragments[p] == f {
      assert FragmentIds(fragments)[p] == f.id && f.id in FragmentIds(fragments);
      var i :| 0 <= i < |r| && r[i].id == f.id;
      assert Appearance(r[i], fragments);
      var q: nat :| Kept(fragments, q) && fragments[q] == r[i];
      assert p == q;
    }
  }

  /** What is left of the fused layers when the tail takes over. */
  function Combined(
    merged: seq<Fragment>, scores: Option<Fragment -> real>, keep: Fragment -> bool): seq<Fragment>
  {
    Filter(Rerank(Filter(merged, HasContent), scores), keep)
  }

  /** Nothing else gets lost on the way: what has content, makes the reranker's cut and passes the filters gets to the
      tail, and only that. */
  lemma CombinedIff(merged: seq<Fragment>, scores: Option<Fragment -> real>, keep: Fragment -> bool, f: Fragment)
    ensures f in Combined(merged, scores, keep) <==>
              keep(f) && f in Rerank(Filter(merged, HasContent), scores)
    ensures scores.None? ==> (f in Combined(merged, scores, keep) <==> keep(f) && f.content.Some? && f in merged)
  {
  }

  lemma CombinedFromLayers(
    merged: seq<Fragment>, hits: seq<Hit>, scores: Option<Fragment -> real>, keep: Fragment -> bool)
    requires Fused(merged, hits)
    ensures var combined := Combined(merged, scores, keep);
      && DistinctIds(combined)
      && forall f :: f in combined ==> FromLayers(f, hits, scores) && keep(f)
  {
    hide Rerank, DistinctIds;
    FusedIds(merged, hits);
    FilteredIds(merged, HasContent);
    var full := Filter(merged, HasContent);
    RerankKeeps(full, scores);
    FilteredIds(Rerank(full, scores), keep);
    forall f | f in Combined(merged, scores, keep)
      ensures FromLayers(f, hits, scores)
    {
      var g :| g in full && f == AsReranked(g, scores);
      var i :| 0 <= i < |merged| && merged[i] == g;
      assert merged[i] == Scored(hits, merged[i].id);
      hide Scored;
    }
  }

  /** A returned fragment is an id of the layers with its first payload, without the internal score. */
  ghost predicate Answers(f: Fragment, hits: seq<Hit>, scores: Option<Fragment -> real>)
  {
    exists c :: FromLayers(c, hits, scores) && f == c.(rrfScore := None)
  }

  /** So nothing that L1 lists is ever returned by a search with a text. */
  lemma NothingFromL1(
    l1: Layer, others: seq<Layer>, k: nat, scores: Option<Fragment -> real>, f: Fragment)
    requires UsualLayers(l1, others) && Answers(f, Hits([l1] + others, k), scores)
    ensures f.id !in LayerIds(l1, k)
  {
    hide Scored, Hits, Ids, LayerIds, UsualLayers;
    var c :| FromLayers(c, Hits([l1] + others, k), scores) && f == c.(rrfScore := None);
    ContentUnlessInL1(l1, others, k, c.id);
  }

  lemma KeptAnswers(f: Fragment, combined: seq<Fragment>, hits: seq<Hit>, scores: Option<Fragment -> real>)
    requires FromKept(f, combined) && forall c :: c in combined ==> FromLayers(c, hits, scores)
    ensures Answers(f, hits, scores)
  {
    hide FromLayers;
    var i: nat :| Kept(combined, i) && f == combined[i].(rrfScore := None);
    hide Kept;
    assert FromLayers(combined[i], hits, scores);
  }

  /** The whole search. Each id appears once, with its first payload in the layers; duplicate removal loses
      nothing, so what is missing was filtered, not among the best for the reranker, superseded, or did not fit
      the budget. */
  method Search(
    layers: seq<Layer>, k: nat, scores: Option<Fragment -> real>, keep: Fragment -> bool, requestedBudget: nat,
    includeSuperseded: bool, rank: Fragment -> real, countTokens: string -> nat)
    returns (fragments: seq<Fragment>, totalTokens: nat,
             ghost merged: seq<Fragment>, ghost ranked: seq<Fragment>, ghost cut: nat)
    ensures Fused(merged, Hits(layers, k))
    ensures multiset(ranked) == multiset(Combined(merged, scores, keep))
    ensures DistinctIds(fragments) && forall f :: f in fragments ==> Answers(f, Hits(layers, k), scores)
    ensures cut <= |ranked| && totalTokens == EstimateTokens(ranked[..cut], countTokens)
    ensures EstimateTokens(fragments, countTokens) <= totalTokens <= BudgetOf(requestedBudget)
    ensures forall n :: cut < n <= |ranked| ==> EstimateTokens(ranked[..n], countTokens) > BudgetOf(requestedBudget)
    ensures fragments == if includeSuperseded then Cleaned(ranked[..cut]) else Filter(Cleaned(ranked[..cut]), Live)
  {
    hide *;
    var fused := MergeRRF(layers, k);
    merged := fused;
    var combined := Combined(fused, scores, keep);
    CombinedFromLayers(fused, Hits(layers, k), scores, keep);
    ghost var unique;
    fragments, totalTokens, ranked, unique, cut :=
      Finish(combined, requestedBudget, includeSuperseded, rank, countTokens);
    RankedReorders(ranked, unique, combined, rank);
    NothingToRemove(unique, combined, ScoreWith(rank));
    forall f | f in fragments
      ensures Answers(f, Hits(layers, k), scores)
    {
      KeptAnswers(f, combined, Hits(layers, k), scores);
    }
  }

  lemma RankedReorders(
    ranked: seq<Fragment>, unique: seq<Fragment>, combined: seq<Fragment>, rank: Fragment -> real)
    requires Ranked(ranked, unique, combined, rank)
    ensures Deduplicated(unique, combined, ScoreWith(rank)) && multiset(ranked) == multiset(unique)
  {
    hide Deduplicated;
    if unique != [] && unique[0].rerankerScore.Some? {
      DiversifiedReorders(ranked, unique, BALANCE);
    }
  }

  lemma DiversifiedReorders(r: seq<Fragment>, fragments: seq<Fragment>, balance: real)
    requires Diversified(r, fragments, balance)
    ensures multiset(r) == multiset(fragments)
  {
    hide Greedy, Numbers;
    var withEmb, noEmb := Filter(fragments, HasSimilarity), Filter(fragments, NoSimilarity);
    SplitBySimilarity(fragments);
    hide Filter;
    if |withEmb| > 1 {
      assert r == r[..|withEmb|] + r[|withEmb|..];
    }
  }
}
