/** What happens to the merged results before they are returned: duplicates are merged, the rest is ranked,
    diversified, cut to the token budget and stripped of superseded fragments. */
module SearchTail {
  import opened Collections
  import opened Ranking
  import opened SearchFusion

  // Merging duplicates.

  /** A similarity that is present and not zero; the search treats zero as missing. */
  predicate HasTruthySimilarity(f: Fragment)
  {
    f.similarity.Some? && f.similarity.value != 0.0
  }

  predicate Beats(f: Fragment, g: Fragment)
  {
    HasTruthySimilarity(f) && (!HasTruthySimilarity(g) || f.similarity.value > g.similarity.value)
  }

  function FragmentIds(fragments: seq<Fragment>): (r: seq<string>)
    ensures |r| == |fragments| && forall i :: 0 <= i < |r| ==> r[i] == fragments[i].id
  {
    if fragments == [] then [] else FragmentIds(fragments[..|fragments| - 1]) + [fragments[|fragments| - 1].id]
  }

  /** The copy at `i` is the one that is kept for its id: no copy beats it, and it beats all earlier copies. */
  ghost predicate Kept(fragments: seq<Fragment>, i: nat)
  {
    && i < |fragments|
    && (forall j :: 0 <= j < |fragments| && fragments[j].id == fragments[i].id ==> !Beats(fragments[j], fragments[i]))
    && forall j :: 0 <= j < i && fragments[j].id == fragments[i].id ==> Beats(fragments[i], fragments[j])
  }

  ghost predicate Appearance(f: Fragment, fragments: seq<Fragment>)
  {
    exists i: nat :: Kept(fragments, i) && fragments[i] == f
  }

  ghost function Place(fragments: seq<Fragment>): Fragment -> int
  {
    (f: Fragment) => FirstIndex(FragmentIds(fragments), f.id)
  }

  /** What `Deduplicate` promises: the kept copy of every id, by descending score, ties by first appearance. */
  ghost predicate Deduplicated(r: seq<Fragment>, fragments: seq<Fragment>, score: Fragment -> real)
  {
    && (forall i :: 0 <= i < |r| ==> Appearance(r[i], fragments))
    && (forall id :: id in FragmentIds(fragments) ==> exists i :: 0 <= i < |r| && r[i].id == id)
    && Ordered(r, score, Place(fragments))
  }

  /** The map from ids to kept copies after the results seen so far. */
  ghost predicate Seen(seen: map<string, Fragment>, order: seq<string>, fragments: seq<Fragment>)
  {
    && order == Order(FragmentIds(fragments))
    && (forall id :: id in seen <==> id in FragmentIds(fragments))
    && forall id :: id in seen ==> seen[id].id == id && Appearance(seen[id], fragments)
  }

  lemma StillKept(fragments: seq<Fragment>, f: Fragment, kept: Fragment)
    requires Appearance(kept, fragments) && (f.id == kept.id ==> !Beats(f, kept))
    ensures Appearance(kept, fragments + [f])
  {
    hide Beats;
    var i: nat :| Kept(fragments, i) && fragments[i] == kept;
    assert (fragments + [f])[i] == kept;
    assert Kept(fragments + [f], i);
  }

  /** A first copy, or one that beats the kept one, is the one to keep. */
  lemma NewKept(fragments: seq<Fragment>, f: Fragment)
    requires f.id in FragmentIds(fragments) ==>
               exists kept: Fragment :: kept.id == f.id && Appearance(kept, fragments) && Beats(f, kept)
    ensures Appearance(f, fragments + [f])
  {
    forall j | 0 <= j < |fragments| && fragments[j].id == f.id
      ensures Beats(f, fragments[j])
    {
      assert FragmentIds(fragments)[j] == f.id;
      hide FragmentIds;
      var kept: Fragment :| kept.id == f.id && Appearance(kept, fragments) && Beats(f, kept);
      var i: nat :| Kept(fragments, i) && fragments[i] == kept;
      assert !Beats(fragments[j], kept);
    }
    hide Appearance, FragmentIds;
    assert Kept(fragments + [f], |fragments|);
    AppearsAt(fragments + [f], |fragments|);
  }

  lemma AppearsAt(fragments: seq<Fragment>, i: nat)
    requires Kept(fragments, i)
    ensures Appearance(fragments[i], fragments)
  {
  }

  lemma SeenNext(seen: map<string, Fragment>, order: seq<string>, fragments: seq<Fragment>, f: Fragment)
    requires Seen(seen, order, fragments)
    ensures Seen(if f.id !in seen || Beats(f, seen[f.id]) then seen[f.id := f] else seen,
                 if f.id !in seen then order + [f.id] else order, fragments + [f])
  {
    hide Appearance, Beats, Order, FragmentIds;
    var ids := FragmentIds(fragments);
    IdsOfSnoc(fragments, f);
    OrderSnoc(ids, f.id);
    assert forall x :: x in ids + [f.id] <==> x in ids || x == f.id;
    forall id | id in seen && (id == f.id ==> !Beats(f, seen[id]))
      ensures Appearance(seen[id], fragments + [f])
    {
      StillKept(fragments, f, seen[id]);
    }
    if f.id !in seen || Beats(f, seen[f.id]) {
      NewKept(fragments, f);
    }
  }

  lemma IdsOfSnoc(fragments: seq<Fragment>, f: Fragment)
    ensures FragmentIds(fragments + [f]) == FragmentIds(fragments) + [f.id]
  {
  }

  lemma NothingSeen()
    ensures Seen(map[], [], [])
  {
  }

  method Deduplicate(fragments: seq<Fragment>, score: Fragment -> real) returns (r: seq<Fragment>)
    ensures Deduplicated(r, fragments, score)
  {
    hide Seen, Deduplicated;
    var seen: map<string, Fragment>, order: seq<string> := map[], [];
    NothingSeen();
    assert fragments[..0] == [];
    for i := 0 to |fragments|
      invariant Seen(seen, order, fragments[..i])
    {
      var f := fragments[i];
      SeenNext(seen, order, fragments[..i], f);
      assert fragments[..i + 1] == fragments[..i] + [f];
      if f.id !in seen {
        seen := seen[f.id := f];
        order := order + [f.id];
      } else {
        var existing := seen[f.id];
        if HasTruthySimilarity(f)
           && (!HasTruthySimilarity(existing) || f.similarity.value > existing.similarity.value) {
          seen := seen[f.id := f];
        }
      }
    }
    assert fragments[..|fragments|] == fragments;
    SortedIsDeduplicated(seen, order, fragments, score);
    r := SortDesc(Values(seen, order), score);
  }

  lemma SeenValues(seen: map<string, Fragment>, order: seq<string>, fragments: seq<Fragment>)
    requires Seen(seen, order, fragments)
    ensures forall id :: id in order <==> id in FragmentIds(fragments)
    ensures forall i :: 0 <= i < |order| ==> order[i] in seen
    ensures forall i :: 0 <= i < |order| ==>
              Values(seen, order)[i].id == order[i] && Appearance(Values(seen, order)[i], fragments)
    ensures forall i, j :: 0 <= i < j < |order| ==>
              FirstIndex(FragmentIds(fragments), order[i]) < FirstIndex(FragmentIds(fragments), order[j])
  {
    OrderByFirstAppearance(FragmentIds(fragments));
    hide Order, FragmentIds, FirstIndex, Appearance;
    assert forall i :: 0 <= i < |order| ==> order[i] in order;
  }

  lemma SeenOrdered(
    seen: map<string, Fragment>, order: seq<string>, fragments: seq<Fragment>, score: Fragment -> real)
    requires Seen(seen, order, fragments)
    ensures forall id :: id in order ==> id in seen
    ensures Ordered(SortDesc(Values(seen, order), score), score, Place(fragments))
  {
    SeenValues(seen, order, fragments);
    var vals := Values(seen, order);
    hide Seen, FragmentIds, Values, FirstIndex, Ordered, SortDesc, Appearance;
    assert forall i :: 0 <= i < |vals| ==> Place(fragments)(vals[i]) == FirstIndex(FragmentIds(fragments), order[i]);
    SortIsStable(vals, score, Place(fragments));
  }

  lemma SortedIsDeduplicated(
    seen: map<string, Fragment>, order: seq<string>, fragments: seq<Fragment>, score: Fragment -> real)
    requires Seen(seen, order, fragments)
    ensures forall id :: id in order ==> id in seen
    ensures Deduplicated(SortDesc(Values(seen, order), score), fragments, score)
  {
    hide SortDesc, Values, Seen, FragmentIds, FirstIndex, Appearance, Ordered, Place;
    SeenValues(seen, order, fragments);
    SeenOrdered(seen, order, fragments, score);
    var vals := Values(seen, order);
    var r := SortDesc(vals, score);
    SortPermutes(vals, score);
    forall i | 0 <= i < |r|
      ensures Appearance(r[i], fragments)
    {
      var j := FoundIn(r, vals, i);
    }
    forall id | id in FragmentIds(fragments)
      ensures exists i :: 0 <= i < |r| && r[i].id == id
    {
      assert id in order;
      var j :| 0 <= j < |order| && order[j] == id;
      var i := FoundIn(vals, r, j);
      assert r[i].id == id;
    }
  }

  /** The numerically highest similarity, a missing one counting as lowest, is what one would expect to be kept. */
  ghost predicate HighestSimilarity(fragments: seq<Fragment>, i: nat)
    requires i < |fragments|
  {
    forall j :: 0 <= j < |fragments| && fragments[j].id == fragments[i].id && fragments[j].similarity.Some? ==>
      fragments[i].similarity.Some? && fragments[j].similarity.value <= fragments[i].similarity.value
  }

  predicate Positive(f: Fragment) { f.similarity.Some? && f.similarity.value > 0.0 }

  predicate Zero(f: Fragment) { f.similarity == Some(0.0) }

  ghost predicate SomeCopy(fragments: seq<Fragment>, id: string, p: Fragment -> bool)
  {
    exists j :: 0 <= j < |fragments| && fragments[j].id == id && p(fragments[j])
  }

  /** The kept copy has the highest similarity except when a similarity of exactly zero, which counts as
      missing, competes with negative or missing ones only and does not come first among missing ones. */
  lemma KeptIsHighestIff(fragments: seq<Fragment>, i: nat)
    requires Kept(fragments, i)
    ensures var id := fragments[i].id; var first := FirstIndex(FragmentIds(fragments), id);
      && first < |fragments|
      && (HighestSimilarity(fragments, i) <==>
          || !SomeCopy(fragments, id, Zero)
          || SomeCopy(fragments, id, Positive)
          || (!SomeCopy(fragments, id, HasTruthySimilarity) && Zero(fragments[first])))
  {
    hide Beats, SomeCopy, HighestSimilarity;
    var id := fragments[i].id;
    assert FragmentIds(fragments)[i] == id;
    FirstIndexFound(FragmentIds(fragments), id);
    var first := FirstIndex(FragmentIds(fragments), id);
    hide FragmentIds, FirstIndex;
    assert fragments[first].id == FragmentIds(fragments)[first];
    assert first <= i;
    if SomeCopy(fragments, id, HasTruthySimilarity) {
      KeptIsTruthy(fragments, i);
    } else {
      KeptIsFirst(fragments, i, first);
    }
  }

  /** Delivered similarities are positive: the semantic layer has a positive threshold and the other layers send
      none. Then the kept copy is the highest one. */
  lemma PositiveKeepsTheHighest(fragments: seq<Fragment>, i: nat)
    requires Kept(fragments, i) && AllPositive(fragments)
    ensures HighestSimilarity(fragments, i)
  {
    hide HighestSimilarity;
    KeptIsHighestIff(fragments, i);
  }

  ghost predicate AllPositive(fragments: seq<Fragment>)
  {
    forall i :: 0 <= i < |fragments| && fragments[i].similarity.Some? ==> fragments[i].similarity.value > 0.0
  }

  lemma KeptIsTruthy(fragments: seq<Fragment>, i: nat)
    requires Kept(fragments, i) && SomeCopy(fragments, fragments[i].id, HasTruthySimilarity)
    ensures var id := fragments[i].id;
      HighestSimilarity(fragments, i) <==> !SomeCopy(fragments, id, Zero) || SomeCopy(fragments, id, Positive)
  {
  }

  lemma KeptIsFirst(fragments: seq<Fragment>, i: nat, first: nat)
    requires Kept(fragments, i) && !SomeCopy(fragments, fragments[i].id, HasTruthySimilarity)
    requires first <= i && fragments[first].id == fragments[i].id
    ensures first == i && !SomeCopy(fragments, fragments[i].id, Positive)
    ensures HighestSimilarity(fragments, i) <==> !SomeCopy(fragments, fragments[i].id, Zero) || Zero(fragments[first])
  {
  }

  // Diversification.

  function Overlap(a: Fragment, b: Fragment): real
  {
    if a.keywords == [] || b.keywords == [] then 0.0
    else
      var larger := if |a.keywords| > |b.keywords| then |a.keywords| else |b.keywords|;
      CountIn(b.keywords, a.keywords) as real / larger as real
  }

  function CountIn(keywords: seq<string>, among: seq<string>): nat
  {
    if keywords == [] then 0
    else CountIn(keywords[..|keywords| - 1], among) + if keywords[|keywords| - 1] in among then 1 else 0
  }

  function MaxOverlap(f: Fragment, selected: seq<Fragment>): real
  {
    if selected == [] then 0.0
    else
      var max, last := MaxOverlap(f, selected[..|selected| - 1]), Overlap(f, selected[|selected| - 1]);
      if last > max then last else max
  }

  function Relevance(f: Fragment): real
  {
    if f.rerankerScore.Some? && f.rerankerScore.value != 0.0 then f.rerankerScore.value else RrfKey(f)
  }

  function MmrScore(f: Fragment, selected: seq<Fragment>, balance: real): real
  {
    balance * Relevance(f) - (1.0 - balance) * MaxOverlap(f, selected)
  }

  // What relevance and overlap are.

  lemma RelevanceIs(f: Fragment)
    ensures f.rerankerScore.Some? && f.rerankerScore.value != 0.0 ==> f.rerankerScore == Some(Relevance(f))
    ensures (f.rerankerScore.None? || f.rerankerScore == Some(0.0)) && f.rrfScore.Some? ==>
              f.rrfScore == Some(Relevance(f))
    ensures (f.rerankerScore.None? || f.rerankerScore == Some(0.0)) && f.rrfScore.None? ==> Relevance(f) == 0.0
  {
  }

  /** The largest overlap is that with one of the selected fragments, or zero if there is none. */
  lemma {:induction false} MaxOverlapIs(f: Fragment, selected: seq<Fragment>)
    ensures forall i :: 0 <= i < |selected| ==> Overlap(f, selected[i]) <= MaxOverlap(f, selected)
    ensures if selected == [] then MaxOverlap(f, selected) == 0.0
            else exists i :: 0 <= i < |selected| && Overlap(f, selected[i]) == MaxOverlap(f, selected)
  {
    if selected != [] {
      var front, last := selected[..|selected| - 1], selected[|selected| - 1];
      MaxOverlapIs(f, front);
      OverlapBounds(f, last);
      hide Overlap;
      if MaxOverlap(f, selected) > Overlap(f, last) && front != [] {
        var i :| 0 <= i < |front| && Overlap(f, front[i]) == MaxOverlap(f, front);
        assert Overlap(f, selected[i]) == MaxOverlap(f, selected);
      } else {
        assert Overlap(f, selected[|selected| - 1]) == MaxOverlap(f, selected);
      }
    }
  }

  lemma {:induction false} CountInBounds(keywords: seq<string>, among: seq<string>)
    ensures CountIn(keywords, among) <= |keywords|
    ensures CountIn(keywords, among) == 0 <==> forall i :: 0 <= i < |keywords| ==> keywords[i] !in among
    ensures CountIn(keywords, among) == |keywords| <==> forall i :: 0 <= i < |keywords| ==> keywords[i] in among
  {
    if keywords != [] {
      CountInBounds(keywords[..|keywords| - 1], among);
    }
  }

  lemma QuotientBounds(n: nat, d: nat)
    requires n <= d && 0 < d
    ensures 0.0 <= n as real / d as real <= 1.0
    ensures n as real / d as real == 0.0 <==> n == 0
    ensures n as real / d as real == 1.0 <==> n == d
  {
    var q := n as real / d as real;
    assert q * d as real == n as real;
  }

  /** An overlap is between zero and one, zero exactly without a common keyword, and one exactly if all keywords of
      `b`, which are not fewer, are among those of `a`. */
  lemma OverlapBounds(a: Fragment, b: Fragment)
    ensures 0.0 <= Overlap(a, b) <= 1.0
    ensures Overlap(a, b) == 0.0 <==> forall i :: 0 <= i < |b.keywords| ==> b.keywords[i] !in a.keywords
    ensures Overlap(a, b) == 1.0 <==>
              && b.keywords != [] && |a.keywords| <= |b.keywords|
              && forall i :: 0 <= i < |b.keywords| ==> b.keywords[i] in a.keywords
  {
    CountInBounds(b.keywords, a.keywords);
    hide CountIn;
    if a.keywords != [] && b.keywords != [] {
      var larger := if |a.keywords| > |b.keywords| then |a.keywords| else |b.keywords|;
      QuotientBounds(CountIn(b.keywords, a.keywords), larger);
    }
  }

  /** Without repeated keywords the overlap is the share of the common ones among the larger number of keywords, and
      it does not matter which fragment comes first. */
  lemma OverlapIsShare(a: Fragment, b: Fragment)
    requires Distinct(a.keywords) && Distinct(b.keywords) && a.keywords != [] && b.keywords != []
    ensures var larger := if |a.keywords| > |b.keywords| then |a.keywords| else |b.keywords|;
      Overlap(a, b) == Overlap(b, a) == |Common(a.keywords, b.keywords)| as real / larger as real
  {
    CountsCommon(b.keywords, a.keywords);
    CountsCommon(a.keywords, b.keywords);
    assert Common(a.keywords, b.keywords) == Common(b.keywords, a.keywords);
    hide CountIn;
  }

  function Common(a: seq<string>, b: seq<string>): set<string>
  {
    set k | k in a && k in b
  }

  lemma {:induction false} CountsCommon(keywords: seq<string>, among: seq<string>)
    requires Distinct(keywords)
    ensures CountIn(keywords, among) == |Common(keywords, among)|
  {
    hide Common, Distinct;
    if keywords == [] {
      assert Common(keywords, among) == {} by { NothingCommon(among); }
    } else {
      var front, last := keywords[..|keywords| - 1], keywords[|keywords| - 1];
      assert front + [last] == keywords;
      DistinctFront(front, last);
      CountsCommon(front, among);
      CommonSnoc(front, last, among);
    }
  }

  lemma NothingCommon(among: seq<string>)
    ensures Common([], among) == {}
  {
  }

  lemma CommonSnoc(front: seq<string>, last: string, among: seq<string>)
    ensures Common(front + [last], among) == Common(front, among) + if last in among then {last} else {}
    ensures last !in front ==> last !in Common(front, among)
  {
    assert forall k :: k in front + [last] <==> k in front || k == last;
  }

  predicate HasSimilarity(f: Fragment) { f.similarity.Some? }

  predicate NoSimilarity(f: Fragment) { f.similarity.None? }

  /** A numbering that never decreases along `s`. */
  ghost predicate Numbers(place: Fragment -> int, s: seq<Fragment>)
  {
    forall i, j :: 0 <= i < j < |s| ==> place(s[i]) <= place(s[j])
  }

  /** What `f` gains in relevance over `g` outweighs what it overlaps more with the selected ones. */
  predicate Outweighs(f: Fragment, g: Fragment, selected: seq<Fragment>, balance: real)
  {
    balance * (Relevance(f) - Relevance(g)) >= (1.0 - balance) * (MaxOverlap(f, selected) - MaxOverlap(g, selected))
  }

  lemma ScoresCompare(f: Fragment, g: Fragment, selected: seq<Fragment>, balance: real)
    ensures MmrScore(f, selected, balance) >= MmrScore(g, selected, balance) <==> Outweighs(f, g, selected, balance)
  {
    hide Relevance, MaxOverlap;
    Distributes(balance, Relevance(f), Relevance(g));
    Distributes(1.0 - balance, MaxOverlap(f, selected), MaxOverlap(g, selected));
  }

  lemma Distributes(x: real, a: real, b: real)
    ensures x * (a - b) == x * a - x * b
  {
  }

  /** Against what is selected, `f` outweighs `g`, and if each outweighs the other it does not stand behind it. */
  predicate Preferred(f: Fragment, g: Fragment, selected: seq<Fragment>, balance: real, place: Fragment -> int)
  {
    Outweighs(f, g, selected, balance) && (Outweighs(g, f, selected, balance) ==> place(f) <= place(g))
  }

  /** Each next selection is preferred, against what was selected before it, to those that come after. */
  ghost predicate Greedy(selected: seq<Fragment>, remaining: seq<Fragment>, balance: real, place: Fragment -> int)
  {
    forall i: nat :: 1 <= i < |selected| ==>
      forall f :: f in selected[i..] + remaining ==> Preferred(selected[i], f, selected[..i], balance, place)
  }

  /** What `ApplyMMR` promises: a reordering that takes the best-ranked fragment with a similarity first, then
      greedily the most relevant and least redundant one, ties in their order, and leaves the others last in
      their order. */
  ghost predicate Diversified(r: seq<Fragment>, fragments: seq<Fragment>, balance: real)
  {
    var withEmb, noEmb := Filter(fragments, HasSimilarity), Filter(fragments, NoSimilarity);
    if |withEmb| <= 1 then r == fragments
    else
      var n := |withEmb|;
      && |r| == |fragments|
      && multiset(r[..n]) == multiset(withEmb) && r[n..] == noEmb
      && r[0] == withEmb[0]
      && forall place: Fragment -> int :: Numbers(place, withEmb) ==> Greedy(r[..n], [], balance, place)
  }

  /** The fragment at `best` outweighs all others, and no earlier one outweighs it. */
  ghost predicate IsBest(remaining: seq<Fragment>, best: nat, selected: seq<Fragment>, balance: real)
  {
    && best < |remaining|
    && (forall i :: 0 <= i < |remaining| ==> Outweighs(remaining[best], remaining[i], selected, balance))
    && forall i :: 0 <= i < best ==> !Outweighs(remaining[i], remaining[best], selected, balance)
  }

  method BestIndex(remaining: seq<Fragment>, selected: seq<Fragment>, balance: real) returns (best: nat)
    requires remaining != []
    ensures best < |remaining|
    ensures IsBest(remaining, best, selected, balance)
  {
    hide MmrScore, Outweighs;
    best := 0;
    var bestScore := MmrScore(remaining[0], selected, balance);
    for i := 1 to |remaining|
      invariant best < i && bestScore == MmrScore(remaining[best], selected, balance)
      invariant forall j :: 0 <= j < i ==> bestScore >= MmrScore(remaining[j], selected, balance)
      invariant forall j :: 0 <= j < best ==> bestScore > MmrScore(remaining[j], selected, balance)
    {
      var mmrScore := MmrScore(remaining[i], selected, balance);
      if mmrScore > bestScore {
        best, bestScore := i, mmrScore;
      }
    }
    forall i | 0 <= i < |remaining|
      ensures Outweighs(remaining[best], remaining[i], selected, balance)
      ensures i < best ==> !Outweighs(remaining[i], remaining[best], selected, balance)
    {
      ScoresCompare(remaining[best], remaining[i], selected, balance);
      ScoresCompare(remaining[i], remaining[best], selected, balance);
    }
  }

  lemma BestIsPreferred(selected: seq<Fragment>, remaining: seq<Fragment>, best: nat, balance: real,
                        place: Fragment -> int, f: Fragment)
    requires IsBest(remaining, best, selected, balance) && f in remaining && Numbers(place, remaining)
    ensures Preferred(remaining[best], f, selected, balance, place)
  {
    hide Outweighs;
  }

  lemma GreedyNext(selected: seq<Fragment>, remaining: seq<Fragment>, best: nat, balance: real, place: Fragment -> int)
    requires Greedy(selected, remaining, balance, place) && selected != []
    requires IsBest(remaining, best, selected, balance) && Numbers(place, remaining)
    ensures Greedy(selected + [remaining[best]], remaining[..best] + remaining[best + 1..], balance, place)
    ensures Numbers(place, remaining[..best] + remaining[best + 1..])
  {
    var s', r' := selected + [remaining[best]], remaining[..best] + remaining[best + 1..];
    hide Outweighs, Preferred;
    forall i: nat, f | 1 <= i < |s'| && f in s'[i..] + r'
      ensures Preferred(s'[i], f, s'[..i], balance, place)
    {
      if i < |selected| {
        assert s'[..i] == selected[..i] && s'[i] == selected[i];
        assert f in selected[i..] + remaining;
      } else {
        assert s'[..i] == selected && s'[i..] == [remaining[best]];
        assert f in remaining;
        BestIsPreferred(selected, remaining, best, balance, place, f);
      }
    }
  }

  lemma MoveOne(selected: seq<Fragment>, remaining: seq<Fragment>, best: nat)
    requires best < |remaining|
    ensures multiset(selected + [remaining[best]]) + multiset(remaining[..best] + remaining[best + 1..])
            == multiset(selected) + multiset(remaining)
  {
    assert remaining == remaining[..best] + [remaining[best]] + remaining[best + 1..];
  }

  method ApplyMMR(fragments: seq<Fragment>, balance: real) returns (r: seq<Fragment>)
    ensures Diversified(r, fragments, balance)
    ensures multiset(r) == multiset(fragments)
  {
    hide Outweighs, Filter;
    var withEmb, noEmb := Filter(fragments, HasSimilarity), Filter(fragments, NoSimilarity);
    if |withEmb| <= 1 {
      return fragments;
    }
    var selected, remaining := [withEmb[0]], withEmb[1..];
    assert withEmb == selected + remaining;
    while |remaining| > 0
      invariant selected != [] && selected[0] == withEmb[0]
      invariant multiset(selected) + multiset(remaining) == multiset(withEmb)
      invariant forall place: Fragment -> int :: Numbers(place, withEmb) ==>
                  Greedy(selected, remaining, balance, place) && Numbers(place, remaining)
      decreases |remaining|
    {
      var best := BestIndex(remaining, selected, balance);
      forall place: Fragment -> int | Numbers(place, withEmb)
        ensures Greedy(selected + [remaining[best]], remaining[..best] + remaining[best + 1..], balance, place)
        ensures Numbers(place, remaining[..best] + remaining[best + 1..])
      {
        GreedyNext(selected, remaining, best, balance, place);
      }
      MoveOne(selected, remaining, best);
      selected, remaining := selected + [remaining[best]], remaining[..best] + remaining[best + 1..];
    }
    SplitBySimilarity(fragments);
    r := selected + noEmb;
    assert |multiset(selected)| == |multiset(withEmb)|;
    assert r[..|selected|] == selected && r[|selected|..] == noEmb;
  }

  // What the diversified order says.

  /** The numbering tells the two fragments apart. */
  ghost predicate Tells(place: Fragment -> int, f: Fragment, g: Fragment) { place(f) != place(g) }

  /** Behind the first selection, one of two fragments goes before the other exactly if, when the first of them is
      selected, its gain in relevance outweighs its extra overlap with what is selected by then; if both outweigh
      each other, the one that stood first goes first. */
  lemma GoesFirstIff(r: seq<Fragment>, fragments: seq<Fragment>, balance: real, place: Fragment -> int, i: nat, j: nat)
    requires Diversified(r, fragments, balance) && Numbers(place, Filter(fragments, HasSimilarity))
    requires 1 <= i < |Filter(fragments, HasSimilarity)| && 1 <= j < |Filter(fragments, HasSimilarity)|
    requires i < |r| && j < |r| && Tells(place, r[i], r[j])
    ensures var selected := r[..if i < j then i else j];
      i < j <==> Outweighs(r[i], r[j], selected, balance)
                 && (Outweighs(r[j], r[i], selected, balance) ==> place(r[i]) < place(r[j]))
  {
    hide Outweighs, Filter, Numbers;
    if i < j {
      SelectedIsPreferred(r, fragments, balance, place, i, j);
    } else if j < i {
      SelectedIsPreferred(r, fragments, balance, place, j, i);
    }
  }

  lemma SelectedIsPreferred(
    r: seq<Fragment>, fragments: seq<Fragment>, balance: real, place: Fragment -> int, i: nat, j: nat)
    requires Diversified(r, fragments, balance) && Numbers(place, Filter(fragments, HasSimilarity))
    requires 1 <= i < j < |Filter(fragments, HasSimilarity)|
    ensures j < |r| && Preferred(r[i], r[j], r[..i], balance, place)
  {
    hide Preferred, Filter, Numbers;
    var n := |Filter(fragments, HasSimilarity)|;
    var s := r[..n];
    assert Greedy(s, [], balance, place);
    assert s[i..][j - i] == s[j] == r[j] && s[..i] == r[..i];
    assert s[j] in s[i..] + [];
  }

  /** Of two equally relevant fragments the one with the smaller overlap is selected first, and of two equally
      redundant ones the more relevant one. */
  lemma LeastRedundantFirst(r: seq<Fragment>, fragments: seq<Fragment>, balance: real, i: nat, j: nat)
    requires Diversified(r, fragments, balance) && 0.0 < balance < 1.0
    requires 1 <= i < j < |Filter(fragments, HasSimilarity)|
    ensures j < |r|
    ensures Relevance(r[i]) == Relevance(r[j]) ==> MaxOverlap(r[i], r[..i]) <= MaxOverlap(r[j], r[..i])
    ensures MaxOverlap(r[i], r[..i]) == MaxOverlap(r[j], r[..i]) ==> Relevance(r[i]) >= Relevance(r[j])
  {
    hide Diversified, Filter, Relevance, MaxOverlap;
    SelectedIsPreferred(r, fragments, balance, (f: Fragment) => 0, i, j);
    SignOfProduct(balance, Relevance(r[i]) - Relevance(r[j]));
    SignOfProduct(1.0 - balance, MaxOverlap(r[i], r[..i]) - MaxOverlap(r[j], r[..i]));
  }

  lemma SignOfProduct(x: real, y: real)
    requires x > 0.0
    ensures x * y >= 0.0 <==> y >= 0.0
    ensures x * y <= 0.0 <==> y <= 0.0
  {
  }

  lemma MultisetSnoc(a: seq<Fragment>, b: seq<Fragment>, front: seq<Fragment>, last: Fragment)
    requires multiset(a) + multiset(b) == multiset(front)
    ensures multiset(a + [last]) + multiset(b) == multiset(front + [last])
    ensures multiset(a) + multiset(b + [last]) == multiset(front + [last])
  {
  }

  lemma FilterSnoc(front: seq<Fragment>, last: Fragment, p: Fragment -> bool)
    ensures Filter(front + [last], p) == if p(last) then Filter(front, p) + [last] else Filter(front, p)
  {
  }

  lemma {:induction false} SplitBySimilarity(fragments: seq<Fragment>)
    ensures multiset(Filter(fragments, HasSimilarity)) + multiset(Filter(fragments, NoSimilarity))
            == multiset(fragments)
    ensures |Filter(fragments, HasSimilarity)| + |Filter(fragments, NoSimilarity)| == |fragments|
  {
    if fragments != [] {
      var front, last := fragments[..|fragments| - 1], fragments[|fragments| - 1];
      hide Filter;
      SplitBySimilarity(front);
      assert fragments == front + [last];
      FilterSnoc(front, last, HasSimilarity);
      FilterSnoc(front, last, NoSimilarity);
      MultisetSnoc(Filter(front, HasSimilarity), Filter(front, NoSimilarity), front, last);
    }
  }

  // The token budget.

  function Cost(f: Fragment, countTokens: string -> nat): nat
  {
    if f.estimatedTokens != 0 then f.estimatedTokens
    else countTokens(if f.content.Some? then f.content.value else "")
  }

  function EstimateTokens(fragments: seq<Fragment>, countTokens: string -> nat): nat
  {
    if fragments == [] then 0
    else EstimateTokens(fragments[..|fragments| - 1], countTokens) + Cost(fragments[|fragments| - 1], countTokens)
  }

  /** Returns the longest prefix that the budget pays for. */
  method TrimToTokenBudget(fragments: seq<Fragment>, budget: nat, countTokens: string -> nat) returns (r: seq<Fragment>)
    ensures r <= fragments && EstimateTokens(r, countTokens) <= budget
    ensures forall n :: |r| < n <= |fragments| ==> EstimateTokens(fragments[..n], countTokens) > budget
  {
    r := [];
    var used := 0;
    for i := 0 to |fragments|
      invariant r == fragments[..i] && used == EstimateTokens(r, countTokens) <= budget
    {
      assert fragments[..i + 1][..i] == fragments[..i];
      var cost := Cost(fragments[i], countTokens);
      if used + cost > budget {
        forall n | i < n <= |fragments|
          ensures EstimateTokens(fragments[..n], countTokens) > budget
        {
          MoreCostsMore(fragments, i + 1, n, countTokens);
        }
        return;
      }
      used := used + cost;
      r := r + [fragments[i]];
    }
  }

  lemma {:induction false} MoreCostsMore(fragments: seq<Fragment>, m: nat, n: nat, countTokens: string -> nat)
    requires m <= n <= |fragments|
    ensures EstimateTokens(fragments[..m], countTokens) <= EstimateTokens(fragments[..n], countTokens)
  {
    if m < n {
      assert fragments[..n][..n - 1] == fragments[..n - 1];
      MoreCostsMore(fragments, m, n - 1, countTokens);
    }
  }

  // The tail of a search.

  function ScoreOf(f: Fragment, rank: Fragment -> real): real
  {
    if f.rerankerScore.Some? then f.rerankerScore.value else rank(f)
  }

  function Cleaned(fragments: seq<Fragment>): (r: seq<Fragment>)
    ensures |r| == |fragments| && forall i :: 0 <= i < |r| ==> r[i] == fragments[i].(rrfScore := None)
  {
    if fragments == [] then []
    else Cleaned(fragments[..|fragments| - 1]) + [fragments[|fragments| - 1].(rrfScore := None)]
  }

  predicate Live(f: Fragment) { !f.superseded }

  const DEFAULT_BUDGET := 1000
  const BALANCE := 0.7

  function BudgetOf(requested: nat): (b: nat)
    ensures b > 0
  {
    if requested == 0 then DEFAULT_BUDGET else requested
  }

  lemma BudgetIs(requested: nat)
    ensures BudgetOf(requested) == if requested > 0 then requested else 1000
  {
  }

  function ScoreWith(rank: Fragment -> real): Fragment -> real
  {
    (f: Fragment) => ScoreOf(f, rank)
  }

  function Id(f: Fragment): string { f.id }

  ghost predicate DistinctIds(fragments: seq<Fragment>)
  {
    DistinctBy(fragments, Id)
  }

  /** A returned fragment is the kept copy of its id, without the internal score. */
  ghost predicate FromKept(f: Fragment, combined: seq<Fragment>)
  {
    exists i: nat :: Kept(combined, i) && f == combined[i].(rrfScore := None)
  }

  /** A returned fragment is the copy with the highest similarity of its id, without the internal score. */
  ghost predicate FromHighest(f: Fragment, combined: seq<Fragment>)
  {
    exists i: nat :: Kept(combined, i) && HighestSimilarity(combined, i) && f == combined[i].(rrfScore := None)
  }

  lemma KeptFromHighest(f: Fragment, combined: seq<Fragment>)
    requires FromKept(f, combined) && AllPositive(combined)
    ensures FromHighest(f, combined)
  {
    hide AllPositive, HighestSimilarity;
    var i: nat :| Kept(combined, i) && f == combined[i].(rrfScore := None);
    PositiveKeepsTheHighest(combined, i);
    hide Kept;
  }

  lemma DeduplicatedIds(r: seq<Fragment>, fragments: seq<Fragment>, score: Fragment -> real)
    requires Deduplicated(r, fragments, score)
    ensures DistinctIds(r)
  {
  }

  lemma OnceEach(a: seq<Fragment>, p: nat)
    requires DistinctIds(a) && p < |a|
    ensures multiset(a)[a[p]] == 1
  {
    assert a == a[..p] + [a[p]] + a[p + 1..];
    assert a[p] !in a[..p] && a[p] !in a[p + 1..];
  }

  lemma TwiceThen(b: seq<Fragment>, i: nat, j: nat)
    requires i < j < |b| && b[i] == b[j]
    ensures multiset(b)[b[i]] >= 2
  {
    assert b == b[..j] + b[j..];
    assert b[..j][i] == b[i] && b[j..][0] == b[i];
    assert b[i] in multiset(b[..j]) && b[i] in multiset(b[j..]);
  }

  lemma ReorderedIds(a: seq<Fragment>, b: seq<Fragment>)
    requires DistinctIds(a) && multiset(a) == multiset(b)
    ensures DistinctIds(b)
  {
    forall i, j | 0 <= i < j < |b|
      ensures b[i].id != b[j].id
    {
      var p := FoundIn(b, a, i);
      var q := FoundIn(b, a, j);
      if b[i] == b[j] {
        TwiceThen(b, i, j);
        OnceEach(a, p);
      }
    }
  }

  lemma {:induction false} FilteredIds(fragments: seq<Fragment>, p: Fragment -> bool)
    requires DistinctIds(fragments)
    ensures DistinctIds(Filter(fragments, p))
  {
    if fragments != [] {
      var front, last := fragments[..|fragments| - 1], fragments[|fragments| - 1];
      FilteredIds(front, p);
      var r := Filter(front, p);
      forall i | 0 <= i < |r|
        ensures r[i].id != last.id
      {
        assert r[i] in r;
        var j :| 0 <= j < |front| && front[j] == r[i];
      }
    }
  }

  lemma {:induction false} FilteredCosts(fragments: seq<Fragment>, countTokens: string -> nat)
    ensures EstimateTokens(Filter(fragments, Live), countTokens) <= EstimateTokens(fragments, countTokens)
  {
    if fragments != [] {
      FilteredCosts(fragments[..|fragments| - 1], countTokens);
    }
  }

  lemma {:induction false} CleanedCosts(fragments: seq<Fragment>, countTokens: string -> nat)
    ensures EstimateTokens(Cleaned(fragments), countTokens) == EstimateTokens(fragments, countTokens)
  {
    if fragments != [] {
      CleanedCosts(fragments[..|fragments| - 1], countTokens);
    }
  }

  lemma CleanedIsKept(fragments: seq<Fragment>, combined: seq<Fragment>)
    requires forall f :: f in fragments ==> Appearance(f, combined)
    ensures forall f :: f in Cleaned(fragments) ==> FromKept(f, combined)
  {
    hide Cleaned, Beats;
    forall i | 0 <= i < |fragments|
      ensures FromKept(Cleaned(fragments)[i], combined)
    {
      assert fragments[i] in fragments;
      var k: nat :| Kept(combined, k) && combined[k] == fragments[i];
    }
  }

  /** The order before the cut: the deduplicated results, diversified when the reranker scored the first one. */
  ghost predicate Ranked(ranked: seq<Fragment>, unique: seq<Fragment>, combined: seq<Fragment>, rank: Fragment -> real)
  {
    && Deduplicated(unique, combined, ScoreWith(rank))
    && if unique != [] && unique[0].rerankerScore.Some? then Diversified(ranked, unique, BALANCE) else ranked == unique
  }

  /** From the merged results to the answer: distinct ids, each the kept copy, nothing superseded unless asked,
      within the reported total, which is within the budget; the cut is the longest prefix the budget pays for. */
  method Finish(combined: seq<Fragment>, requestedBudget: nat, includeSuperseded: bool,
                rank: Fragment -> real, countTokens: string -> nat)
    returns (fragments: seq<Fragment>, totalTokens: nat,
             ghost ranked: seq<Fragment>, ghost unique: seq<Fragment>, ghost cut: nat)
    ensures DistinctIds(fragments)
    ensures forall f :: f in fragments ==> FromKept(f, combined)
    ensures AllPositive(combined) ==> forall f :: f in fragments ==> FromHighest(f, combined)
    ensures !includeSuperseded ==> forall f :: f in fragments ==> !f.superseded
    ensures EstimateTokens(fragments, countTokens) <= totalTokens <= BudgetOf(requestedBudget)
    ensures totalTokens <= if requestedBudget > 0 then requestedBudget else 1000
    ensures Ranked(ranked, unique, combined, rank)
    ensures cut <= |ranked| && totalTokens == EstimateTokens(ranked[..cut], countTokens)
    ensures fragments == if includeSuperseded then Cleaned(ranked[..cut]) else Filter(Cleaned(ranked[..cut]), Live)
    ensures forall f :: f in Cleaned(ranked[..cut]) && (includeSuperseded || !f.superseded) ==> f in fragments
    ensures forall n :: cut < n <= |ranked| ==> EstimateTokens(ranked[..n], countTokens) > BudgetOf(requestedBudget)
  {
    hide Deduplicated, Diversified, EstimateTokens, FromKept, Filter, Cleaned, DistinctIds, BudgetOf, FromHighest,
      AllPositive;
    BudgetIs(requestedBudget);
    var deduplicated := Deduplicate(combined, ScoreWith(rank));
    var diversified := deduplicated;
    if deduplicated != [] && deduplicated[0].rerankerScore.Some? {
      diversified := ApplyMMR(deduplicated, BALANCE);
    }
    var trimmed := TrimToTokenBudget(diversified, BudgetOf(requestedBudget), countTokens);
    ranked, unique, cut := diversified, deduplicated, |trimmed|;
    assert ranked[..cut] == trimmed;
    totalTokens := EstimateTokens(trimmed, countTokens);
    fragments := Cleaned(trimmed);
    PrefixIsClean(ranked, unique, combined, rank, cut, countTokens);
    if !includeSuperseded {
      FilteredCosts(fragments, countTokens);
      FilteredIds(fragments, Live);
      fragments := Filter(fragments, Live);
    }
    if AllPositive(combined) {
      forall f | f in fragments
        ensures FromHighest(f, combined)
      {
        KeptFromHighest(f, combined);
      }
    }
  }

  /** What the deduplicated results are ranked by: the reranker's scores, and the rank score where there are none. */
  lemma UniqueByScore(
    unique: seq<Fragment>, combined: seq<Fragment>, rank: Fragment -> real, i: nat, j: nat)
    requires Deduplicated(unique, combined, ScoreWith(rank)) && i < j < |unique|
    ensures var a, b := unique[i].rerankerScore, unique[j].rerankerScore;
      && (a.Some? && b.Some? ==> a.value >= b.value)
      && (a.None? && b.None? ==> rank(unique[i]) >= rank(unique[j]))
      && (a.Some? && b.None? ==> a.value >= rank(unique[j]))
      && (a.None? && b.Some? ==> rank(unique[i]) >= b.value)
  {
    hide Appearance, Place;
  }

  function Stated(f: Fragment): nat { f.estimatedTokens }

  function CountOf(f: Fragment, countTokens: string -> nat): nat
  {
    if f.content.Some? then countTokens(f.content.value) else countTokens("")
  }

  function Counted(countTokens: string -> nat): Fragment -> nat
  {
    (f: Fragment) => CountOf(f, countTokens)
  }

  /** What token sums add up: the stated estimates, and the counted contents where no estimate is stated. */
  lemma {:induction false} EstimatesAddUp(fragments: seq<Fragment>, countTokens: string -> nat)
    ensures (forall f :: f in fragments ==> f.estimatedTokens > 0) ==>
              EstimateTokens(fragments, countTokens) == Sum(fragments, Stated)
    ensures (forall f :: f in fragments ==> f.estimatedTokens == 0) ==>
              EstimateTokens(fragments, countTokens) == Sum(fragments, Counted(countTokens))
    ensures EstimateTokens(fragments, countTokens) >= Sum(fragments, Stated)
  {
    if fragments != [] {
      var last := fragments[|fragments| - 1];
      EstimatesAddUp(fragments[..|fragments| - 1], countTokens);
      assert last in fragments;
    }
  }

  lemma PrefixIsClean(ranked: seq<Fragment>, unique: seq<Fragment>, combined: seq<Fragment>, rank: Fragment -> real,
                      cut: nat, countTokens: string -> nat)
    requires Ranked(ranked, unique, combined, rank) && multiset(ranked) == multiset(unique) && cut <= |ranked|
    ensures DistinctIds(Cleaned(ranked[..cut]))
    ensures forall f :: f in Cleaned(ranked[..cut]) ==> FromKept(f, combined)
    ensures EstimateTokens(Cleaned(ranked[..cut]), countTokens) == EstimateTokens(ranked[..cut], countTokens)
  {
    DeduplicatedIds(unique, combined, ScoreWith(rank));
    assert forall f :: f in unique ==> Appearance(f, combined) by {
      hide Appearance, Ordered;
    }
    hide Ranked, Appearance, EstimateTokens, FromKept, Cleaned;
    ReorderedIds(unique, ranked);
    forall f | f in ranked[..cut]
      ensures Appearance(f, combined)
    {
      assert f in multiset(ranked);
    }
    CleanedIsKept(ranked[..cut], combined);
    CleanedCosts(ranked[..cut], countTokens);
  }
}
