/** What compression groups: a fragment that is free at its turn takes all its free similar neighbours, up to ten
    members, the nearest first; and when a run compresses anything. */
module CompressionGrouping {
  import opened Collections
  import opened Ranking
  import opened Compression

  const EMPTY := Grouping([], {})

  /** The order of the neighbour query. */
  ghost predicate ByDistance(rows: seq<Neighbor>)
  {
    forall i, j :: 0 <= i < j < |rows| ==> rows[i].cosine >= rows[j].cosine
  }

  function Least(a: nat, b: nat): nat { if a <= b then a else b }

  /** The similar neighbours that are not taken. */
  function Free(rows: seq<Neighbor>, taken: set<string>): set<string>
  {
    set n | n in rows && n.cosine >= SIMILAR && n.fragment.id !in taken :: n.fragment.id
  }

  /** `c` is at least as near as `n`. */
  ghost predicate AsNear(c: Candidate, n: Neighbor, rows: seq<Neighbor>)
  {
    exists m :: m in rows && m.fragment == c && m.cosine >= n.cosine
  }

  /** From its member `k` on the group consists of the nearest of the free similar neighbours, of all of them unless
      it is full. */
  ghost predicate TakesNearest(group: seq<Candidate>, k: nat, rows: seq<Neighbor>, taken: set<string>)
    requires k <= |group|
  {
    && Ids(group) <= Ids(group[..k]) + Free(rows, taken)
    && |group| == Least(MAX_GROUP, k + |Free(rows, taken)|)
    && NearestFirst(group, k, rows, Free(rows, taken) - Ids(group))
  }

  /** Every member from `k` on is at least as near as each of those that are left. */
  ghost predicate NearestFirst(group: seq<Candidate>, k: nat, rows: seq<Neighbor>, left: set<string>)
  {
    forall n, i :: n in rows && n.fragment.id in left && k <= i < |group| ==> AsNear(group[i], n, rows)
  }

  lemma FreeNext(rows: seq<Neighbor>, taken: set<string>)
    requires rows != [] && ByDistance(rows)
    ensures ByDistance(rows[1..])
    ensures var n, rest := rows[0], rows[1..];
      && (n.fragment.id in taken ==> Free(rows, taken) == Free(rest, taken))
      && (n.cosine < SIMILAR ==> Free(rows, taken) == {})
      && (n.fragment.id !in taken && n.cosine >= SIMILAR ==>
            && n.fragment.id !in Free(rest, taken + {n.fragment.id})
            && Free(rows, taken) == {n.fragment.id} + Free(rest, taken + {n.fragment.id}))
  {
    assert forall m :: m in rows <==> m == rows[0] || m in rows[1..];
  }

  lemma {:induction false} JoinTakesNearest(group: seq<Candidate>, rows: seq<Neighbor>, taken: set<string>)
    requires ByDistance(rows) && |group| <= MAX_GROUP
    ensures group <= Join(group, rows, taken)
    ensures TakesNearest(Join(group, rows, taken), |group|, rows, taken)
    decreases |rows|
  {
    hide Ids, ByDistance, TakesNearest, Free;
    if rows == [] {
      NothingTaken(group, rows, taken);
    } else {
      var n, rest := rows[0], rows[1..];
      FreeNext(rows, taken);
      if n.fragment.id in taken {
        JoinTakesNearest(group, rest, taken);
        OneSkipped(Join(group, rest, taken), |group|, rows, taken);
      } else if n.cosine < SIMILAR || |group| >= MAX_GROUP {
        NothingTaken(group, rows, taken);
      } else {
        var longer := group + [n.fragment];
        JoinTakesNearest(longer, rest, taken + {n.fragment.id});
        OneTaken(Join(longer, rest, taken + {n.fragment.id}), |group|, rows, taken);
      }
    }
  }

  lemma NothingTaken(group: seq<Candidate>, rows: seq<Neighbor>, taken: set<string>)
    requires |group| <= MAX_GROUP && (rows == [] || Free(rows, taken) == {} || |group| == MAX_GROUP)
    ensures TakesNearest(group, |group|, rows, taken)
  {
    assert group[..|group|] == group;
  }

  lemma OneSkipped(group: seq<Candidate>, k: nat, rows: seq<Neighbor>, taken: set<string>)
    requires rows != [] && rows[0].fragment.id in taken && k <= |group| && TakesNearest(group, k, rows[1..], taken)
    requires Free(rows, taken) == Free(rows[1..], taken)
    ensures TakesNearest(group, k, rows, taken)
  {
    var left := Free(rows, taken) - Ids(group);
    hide Ids;
    assert rows[0].fragment.id !in left;
    hide Free;
    forall n, i | n in rows && n.fragment.id in left && k <= i < |group|
      ensures AsNear(group[i], n, rows)
    {
      assert n in rows[1..];
      assert AsNear(group[i], n, rows[1..]);
    }
  }

  lemma OneTaken(r: seq<Candidate>, k: nat, rows: seq<Neighbor>, taken: set<string>)
    requires rows != [] && ByDistance(rows) && k < |r| && r[k] == rows[0].fragment && k < MAX_GROUP
    requires var id := rows[0].fragment.id;
      && id !in Free(rows[1..], taken + {id}) && Free(rows, taken) == {id} + Free(rows[1..], taken + {id})
    requires TakesNearest(r, k + 1, rows[1..], taken + {rows[0].fragment.id})
    ensures TakesNearest(r, k, rows, taken)
  {
    hide Free, NearestFirst, ByDistance;
    IdsOfPrefix(r, k);
    hide Ids;
    var id := rows[0].fragment.id;
    var later := Free(rows[1..], taken + {id});
    NearerStill(r, k, rows, Free(rows, taken) - Ids(r), later - Ids(r));
  }

  lemma IdsOfPrefix(r: seq<Candidate>, k: nat)
    requires k < |r|
    ensures Ids(r[..k + 1]) == Ids(r[..k]) + {r[k].id} && r[k].id in Ids(r)
  {
    assert r[..k + 1] == r[..k] + [r[k]];
  }

  lemma NearerStill(r: seq<Candidate>, k: nat, rows: seq<Neighbor>, left: set<string>, leftLater: set<string>)
    requires rows != [] && ByDistance(rows) && k < |r| && r[k] == rows[0].fragment
    requires NearestFirst(r, k + 1, rows[1..], leftLater) && left <= leftLater && rows[0].fragment.id !in left
    ensures NearestFirst(r, k, rows, left)
  {
    forall n, i | n in rows && n.fragment.id in left && k <= i < |r|
      ensures AsNear(r[i], n, rows)
    {
      if i == k {
        assert rows[0] in rows && rows[0].cosine >= n.cosine;
      } else {
        assert n in rows[1..];
        assert AsNear(r[i], n, rows[1..]);
      }
    }
  }

  /** What the turn of the fragment `f` makes of the grouping `g`: nothing if `f` is taken; else `f` and its nearest
      free similar neighbours are taken, and form a group if they are enough. */
  ghost predicate Turn(g: Grouping, f: Candidate, rows: seq<Neighbor>, minGroup: nat, g': Grouping)
  {
    if f.id in g.taken then g' == g
    else exists group: seq<Candidate> ::
      && group != [] && group[0] == f && DistinctIds(group)
      && TakesNearest(group, 1, rows, g.taken + {f.id})
      && g'.taken == g.taken + Ids(group)
      && g'.groups == if |group| >= minGroup then g.groups + [group] else g.groups
  }

  /** So it is at every turn. */
  lemma EachTurn(frags: seq<Candidate>, k: nat, knn: Knn, minGroup: nat)
    requires k < |frags| && ByDistance(knn(frags[k].id))
    ensures Turn(OneByOne(EMPTY, frags[..k], knn, minGroup), frags[k], knn(frags[k].id), minGroup,
                 OneByOne(EMPTY, frags[..k + 1], knn, minGroup))
  {
    var f, g := frags[k], OneByOne(EMPTY, frags[..k], knn, minGroup);
    assert frags[..k + 1][..k] == frags[..k];
    hide Join, TakesNearest, DistinctIds;
    if f.id !in g.taken {
      var group := Join([f], knn(f.id), g.taken + {f.id});
      JoinTakesNearest([f], knn(f.id), g.taken + {f.id});
      SeedGroupIsDistinct(f, knn(f.id), g.taken + {f.id});
      assert group[0] == [f][0];
    }
  }

  lemma SeedGroupIsDistinct(f: Candidate, rows: seq<Neighbor>, taken: set<string>)
    requires f.id in taken
    ensures DistinctIds(Join([f], rows, taken))
  {
    JoinIsDistinct([f], rows, taken);
  }

  // Which fragments seed a group.

  /** The number of members of the group that the fragment at `k` gathers: none if it is taken at its turn. */
  function Gathers(frags: seq<Candidate>, k: nat, knn: Knn, minGroup: nat): nat
    requires k < |frags|
  {
    var taken, f := OneByOne(EMPTY, frags[..k], knn, minGroup).taken, frags[k];
    if f.id in taken then 0 else Least(MAX_GROUP, 1 + |Free(knn(f.id), taken + {f.id})|)
  }

  /** Some fragment gathers enough, and at least one other. */
  ghost predicate SomeGroup(frags: seq<Candidate>, knn: Knn, minGroup: nat)
  {
    exists k: nat :: k < |frags| && Gathers(frags, k, knn, minGroup) >= minGroup
                     && Gathers(frags, k, knn, minGroup) >= 2
  }

  /** The members of the groups that are not their seeds. */
  function Others(groups: seq<seq<Candidate>>): int
  {
    |Flatten(groups)| - |groups|
  }

  lemma OthersAppend(a: seq<seq<Candidate>>, b: seq<seq<Candidate>>)
    ensures Others(a + b) == Others(a) + Others(b)
  {
    FlattenAppend(a, b);
  }

  lemma OthersOfOne(group: seq<Candidate>)
    ensures Others([group]) == |group| - 1
  {
    assert [group][..0] == [];
    assert Flatten([group]) == Flatten<Candidate>([]) + group;
  }

  lemma OthersAtTurn(frags: seq<Candidate>, k: nat, knn: Knn, minGroup: nat)
    requires k < |frags| && ByDistance(knn(frags[k].id))
    ensures var n := Gathers(frags, k, knn, minGroup);
      Others(OneByOne(EMPTY, frags[..k + 1], knn, minGroup).groups)
      == Others(OneByOne(EMPTY, frags[..k], knn, minGroup).groups) + if n >= 1 && n >= minGroup then n - 1 else 0
  {
    hide OneByOne, Others, Free, DistinctIds, Ids;
    EachTurn(frags, k, knn, minGroup);
    var g, f := OneByOne(EMPTY, frags[..k], knn, minGroup), frags[k];
    var g' := OneByOne(EMPTY, frags[..k + 1], knn, minGroup);
    if f.id !in g.taken {
      var group: seq<Candidate> :|
        && group != [] && group[0] == f && DistinctIds(group)
        && TakesNearest(group, 1, knn(f.id), g.taken + {f.id})
        && g'.taken == g.taken + Ids(group)
        && g'.groups == if |group| >= minGroup then g.groups + [group] else g.groups;
      OthersAppend(g.groups, [group]);
      OthersOfOne(group);
    }
  }

  /** A topic loses a fragment if and only if one of its fragments gathers enough of them at its turn. */
  lemma {:induction false} TopicCompressesIff(frags: seq<Candidate>, k: nat, knn: Knn, minGroup: nat)
    requires k <= |frags| && forall c :: c in frags ==> ByDistance(knn(c.id))
    ensures var others := Others(OneByOne(EMPTY, frags[..k], knn, minGroup).groups);
      && others >= 0
      && (others > 0 <==> exists j: nat :: j < k && Gathers(frags, j, knn, minGroup) >= minGroup
                                           && Gathers(frags, j, knn, minGroup) >= 2)
  {
    hide Gathers, ByDistance;
    if k > 0 {
      TopicCompressesIff(frags, k - 1, knn, minGroup);
      assert frags[k - 1] in frags;
      OthersAtTurn(frags, k - 1, knn, minGroup);
      hide OneByOne, Others;
    }
  }

  lemma {:induction false} TopicsCompressIff(candidates: seq<Candidate>, topics: seq<string>, knn: Knn, minGroup: nat)
    requires SameTopic(knn, candidates) && forall c :: c in candidates ==> ByDistance(knn(c.id))
    ensures var others := Others(GroupsOf(candidates, topics, knn, minGroup));
      && others >= 0
      && (others > 0 <==> exists topic :: topic in topics && SomeGroup(OfTopic(candidates, topic), knn, minGroup))
  {
    hide OneByOne, OfTopic, Others, SomeGroup, SameTopic, ByDistance;
    if topics == [] {
      assert Others([]) == 0 by { NoOthers(); }
    } else {
      var front, last := topics[..|topics| - 1], topics[|topics| - 1];
      TopicsCompressIff(candidates, front, knn, minGroup);
      var frags := OfTopic(candidates, last);
      SomeGroupIff(candidates, last, knn, minGroup);
      OthersAppend(GroupsOf(candidates, front, knn, minGroup), OneByOne(EMPTY, frags, knn, minGroup).groups);
      assert forall topic :: topic in topics <==> topic in front || topic == last;
    }
  }

  lemma NoOthers()
    ensures Others([]) == 0
  {
  }

  lemma SomeGroupIff(candidates: seq<Candidate>, topic: string, knn: Knn, minGroup: nat)
    requires SameTopic(knn, candidates) && forall c :: c in candidates ==> ByDistance(knn(c.id))
    ensures var frags := OfTopic(candidates, topic);
      var others := Others(OneByOne(EMPTY, frags, knn, minGroup).groups);
      && others >= 0 && (others > 0 <==> SomeGroup(frags, knn, minGroup))
      && (SomeGroup(frags, knn, minGroup) ==> |frags| >= minGroup)
  {
    hide OneByOne, Others, ByDistance, Gathers;
    var frags := OfTopic(candidates, topic);
    TopicCompressesIff(frags, |frags|, knn, minGroup);
    assert frags[..|frags|] == frags;
    if SomeGroup(frags, knn, minGroup) {
      var k: nat :| k < |frags| && Gathers(frags, k, knn, minGroup) >= minGroup
                    && Gathers(frags, k, knn, minGroup) >= 2;
      GathersAtMost(candidates, topic, k, knn, minGroup);
    }
  }

  /** A group is not larger than its topic. */
  lemma GathersAtMost(candidates: seq<Candidate>, topic: string, k: nat, knn: Knn, minGroup: nat)
    requires SameTopic(knn, candidates) && k < |OfTopic(candidates, topic)|
    ensures Gathers(OfTopic(candidates, topic), k, knn, minGroup) <= |OfTopic(candidates, topic)|
  {
    hide OneByOne;
    var frags := OfTopic(candidates, topic);
    var f, taken := frags[k], OneByOne(EMPTY, frags[..k], knn, minGroup).taken;
    assert f in frags;
    var free := Free(knn(f.id), taken + {f.id});
    forall id | id in free + {f.id}
      ensures id in Ids(frags)
    {
      if id != f.id {
        var n :| n in knn(f.id) && n.fragment.id == id;
        assert n.fragment in frags;
      }
    }
    FewIds(frags);
    hide Free, Ids, OfTopic;
    SubsetIsSmaller(free + {f.id}, Ids(frags));
    assert f.id !in free;
  }

  lemma {:induction false} FewIds(frags: seq<Candidate>)
    ensures |Ids(frags)| <= |frags|
  {
    if frags != [] {
      var front, last := frags[..|frags| - 1], frags[|frags| - 1];
      FewIds(front);
      assert Ids(frags) == Ids(front) + {last.id};
    }
  }

  lemma {:induction false} NamedTopic(candidates: seq<Candidate>, topic: string)
    ensures topic in NamedTopics(candidates) <==> topic != "" && OfTopic(candidates, topic) != []
  {
    if candidates != [] {
      NamedTopic(candidates[..|candidates| - 1], topic);
    }
  }

  lemma {:induction false} SortedCount(done: seq<seq<Candidate>>, groups: seq<seq<Candidate>>)
    requires MergedGroups(done, groups)
    ensures Others(done) == Others(groups)
  {
    if done != [] {
      var n := |done| - 1;
      SortedCount(done[..n], groups[..n]);
      SortPermutes(groups[n], Importance);
      assert |multiset(done[n])| == |multiset(groups[n])|;
      hide SortDesc;
    }
  }

  /** A run compresses something if and only if, in some topic, some fragment that is not yet taken at its turn has
      enough free neighbours with a similarity of at least 0.80, and at least one. */
  lemma CompressesIff(
    candidates: seq<Candidate>, knn: Knn, minGroup: nat, done: seq<seq<Candidate>>, compressed: int)
    requires SameTopic(knn, candidates) && forall c :: c in candidates ==> ByDistance(knn(c.id))
    requires MergedGroups(done, GroupsOf(candidates, TopicsOf(candidates), knn, minGroup))
    requires compressed == |Flatten(done)| - |done|
    ensures compressed >= 0
    ensures compressed > 0 <==>
              exists topic :: topic != "" && SomeGroup(OfTopic(candidates, topic), knn, minGroup)
  {
    var topics := TopicsOf(candidates);
    assert compressed == Others(done);
    SortedCount(done, GroupsOf(candidates, topics, knn, minGroup));
    TopicsCompressIff(candidates, topics, knn, minGroup);
    OrderByFirstAppearance(NamedTopics(candidates));
    hide GroupsOf, Others, MergedGroups, ByDistance, SameTopic, NamedTopics, Order;
    forall topic
      ensures topic in topics <==> topic != "" && OfTopic(candidates, topic) != []
    {
      NamedTopic(candidates, topic);
    }
    hide Gathers;
  }

  /** In particular if the first candidate of a topic has that many similar neighbours. */
  lemma FirstCompresses(
    candidates: seq<Candidate>, knn: Knn, minGroup: nat, done: seq<seq<Candidate>>, compressed: int, topic: string)
    requires SameTopic(knn, candidates) && forall c :: c in candidates ==> ByDistance(knn(c.id))
    requires MergedGroups(done, GroupsOf(candidates, TopicsOf(candidates), knn, minGroup))
    requires compressed == |Flatten(done)| - |done|
    requires minGroup <= MAX_GROUP && topic != "" && OfTopic(candidates, topic) != []
    requires var f := OfTopic(candidates, topic)[0];
      |Free(knn(f.id), {f.id})| >= 1 && |Free(knn(f.id), {f.id})| + 1 >= minGroup
    ensures compressed > 0
  {
    var frags := OfTopic(candidates, topic);
    assert frags[..0] == [];
    assert OneByOne(EMPTY, frags[..0], knn, minGroup).taken == {};
    assert {} + {frags[0].id} == {frags[0].id};
    assert SomeGroup(frags, knn, minGroup) by {
      assert Gathers(frags, 0, knn, minGroup) >= minGroup;
    }
    hide SomeGroup, MergedGroups, GroupsOf, TopicsOf, OfTopic;
    CompressesIff(candidates, knn, minGroup, done, compressed);
  }
}
