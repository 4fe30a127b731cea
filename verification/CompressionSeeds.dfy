/** The candidates of a topic come in descending order of importance. Then the fragment a group was gathered around is
    the one that is kept, and what it supersedes is similar to it. */
module CompressionSeeds {
  import opened Collections
  import opened Ranking
  import opened Compression

  /** The order of the query: within a topic, descending by importance. */
  ghost predicate ByImportance(candidates: seq<Candidate>)
  {
    forall i, j :: 0 <= i < j < |candidates| && candidates[i].topic == candidates[j].topic ==>
      candidates[i].importance >= candidates[j].importance
  }

  ghost predicate Descending(frags: seq<Candidate>)
  {
    forall i, j :: 0 <= i < j < |frags| ==> frags[i].importance >= frags[j].importance
  }

  lemma {:induction false} TopicDescends(candidates: seq<Candidate>, topic: string)
    requires ByImportance(candidates)
    ensures Descending(OfTopic(candidates, topic))
  {
    if candidates != [] {
      var front, last := candidates[..|candidates| - 1], candidates[|candidates| - 1];
      TopicDescends(front, topic);
      var r := OfTopic(front, topic);
      if last.topic == topic {
        forall i | 0 <= i < |r|
          ensures r[i].importance >= last.importance
        {
          assert r[i] in r;
          var k :| 0 <= k < |front| && front[k] == r[i];
          assert candidates[k] == r[i];
        }
      }
    }
  }

  /** The seed stands first and no member is more important. */
  ghost predicate SeedLeads(group: seq<Candidate>, knn: Knn)
  {
    && group != [] && Gathered(group, group[0], knn)
    && forall i :: 0 <= i < |group| ==> group[0].importance >= group[i].importance
  }

  ghost predicate SeedsLead(groups: seq<seq<Candidate>>, knn: Knn)
  {
    forall g :: 0 <= g < |groups| ==> SeedLeads(groups[g], knn)
  }

  ghost predicate AllTaken(frags: seq<Candidate>, taken: set<string>)
  {
    forall i :: 0 <= i < |frags| ==> frags[i].id in taken
  }

  /** Grouping one more fragment: it is taken afterwards, and if it seeds a group, all that join come after it. */
  lemma GroupOneLeads(g: Grouping, frags: seq<Candidate>, k: nat, knn: Knn, minGroup: nat)
    requires k < |frags| && Descending(frags) && Faithful(knn, frags)
    requires SeedsLead(g.groups, knn) && AllTaken(frags[..k], g.taken)
    ensures var g' := GroupOne(g, frags[k], knn(frags[k].id), minGroup);
      SeedsLead(g'.groups, knn) && AllTaken(frags[..k + 1], g'.taken)
  {
    hide Join, Gathered;
    var frag := frags[k];
    if frag.id !in g.taken {
      var group := Join([frag], knn(frag.id), g.taken + {frag.id});
      JoinedGroup(frag, knn(frag.id), g.taken, frags);
      JoinedGathers(frag, g.taken, knn, frags);
      forall i | 0 <= i < |group|
        ensures frag.importance >= group[i].importance
      {
        ComesAfter(frags, k, g.taken, group[i]);
      }
      assert frag in group;
      hide SeedLeads;
      assert SeedLeads(group, knn) by { LeadsIf(group, knn); }
    }
  }

  lemma LeadsIf(group: seq<Candidate>, knn: Knn)
    requires group != [] && Gathered(group, group[0], knn)
    requires forall i :: 0 <= i < |group| ==> group[0].importance >= group[i].importance
    ensures SeedLeads(group, knn)
  {
  }

  lemma JoinedGathers(frag: Candidate, taken: set<string>, knn: Knn, pool: seq<Candidate>)
    requires frag.id !in taken && frag in pool && forall n :: n in knn(frag.id) ==> n.fragment in pool
    ensures Gathered(Join([frag], knn(frag.id), taken + {frag.id}), frag, knn)
  {
    hide Join, Near;
    JoinedGroup(frag, knn(frag.id), taken, pool);
  }

  lemma ComesAfter(frags: seq<Candidate>, k: nat, taken: set<string>, c: Candidate)
    requires k < |frags| && Descending(frags) && AllTaken(frags[..k], taken) && c in frags && c.id !in taken
    ensures frags[k].importance >= c.importance
  {
    var i :| 0 <= i < |frags| && frags[i] == c;
    if i < k {
      TakenBefore(frags, k, taken, i);
    }
  }

  lemma TakenBefore(frags: seq<Candidate>, k: nat, taken: set<string>, i: nat)
    requires i < k <= |frags| && AllTaken(frags[..k], taken)
    ensures frags[i].id in taken
  {
    assert frags[..k][i] == frags[i];
  }

  lemma {:induction false} OneByOneLeads(frags: seq<Candidate>, k: nat, knn: Knn, minGroup: nat)
    requires k <= |frags| && Descending(frags) && Faithful(knn, frags)
    ensures var g := OneByOne(Grouping([], {}), frags[..k], knn, minGroup);
      SeedsLead(g.groups, knn) && AllTaken(frags[..k], g.taken)
  {
    hide GroupOne, SeedLeads, Descending, Faithful;
    if k > 0 {
      OneByOneLeads(frags, k - 1, knn, minGroup);
      assert frags[..k][..k - 1] == frags[..k - 1];
      GroupOneLeads(OneByOne(Grouping([], {}), frags[..k - 1], knn, minGroup), frags, k - 1, knn, minGroup);
    }
  }

  lemma TopicLeads(candidates: seq<Candidate>, topic: string, knn: Knn, minGroup: nat)
    requires ByImportance(candidates) && SameTopic(knn, candidates)
    ensures SeedsLead(OneByOne(Grouping([], {}), OfTopic(candidates, topic), knn, minGroup).groups, knn)
  {
    var frags := OfTopic(candidates, topic);
    TopicDescends(candidates, topic);
    hide OfTopic, OneByOne, SeedsLead, Descending;
    OneByOneLeads(frags, |frags|, knn, minGroup);
    assert frags[..|frags|] == frags;
  }

  lemma {:induction false} AllLead(candidates: seq<Candidate>, topics: seq<string>, knn: Knn, minGroup: nat)
    requires ByImportance(candidates) && SameTopic(knn, candidates)
    ensures SeedsLead(GroupsOf(candidates, topics, knn, minGroup), knn)
  {
    hide OfTopic, OneByOne, SeedLeads, ByImportance, SameTopic;
    if topics != [] {
      AllLead(candidates, topics[..|topics| - 1], knn, minGroup);
      TopicLeads(candidates, topics[|topics| - 1], knn, minGroup);
    }
  }

  lemma LeaderIsKept(group: seq<Candidate>, knn: Knn)
    requires SeedLeads(group, knn)
    ensures var r := SortDesc(group, Importance); r != [] && r[0] == group[0] && Gathered(r, r[0], knn)
  {
    FirstStays(group, Importance);
    SortPermutes(group, Importance);
    hide SortDesc;
    var r := SortDesc(group, Importance);
    forall c
      ensures c in r <==> c in group
    {
      assert c in multiset(r) <==> c in multiset(group);
    }
    hide SeedLeads;
    SameGathered(group, r, group[0], knn);
  }

  /** Every group that is merged was gathered around its keeper. */
  lemma KeepersAreSeeds(
    candidates: seq<Candidate>, knn: Knn, minGroup: nat, done: seq<seq<Candidate>>, g: nat)
    requires ByImportance(candidates) && SameTopic(knn, candidates) && g < |done|
    requires MergedGroups(done, GroupsOf(candidates, TopicsOf(candidates), knn, minGroup))
    ensures done[g] != [] && Gathered(done[g], done[g][0], knn)
  {
    hide SortDesc, GroupsOf, TopicsOf, Gathered, SeedLeads;
    AllLead(candidates, TopicsOf(candidates), knn, minGroup);
    LeaderIsKept(GroupsOf(candidates, TopicsOf(candidates), knn, minGroup)[g], knn);
  }

  /** After a compression, whatever was soft-deleted is one of the neighbours of the fragment that supersedes it,
      with a similarity of at least 0.80. */
  lemma DeadIsSimilar(
    candidates: seq<Candidate>, knn: Knn, minGroup: nat, done: seq<seq<Candidate>>, rows: Rows,
    links: set<(string, string)>, rows0: Rows, id: string)
    returns (keeper: Candidate, dead: Candidate)
    requires ByImportance(candidates) && SameTopic(knn, candidates)
    requires MergedGroups(done, GroupsOf(candidates, TopicsOf(candidates), knn, minGroup))
    requires AllSettled(done, rows, links, rows0) && id in rows0 && rows0[id].live && !rows[id].live
    ensures keeper.id in rows && rows[keeper.id].live && (keeper.id, id) in links
    ensures dead.id == id && Near(dead, knn(keeper.id))
  {
    hide MergedGroups, GroupsOf, TopicsOf, ByImportance, SameTopic, Near, Total;
    dead :| dead in Flatten(done) && dead.id == id;
    var g, i := FromFlatten(done, dead);
    hide Flatten;
    assert Settled(done[g], rows, links);
    assert i > 0;
    keeper := done[g][0];
    KeepersAreSeeds(candidates, knn, minGroup, done, g);
    assert dead != keeper by {
      assert rows[keeper.id].live;
    }
  }
}
