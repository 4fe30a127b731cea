/** Compression of old fragments: per topic, similar fragments are grouped greedily; of each group the most
    important one is kept and takes over the access counts of the others, which are soft-deleted. */
module Compression {
  import opened Collections
  import opened Ranking

  const SIMILAR := 0.80
  const MAX_GROUP := 10
  const BATCH_SIZE := 20

  datatype Candidate = Candidate(id: string, topic: string, importance: real, accessCount: nat)

  datatype Neighbor = Neighbor(fragment: Candidate, cosine: real)

  type Knn = string -> seq<Neighbor>

  // Grouping.

  /** The neighbours that join `group`: unassigned ones in order, up to the first that is not similar enough or
      that finds the group full. */
  function Join(group: seq<Candidate>, rows: seq<Neighbor>, taken: set<string>): seq<Candidate>
    decreases |rows|
  {
    if rows == [] then group
    else
      var n := rows[0];
      if n.fragment.id in taken then Join(group, rows[1..], taken)
      else if n.cosine < SIMILAR || |group| >= MAX_GROUP then group
      else Join(group + [n.fragment], rows[1..], taken + {n.fragment.id})
  }

  datatype Grouping = Grouping(groups: seq<seq<Candidate>>, taken: set<string>)

  function Ids(group: seq<Candidate>): set<string>
  {
    set c | c in group :: c.id
  }

  function GroupOne(g: Grouping, frag: Candidate, rows: seq<Neighbor>, minGroup: nat): Grouping
  {
    if frag.id in g.taken then g
    else
      var group := Join([frag], rows, g.taken + {frag.id});
      Grouping(if |group| >= minGroup then g.groups + [group] else g.groups, g.taken + Ids(group))
  }

  /** Grouping the fragments one at a time: the simple form of the batched loop. */
  function OneByOne(g: Grouping, frags: seq<Candidate>, knn: Knn, minGroup: nat): Grouping
  {
    if frags == [] then g
    else
      var last := frags[|frags| - 1];
      GroupOne(OneByOne(g, frags[..|frags| - 1], knn, minGroup), last, knn(last.id), minGroup)
  }

  function Unassigned(frags: seq<Candidate>, taken: set<string>): seq<Candidate>
  {
    if frags == [] then []
    else
      var front, last := Unassigned(frags[..|frags| - 1], taken), frags[|frags| - 1];
      if last.id in taken then front else front + [last]
  }

  lemma {:induction false} AssignedGrows(g: Grouping, frags: seq<Candidate>, knn: Knn, minGroup: nat)
    ensures g.taken <= OneByOne(g, frags, knn, minGroup).taken
  {
    if frags != [] {
      AssignedGrows(g, frags[..|frags| - 1], knn, minGroup);
    }
  }

  /** Leaving out, from the start of a batch, the fragments already taken changes nothing. */
  lemma {:induction false} SkippingAssigned(
    g: Grouping, frags: seq<Candidate>, taken: set<string>, knn: Knn, minGroup: nat)
    requires taken <= g.taken
    ensures OneByOne(g, frags, knn, minGroup) == OneByOne(g, Unassigned(frags, taken), knn, minGroup)
  {
    if frags != [] {
      var front, last := frags[..|frags| - 1], frags[|frags| - 1];
      SkippingAssigned(g, front, taken, knn, minGroup);
      AssignedGrows(g, front, knn, minGroup);
      var u := Unassigned(front, taken);
      assert last.id !in taken ==> (u + [last])[..|u|] == u;
    }
  }

  lemma {:induction false} OneByOneAppend(g: Grouping, a: seq<Candidate>, b: seq<Candidate>, knn: Knn, minGroup: nat)
    ensures OneByOne(g, a + b, knn, minGroup) == OneByOne(OneByOne(g, a, knn, minGroup), b, knn, minGroup)
  {
    if b == [] {
      assert a + b == a;
    } else {
      assert (a + b)[..|a + b| - 1] == a + b[..|b| - 1];
      OneByOneAppend(g, a, b[..|b| - 1], knn, minGroup);
    }
  }

  lemma {:induction false} JoinIsDistinct(group: seq<Candidate>, rows: seq<Neighbor>, taken: set<string>)
    requires DistinctIds(group) && Ids(group) <= taken && 1 <= |group| <= MAX_GROUP
    ensures var r := Join(group, rows, taken);
      && DistinctIds(r) && 1 <= |r| <= MAX_GROUP && group <= r
      && forall i :: |group| <= i < |r| ==> r[i].id !in taken && Near(r[i], rows)
    decreases |rows|
  {
    if rows != [] {
      var n := rows[0];
      if n.fragment.id in taken {
        JoinIsDistinct(group, rows[1..], taken);
      } else if n.cosine < SIMILAR || |group| >= MAX_GROUP {
      } else {
        assert forall c :: c in group ==> c.id in Ids(group);
        JoinIsDistinct(group + [n.fragment], rows[1..], taken + {n.fragment.id});
      }
    }
  }

  function Id(c: Candidate): string { c.id }

  ghost predicate DistinctIds(s: seq<Candidate>)
  {
    DistinctBy(s, Id)
  }

  /** What grouping keeps: no fragment is in two groups or twice in one, sizes are within bounds, and all
      members come from the topic's candidates. */
  ghost predicate WellGrouped(g: Grouping, pool: seq<Candidate>, knn: Knn, minGroup: nat)
  {
    && DistinctIds(Flatten(g.groups))
    && (forall c :: c in Flatten(g.groups) ==> c.id in g.taken && c in pool)
    && forall group :: group in g.groups ==>
         1 <= |group| && minGroup <= |group| <= MAX_GROUP && Gathered(group, group[0], knn)
  }

  /** All members but the seed are neighbours of the seed that are similar enough. */
  ghost predicate Gathered(group: seq<Candidate>, seed: Candidate, knn: Knn)
  {
    seed in group && forall c :: c in group && c != seed ==> Near(c, knn(seed.id))
  }

  ghost predicate Near(c: Candidate, rows: seq<Neighbor>)
  {
    exists n :: n in rows && n.fragment == c && n.cosine >= SIMILAR
  }

  /** Neighbour queries return candidates of the same topic: both queries have the same filter. */
  ghost predicate Faithful(knn: Knn, pool: seq<Candidate>)
  {
    forall c, n :: c in pool && n in knn(c.id) ==> n.fragment in pool
  }

  lemma JoinedGroup(frag: Candidate, rows: seq<Neighbor>, taken: set<string>, pool: seq<Candidate>)
    requires frag.id !in taken && frag in pool && forall n :: n in rows ==> n.fragment in pool
    ensures var r := Join([frag], rows, taken + {frag.id});
      && DistinctIds(r) && 1 <= |r| <= MAX_GROUP && r[0] == frag
      && (forall i :: 0 <= i < |r| ==> r[i].id !in taken && r[i] in pool)
      && forall i :: 1 <= i < |r| ==> Near(r[i], rows)
  {
    JoinIsDistinct([frag], rows, taken + {frag.id});
  }

  lemma WellGroupedNext(g: Grouping, group: seq<Candidate>, pool: seq<Candidate>, knn: Knn, minGroup: nat)
    requires WellGrouped(g, pool, knn, minGroup)
    requires DistinctIds(group) && 1 <= |group| <= MAX_GROUP && minGroup <= |group| && Gathered(group, group[0], knn)
    requires forall i :: 0 <= i < |group| ==> group[i].id !in g.taken && group[i] in pool
    ensures WellGrouped(Grouping(g.groups + [group], g.taken + Ids(group)), pool, knn, minGroup)
  {
    var earlier := Flatten(g.groups);
    assert (g.groups + [group])[..|g.groups|] == g.groups;
    assert Flatten(g.groups + [group]) == earlier + group;
    hide Flatten, Gathered;
    DistinctTogether(earlier, group, g.taken);
  }

  lemma GroupOneKeeps(g: Grouping, frag: Candidate, knn: Knn, pool: seq<Candidate>, minGroup: nat)
    requires WellGrouped(g, pool, knn, minGroup) && frag in pool && Faithful(knn, pool)
    ensures WellGrouped(GroupOne(g, frag, knn(frag.id), minGroup), pool, knn, minGroup)
  {
    if frag.id !in g.taken {
      hide Join, Flatten, Near;
      JoinedGroup(frag, knn(frag.id), g.taken, pool);
      var group := Join([frag], knn(frag.id), g.taken + {frag.id});
      assert Gathered(group, frag, knn);
      if |group| >= minGroup {
        hide Gathered;
        WellGroupedNext(g, group, pool, knn, minGroup);
        hide WellGrouped;
      }
    }
  }

  lemma DistinctTogether(a: seq<Candidate>, b: seq<Candidate>, taken: set<string>)
    requires DistinctIds(a) && DistinctIds(b)
    requires forall c :: c in a ==> c.id in taken
    requires forall i :: 0 <= i < |b| ==> b[i].id !in taken
    ensures DistinctIds(a + b)
  {
  }

  lemma {:induction false} OneByOneKeeps(frags: seq<Candidate>, knn: Knn, pool: seq<Candidate>, minGroup: nat)
    requires Faithful(knn, pool) && forall c :: c in frags ==> c in pool
    ensures WellGrouped(OneByOne(Grouping([], {}), frags, knn, minGroup), pool, knn, minGroup)
  {
    if frags != [] {
      var front, last := frags[..|frags| - 1], frags[|frags| - 1];
      OneByOneKeeps(front, knn, pool, minGroup);
      assert last in frags;
      GroupOneKeeps(OneByOne(Grouping([], {}), front, knn, minGroup), last, knn, pool, minGroup);
    }
  }

  /** The batched loop; the neighbours of a batch are all queried before any is grouped. */
  method FormGroups(frags: seq<Candidate>, knn: Knn, minGroup: nat) returns (groups: seq<seq<Candidate>>)
    ensures groups == OneByOne(Grouping([], {}), frags, knn, minGroup).groups
  {
    hide Join, Unassigned, Ids;
    groups := [];
    var taken: set<string> := {};
    var i := 0;
    ghost var start := Grouping([], {});
    assert frags[..0] == [];
    while i < |frags|
      invariant 0 <= i <= |frags|
      invariant Grouping(groups, taken) == OneByOne(start, frags[..i], knn, minGroup)
    {
      var end := if i + BATCH_SIZE < |frags| then i + BATCH_SIZE else |frags|;
      var unassigned := Unassigned(frags[i..end], taken);
      ghost var g := Grouping(groups, taken);
      SkippingAssigned(g, frags[i..end], taken, knn, minGroup);
      OneByOneAppend(start, frags[..i], frags[i..end], knn, minGroup);
      assert frags[..end] == frags[..i] + frags[i..end];
      for j := 0 to |unassigned|
        invariant Grouping(groups, taken) == OneByOne(g, unassigned[..j], knn, minGroup)
      {
        assert unassigned[..j + 1][..j] == unassigned[..j];
        var frag := unassigned[j];
        if frag.id !in taken {
          var group := TakeNeighbors(frag, knn(frag.id), taken + {frag.id});
          taken := taken + Ids(group);
          if |group| >= minGroup {
            groups := groups + [group];
          }
        }
      }
      assert unassigned[..|unassigned|] == unassigned;
      i := end;
    }
    assert frags[..|frags|] == frags;
  }

  method TakeNeighbors(frag: Candidate, rows: seq<Neighbor>, taken: set<string>) returns (group: seq<Candidate>)
    ensures group == Join([frag], rows, taken)
  {
    group := [frag];
    var now := taken;
    for i := 0 to |rows|
      invariant Join(group, rows[i..], now) == Join([frag], rows, taken)
    {
      var n := rows[i];
      assert rows[i..][1..] == rows[i + 1..];
      if n.fragment.id in now {
        continue;
      }
      if n.cosine < SIMILAR || |group| >= MAX_GROUP {
        return;
      }
      group := group + [n.fragment];
      now := now + {n.fragment.id};
    }
  }

  // The table.

  datatype Row = Row(topic: string, importance: real, accessCount: nat, live: bool)

  type Rows = map<string, Row>

  function Weight(r: Row): nat { if r.live then r.accessCount else 0 }

  /** The access counts of all live fragments. */
  ghost function Total(rows: Rows): nat
  {
    if rows == map[] then 0
    else
      var id :| id in rows;
      Weight(rows[id]) + Total(rows - {id})
  }

  lemma {:induction false} TotalWithout(rows: Rows, id: string)
    requires id in rows
    ensures Total(rows) == Weight(rows[id]) + Total(rows - {id})
    decreases |rows|
  {
    var k :| k in rows && Total(rows) == Weight(rows[k]) + Total(rows - {k});
    if k != id {
      TotalWithout(rows - {k}, id);
      TotalWithout(rows - {id}, k);
      assert rows - {k} - {id} == rows - {id} - {k};
    }
  }

  lemma TotalUpdated(rows: Rows, id: string, r: Row)
    requires id in rows
    ensures Total(rows[id := r]) + Weight(rows[id]) == Total(rows) + Weight(r)
  {
    TotalWithout(rows, id);
    TotalWithout(rows[id := r], id);
    assert rows[id := r] - {id} == rows - {id};
  }

  function Importance(c: Candidate): real { c.importance }

  function Access(c: Candidate): nat { c.accessCount }

  /** The candidate is a live row of the table, read as it is. */
  predicate Reads(c: Candidate, rows: Rows)
  {
    c.id in rows && rows[c.id] == Row(c.topic, c.importance, c.accessCount, true)
  }

  /** What compressing `group` makes of `rows`: its first fragment survives with all the accesses of the group,
      the others are dead. */
  ghost predicate Settled(group: seq<Candidate>, rows: Rows, links: set<(string, string)>)
  {
    && group != []
    && (forall i :: 0 <= i < |group| ==> group[i].id in rows)
    && rows[group[0].id] == Row(group[0].topic, group[0].importance, Sum(group, Access), true)
    && forall i :: 1 <= i < |group| ==>
         && rows[group[i].id] == Row(group[i].topic, group[i].importance, group[i].accessCount, false)
         && (group[0].id, group[i].id) in links
         && group[i].importance <= group[0].importance
  }

  /** The groups merged so far, each with its keeper first; everything outside them is as it was, and no access
      was lost. */
  ghost predicate AllSettled(
    done: seq<seq<Candidate>>, rows: Rows, links: set<(string, string)>, rows0: Rows)
  {
    && DistinctIds(Flatten(done))
    && (forall g :: 0 <= g < |done| ==> Settled(done[g], rows, links))
    && rows.Keys == rows0.Keys
    && (forall id :: id in rows0 && id !in Ids(Flatten(done)) ==> rows[id] == rows0[id])
    && Total(rows) == Total(rows0)
  }

  lemma {:induction false} FromFlatten(groups: seq<seq<Candidate>>, c: Candidate) returns (g: nat, i: nat)
    requires c in Flatten(groups)
    ensures g < |groups| && i < |groups[g]| && groups[g][i] == c
  {
    var last := groups[|groups| - 1];
    if c in last {
      g := |groups| - 1;
      i :| i < |last| && last[i] == c;
    } else {
      g, i := FromFlatten(groups[..|groups| - 1], c);
    }
  }

  /** A soft-deleted fragment is superseded by a live fragment that is at least as important; keepers live. */
  lemma DeadIsSuperseded(
    done: seq<seq<Candidate>>, rows: Rows, links: set<(string, string)>, rows0: Rows, id: string)
    returns (keeper: string)
    requires AllSettled(done, rows, links, rows0)
    requires id in rows0 && rows0[id].live && !rows[id].live
    ensures keeper in rows && rows[keeper].live && (keeper, id) in links
    ensures rows[keeper].importance >= rows[id].importance
    ensures exists g :: 0 <= g < |done| && done[g] != [] && done[g][0].id == keeper
  {
    var c :| c in Flatten(done) && c.id == id;
    var g, i := FromFlatten(done, c);
    assert Settled(done[g], rows, links);
    assert i > 0;
    keeper := done[g][0].id;
  }

  lemma KeepersLive(done: seq<seq<Candidate>>, rows: Rows, links: set<(string, string)>, rows0: Rows, g: nat)
    requires AllSettled(done, rows, links, rows0) && g < |done|
    ensures done[g] != [] && done[g][0].id in rows && rows[done[g][0].id].live
    ensures rows[done[g][0].id].accessCount == Sum(done[g], Access)
    ensures forall i :: 0 <= i < |done[g]| ==> done[g][i].importance <= done[g][0].importance
  {
  }

  function Place(s: seq<Candidate>): Candidate -> int
  {
    (c: Candidate) => PlaceOf(s, c)
  }

  function PlaceOf(s: seq<Candidate>, c: Candidate): (p: nat)
    ensures p <= |s| && (p < |s| ==> s[p] == c) && forall i :: 0 <= i < p ==> s[i] != c
  {
    if s == [] || s[0] == c then 0 else 1 + PlaceOf(s[1..], c)
  }

  lemma PlaceIsIndex(s: seq<Candidate>, i: nat)
    requires DistinctIds(s) && i < |s|
    ensures Place(s)(s[i]) == i
  {
  }

  /** Sorting by importance puts a most important fragment first and changes nothing else. */
  lemma SortedGroup(group: seq<Candidate>)
    requires DistinctIds(group)
    ensures var r := SortDesc(group, Importance);
      && |r| == |group| && DistinctIds(r)
      && (forall c :: c in r <==> c in group)
      && forall i, j :: 0 <= i < j < |r| ==> r[i].importance >= r[j].importance
  {
    var r := SortDesc(group, Importance);
    forall i | 0 <= i < |group|
      ensures Place(group)(group[i]) == i
    {
      PlaceIsIndex(group, i);
    }
    hide SortDesc, Place;
    SortIsStable(group, Importance, Place(group));
    SortPermutes(group, Importance);
    forall c
      ensures c in r <==> c in group
    {
      assert c in multiset(r) <==> c in multiset(group);
    }
    assert |multiset(r)| == |multiset(group)|;
    SortedIsDistinct(group, r);
  }

  lemma SortedIsDistinct(group: seq<Candidate>, r: seq<Candidate>)
    requires DistinctIds(group) && Ordered(r, Importance, Place(group)) && forall c :: c in r ==> c in group
    ensures DistinctIds(r)
  {
    hide Place, Importance;
    forall i, j | 0 <= i < j < |r|
      ensures r[i].id != r[j].id
    {
      assert r[i] in group && r[j] in group;
      assert Importance(r[i]) > Importance(r[j]) || Place(group)(r[i]) < Place(group)(r[j]);
    }
  }

  /** The first `i` fragments of the sorted group `s` have been merged; the keeper has not been updated yet. */
  ghost predicate PartlyMerged(
    s: seq<Candidate>, i: nat, rows: Rows, links: set<(string, string)>, total: nat, rows0: Rows)
  {
    && 1 <= i <= |s| && DistinctIds(s)
    && (forall j :: 0 <= j < |s| ==> Reads(s[j], rows0))
    && rows.Keys == rows0.Keys
    && (forall id :: id in rows0 && id !in Ids(s[1..i]) ==> rows[id] == rows0[id])
    && (forall j :: 1 <= j < i ==> rows[s[j].id] == rows0[s[j].id].(live := false) && (s[0].id, s[j].id) in links)
    && total == Sum(s[..i], Access)
    && Total(rows) + total == Total(rows0) + s[0].accessCount
  }

  lemma NotAMember(s: seq<Candidate>, id: string)
    ensures id in Ids(s) <==> exists j :: 0 <= j < |s| && s[j].id == id
  {
  }

  lemma SumSnoc(s: seq<Candidate>, c: Candidate)
    ensures Sum(s + [c], Access) == Sum(s, Access) + c.accessCount
  {
  }

  lemma MergeStarts(s: seq<Candidate>, links: set<(string, string)>, rows0: Rows)
    requires s != [] && DistinctIds(s) && forall j :: 0 <= j < |s| ==> Reads(s[j], rows0)
    ensures PartlyMerged(s, 1, rows0, links, s[0].accessCount, rows0)
  {
  }

  lemma OneMore(s: seq<Candidate>, i: nat)
    requires 1 <= i < |s| && DistinctIds(s)
    ensures s[i].id !in Ids(s[1..i]) && Ids(s[1..i + 1]) == Ids(s[1..i]) + {s[i].id}
    ensures Sum(s[..i + 1], Access) == Sum(s[..i], Access) + s[i].accessCount
  {
    NotAMember(s[1..i], s[i].id);
    assert s[..i + 1] == s[..i] + [s[i]];
    SumSnoc(s[..i], s[i]);
    assert s[1..i + 1] == s[1..i] + [s[i]];
  }

  lemma MergeContinues(
    s: seq<Candidate>, i: nat, rows: Rows, links: set<(string, string)>, total: nat, rows0: Rows)
    requires PartlyMerged(s, i, rows, links, total, rows0) && i < |s|
    ensures s[i].id in rows
    ensures PartlyMerged(s, i + 1, rows[s[i].id := rows[s[i].id].(live := false)],
                         links + {(s[0].id, s[i].id)}, total + s[i].accessCount, rows0)
  {
    hide Ids, Total, Sum;
    OneMore(s, i);
    var id := s[i].id;
    assert Reads(s[i], rows0);
    TotalUpdated(rows, id, rows[id].(live := false));
    hide Reads;
  }

  lemma KeeperAndOthers(s: seq<Candidate>)
    requires s != [] && DistinctIds(s)
    ensures s[..|s|] == s && s[0].id !in Ids(s[1..|s|]) && Ids(s) == {s[0].id} + Ids(s[1..|s|])
  {
  }

  lemma MergeEnds(s: seq<Candidate>, rows: Rows, links: set<(string, string)>, total: nat, rows0: Rows)
    requires PartlyMerged(s, |s|, rows, links, total, rows0)
    requires forall i, j :: 0 <= i < j < |s| ==> s[i].importance >= s[j].importance
    ensures s[0].id in rows
    ensures var rows' := rows[s[0].id := rows[s[0].id].(accessCount := total)];
      && Settled(s, rows', links) && rows'.Keys == rows0.Keys && Total(rows') == Total(rows0)
      && forall id :: id in rows' && id !in Ids(s) ==> rows'[id] == rows0[id]
  {
    hide Ids, Total, Sum;
    KeeperAndOthers(s);
    var id := s[0].id;
    assert Reads(s[0], rows0);
    TotalUpdated(rows, id, rows[id].(accessCount := total));
    assert forall j :: 1 <= j < |s| ==> Reads(s[j], rows0) && s[j].id != id;
  }

  class Table {
    var rows: Rows
    var links: set<(string, string)>

    constructor (rows: Rows)
      ensures this.rows == rows && links == {}
    {
      this.rows, links := rows, {};
    }

    /** Keeps the most important fragment of the group, gives it all accesses, and soft-deletes the others. */
    method MergeGroup(group: seq<Candidate>) returns (ghost sorted: seq<Candidate>)
      requires group != [] && DistinctIds(group) && forall c :: c in group ==> Reads(c, rows)
      modifies this
      ensures sorted == SortDesc(group, Importance)
      ensures |sorted| == |group| && DistinctIds(sorted) && Ids(sorted) == Ids(group)
      ensures forall c :: c in sorted <==> c in group
      ensures Settled(sorted, rows, links) && old(links) <= links
      ensures rows.Keys == old(rows).Keys && forall id :: id in rows && id !in Ids(group) ==> rows[id] == old(rows)[id]
      ensures Total(rows) == old(Total(rows))
    {
      hide PartlyMerged, Settled, Reads, Ids, Total, SortDesc;
      SortedGroup(group);
      SameIds(group, SortDesc(group, Importance));
      var s := SortDesc(group, Importance);
      sorted := s;
      var keeper := s[0];
      var totalAccess: nat := keeper.accessCount;
      MergeStarts(s, links, rows);
      for i := 1 to |s|
        invariant PartlyMerged(s, i, rows, links, totalAccess, old(rows)) && old(links) <= links
      {
        var other := s[i];
        MergeContinues(s, i, rows, links, totalAccess, old(rows));
        totalAccess := totalAccess + other.accessCount;
        rows := rows[other.id := rows[other.id].(live := false)];
        links := links + {(keeper.id, other.id)};
      }
      MergeEnds(s, rows, links, totalAccess, old(rows));
      rows := rows[keeper.id := rows[keeper.id].(accessCount := totalAccess)];
    }

    /** Compresses all candidates, topic by topic; candidates without a topic are left alone. */
    method Compress(candidates: seq<Candidate>, knn: Knn, minGroup: nat)
      returns (compressed: int, ghost done: seq<seq<Candidate>>)
      requires minGroup > 0 && DistinctIds(candidates) && SameTopic(knn, candidates)
      requires forall c :: c in candidates ==> Reads(c, rows)
      modifies this
      ensures AllSettled(done, rows, links, old(rows)) && old(links) <= links
      ensures MergedGroups(done, GroupsOf(candidates, TopicsOf(candidates), knn, minGroup))
      ensures GroupsWithin(done, candidates, knn, minGroup)
      ensures compressed == |Flatten(done)| - |done|
    {
      hide AllSettled, Settled, Reads, Total, Ids, OneByOne, Order, TopicsOf, GroupsWithin, MergedGroups, GroupsOf,
        Gathered, Flatten, SameTopic, OfTopic, SortDesc;
      done := [];
      compressed := 0;
      NothingDone(rows, links, candidates, knn, minGroup);
      var topics := TopicsOf(candidates);
      TopicsAreDistinct(candidates);
      ghost var rows0 := rows;
      for t := 0 to |topics|
        invariant AllSettled(done, rows, links, rows0) && old(links) <= links
        invariant GroupsWithin(done, candidates, knn, minGroup) && compressed == |Flatten(done)| - |done|
        invariant MergedGroups(done, GroupsOf(candidates, topics[..t], knn, minGroup))
        invariant forall c :: c in Flatten(done) ==> c in candidates && c.topic in topics[..t]
      {
        var frags := OfTopic(candidates, topics[t]);
        assert topics[..t + 1] == topics[..t] + [topics[t]];
        NextTopic(candidates, topics, t, knn, minGroup);
        if |frags| < minGroup {
          continue;
        }
        var groups := FormGroups(frags, knn, minGroup);
        TopicGroups(candidates, knn, topics[t], minGroup);
        ghost var before := done;
        ghost var earlier := GroupsOf(candidates, topics[..t], knn, minGroup);
        assert groups[..0] == [] && earlier + [] == earlier;
        for g := 0 to |groups|
          invariant AllSettled(done, rows, links, rows0) && old(links) <= links
          invariant MergedGroups(done, earlier + groups[..g])
          invariant GroupsWithin(done, candidates, knn, minGroup) && compressed == |Flatten(done)| - |done|
          invariant forall c :: c in Flatten(done) ==>
                      c in candidates && (c in Flatten(before) || c in Flatten(groups[..g]))
        {
          var group := groups[g];
          NewGroup(groups, g, before, done, candidates, topics, t);
          StillReads(group, done, rows, links, rows0);
          ghost var rows1, links1 := rows, links;
          ghost var sorted := MergeGroup(group);
          compressed := compressed + |group| - 1;
          SettledNext(done, rows1, links1, rows, links, rows0, group, sorted);
          WithinNext(done, candidates, knn, minGroup, group, sorted);
          NextFlatten(groups, g, group);
          MergedNext(done, earlier, groups, g);
          done := done + [sorted];
        }
        assert groups[..|groups|] == groups;
        forall c | c in Flatten(done)
          ensures c.topic in topics[..t + 1]
        {
        }
      }
      assert topics[..|topics|] == topics;
    }
  }

  /** Neighbours are candidates of the same topic. */
  ghost predicate SameTopic(knn: Knn, candidates: seq<Candidate>)
  {
    forall c, n :: c in candidates && n in knn(c.id) ==> n.fragment in candidates && n.fragment.topic == c.topic
  }

  /** Sizes are within bounds, and each group is of one topic and gathered around one of its members. */
  ghost predicate GroupsWithin(groups: seq<seq<Candidate>>, candidates: seq<Candidate>, knn: Knn, minGroup: nat)
  {
    forall g :: 0 <= g < |groups| ==> GroupWithin(groups[g], candidates, knn, minGroup)
  }

  ghost predicate GroupWithin(group: seq<Candidate>, candidates: seq<Candidate>, knn: Knn, minGroup: nat)
  {
    && minGroup <= |group| <= MAX_GROUP
    && (exists seed :: Gathered(group, seed, knn))
    && forall i :: 0 <= i < |group| ==> group[i] in candidates && group[i].topic == group[0].topic
  }

  /** The groups that one-by-one grouping forms in the given topics, leaving out topics with too few candidates. */
  function GroupsOf(candidates: seq<Candidate>, topics: seq<string>, knn: Knn, minGroup: nat): seq<seq<Candidate>>
  {
    if topics == [] then []
    else
      var front := GroupsOf(candidates, topics[..|topics| - 1], knn, minGroup);
      var frags := OfTopic(candidates, topics[|topics| - 1]);
      if |frags| < minGroup then front else front + OneByOne(Grouping([], {}), frags, knn, minGroup).groups
  }

  lemma NextTopic(candidates: seq<Candidate>, topics: seq<string>, t: nat, knn: Knn, minGroup: nat)
    requires t < |topics|
    ensures var front, frags := GroupsOf(candidates, topics[..t], knn, minGroup), OfTopic(candidates, topics[t]);
      GroupsOf(candidates, topics[..t + 1], knn, minGroup)
      == if |frags| < minGroup then front else front + OneByOne(Grouping([], {}), frags, knn, minGroup).groups
  {
    assert topics[..t + 1][..t] == topics[..t];
  }

  /** Exactly the given groups were merged, each with its most important fragment first. */
  ghost predicate MergedGroups(done: seq<seq<Candidate>>, groups: seq<seq<Candidate>>)
  {
    |done| == |groups| && forall g :: 0 <= g < |done| ==> done[g] == SortDesc(groups[g], Importance)
  }

  lemma MergedNext(done: seq<seq<Candidate>>, earlier: seq<seq<Candidate>>, groups: seq<seq<Candidate>>, g: nat)
    requires g < |groups| && MergedGroups(done, earlier + groups[..g])
    ensures MergedGroups(done + [SortDesc(groups[g], Importance)], earlier + groups[..g + 1])
  {
  }

  function OfTopic(candidates: seq<Candidate>, topic: string): (r: seq<Candidate>)
    ensures forall c :: c in r <==> c in candidates && c.topic == topic
  {
    if candidates == [] then []
    else
      var front, last := OfTopic(candidates[..|candidates| - 1], topic), candidates[|candidates| - 1];
      assert forall c :: c in candidates <==> c in candidates[..|candidates| - 1] || c == last;
      if last.topic == topic then front + [last] else front
  }

  function NamedTopics(candidates: seq<Candidate>): seq<string>
  {
    if candidates == [] then []
    else
      var front, last := NamedTopics(candidates[..|candidates| - 1]), candidates[|candidates| - 1];
      if last.topic == "" then front else front + [last.topic]
  }

  /** The topics in order of first appearance, without the empty one. */
  function TopicsOf(candidates: seq<Candidate>): seq<string>
  {
    Order(NamedTopics(candidates))
  }

  lemma TopicsAreDistinct(candidates: seq<Candidate>)
    ensures Distinct(TopicsOf(candidates))
  {
    OrderByFirstAppearance(NamedTopics(candidates));
  }

  lemma NothingDone(rows: Rows, links: set<(string, string)>, candidates: seq<Candidate>, knn: Knn, minGroup: nat)
    ensures AllSettled([], rows, links, rows) && Flatten<Candidate>([]) == []
    ensures GroupsWithin([], candidates, knn, minGroup) && MergedGroups([], GroupsOf(candidates, [], knn, minGroup))
  {
  }

  lemma TopicGroups(candidates: seq<Candidate>, knn: Knn, topic: string, minGroup: nat)
    requires SameTopic(knn, candidates)
    ensures var frags := OfTopic(candidates, topic);
      var groups := OneByOne(Grouping([], {}), frags, knn, minGroup).groups;
      && DistinctIds(Flatten(groups))
      && (forall c :: c in Flatten(groups) ==> c in candidates && c.topic == topic)
      && forall g :: 0 <= g < |groups| ==>
           1 <= |groups[g]| && minGroup <= |groups[g]| <= MAX_GROUP && Gathered(groups[g], groups[g][0], knn)
  {
    hide OneByOne, Flatten, Gathered, DistinctIds;
    OneByOneKeeps(OfTopic(candidates, topic), knn, OfTopic(candidates, topic), minGroup);
  }

  lemma NextFlatten(groups: seq<seq<Candidate>>, g: nat, group: seq<Candidate>)
    requires g < |groups| && groups[g] == group
    ensures Flatten(groups[..g + 1]) == Flatten(groups[..g]) + group
  {
    assert groups[..g + 1][..g] == groups[..g];
  }

  lemma PrefixMembers(groups: seq<seq<Candidate>>, g: nat, c: Candidate)
    requires g < |groups| && DistinctIds(Flatten(groups))
    ensures DistinctIds(groups[g])
    ensures c in groups[g] ==> c in Flatten(groups)
    ensures c in groups[g] ==> forall d :: d in Flatten(groups[..g]) ==> c.id != d.id
  {
    FlattenPrefix(groups, g);
    InDistinctPrefix(Flatten(groups[..g]), groups[g], Flatten(groups), c);
  }

  lemma InDistinctPrefix(f: seq<Candidate>, group: seq<Candidate>, all: seq<Candidate>, c: Candidate)
    requires f + group <= all && DistinctIds(all)
    ensures DistinctIds(group)
    ensures c in group ==> c in all && forall d :: d in f ==> c.id != d.id
  {
    assert forall i :: 0 <= i < |group| ==> all[|f| + i] == group[i];
    if i :| 0 <= i < |group| && group[i] == c {
      forall d | d in f
        ensures c.id != d.id
      {
        var j :| 0 <= j < |f| && f[j] == d;
        assert all[j] == d;
      }
    }
  }

  /** The next group of a topic shares no fragment with the groups merged before. */
  lemma NewGroup(groups: seq<seq<Candidate>>, g: nat, before: seq<seq<Candidate>>, done: seq<seq<Candidate>>,
                 candidates: seq<Candidate>, topics: seq<string>, t: nat)
    requires g < |groups| && t < |topics| && Distinct(topics) && DistinctIds(candidates)
    requires DistinctIds(Flatten(groups))
    requires forall c :: c in Flatten(groups) ==> c in candidates && c.topic == topics[t]
    requires forall c :: c in Flatten(before) ==> c.topic in topics[..t]
    requires forall c :: c in Flatten(done) ==> c in candidates && (c in Flatten(before) || c in Flatten(groups[..g]))
    ensures DistinctIds(groups[g]) && forall c :: c in groups[g] ==> c in candidates && c.topic == topics[t]
    ensures Ids(groups[g]) !! Ids(Flatten(done))
  {
    hide Flatten, Ids;
    assert topics[t] !in topics[..t];
    GroupIsDistinct(groups, g);
    forall c, d | c in groups[g] && d in Flatten(done)
      ensures c.id != d.id
    {
      PrefixMembers(groups, g, c);
      SameIdSame(candidates, c, d);
    }
    forall c | c in groups[g]
      ensures c in Flatten(groups)
    {
      PrefixMembers(groups, g, c);
    }
    DisjointIds(groups[g], Flatten(done));
  }

  lemma GroupIsDistinct(groups: seq<seq<Candidate>>, g: nat)
    requires g < |groups| && DistinctIds(Flatten(groups))
    ensures DistinctIds(groups[g])
  {
    if groups[g] != [] {
      PrefixMembers(groups, g, groups[g][0]);
    }
  }

  lemma DisjointIds(a: seq<Candidate>, b: seq<Candidate>)
    requires forall c, d :: c in a && d in b ==> c.id != d.id
    ensures Ids(a) !! Ids(b)
  {
  }

  lemma SameIdSame(candidates: seq<Candidate>, c: Candidate, d: Candidate)
    requires DistinctIds(candidates) && c in candidates && d in candidates
    ensures c.id == d.id ==> c == d
  {
  }

  lemma StillReads(
    group: seq<Candidate>, done: seq<seq<Candidate>>, rows: Rows, links: set<(string, string)>, rows0: Rows)
    requires AllSettled(done, rows, links, rows0) && Ids(group) !! Ids(Flatten(done))
    requires forall c :: c in group ==> Reads(c, rows0)
    ensures forall c :: c in group ==> Reads(c, rows)
  {
  }

  lemma SettledStays(
    group: seq<Candidate>, rows: Rows, links: set<(string, string)>, rows': Rows, links': set<(string, string)>)
    requires Settled(group, rows, links) && links <= links' && rows'.Keys == rows.Keys
    requires forall id :: id in rows && id in Ids(group) ==> rows'[id] == rows[id]
    ensures Settled(group, rows', links')
  {
  }

  lemma SettledNext(
    done: seq<seq<Candidate>>, rows: Rows, links: set<(string, string)>, rows': Rows, links': set<(string, string)>,
    rows0: Rows, group: seq<Candidate>, sorted: seq<Candidate>)
    requires AllSettled(done, rows, links, rows0) && links <= links'
    requires Ids(group) !! Ids(Flatten(done)) && Ids(sorted) == Ids(group) && DistinctIds(sorted)
    requires Settled(sorted, rows', links') && rows'.Keys == rows.Keys && Total(rows') == Total(rows)
    requires forall id :: id in rows && id !in Ids(group) ==> rows'[id] == rows[id]
    ensures AllSettled(done + [sorted], rows', links', rows0)
  {
    var f, done' := Flatten(done), done + [sorted];
    hide Flatten, Ids, Total, Settled, DistinctIds;
    IdsOfNext(done, sorted);
    forall g | 0 <= g < |done'|
      ensures Settled(done'[g], rows', links')
    {
      if g < |done| {
        IdsOfGroup(done, g);
        SettledStays(done[g], rows, links, rows', links');
      }
    }
  }

  lemma IdsOfNext(done: seq<seq<Candidate>>, sorted: seq<Candidate>)
    requires DistinctIds(Flatten(done)) && DistinctIds(sorted) && Ids(sorted) !! Ids(Flatten(done))
    ensures Ids(Flatten(done + [sorted])) == Ids(Flatten(done)) + Ids(sorted)
    ensures DistinctIds(Flatten(done + [sorted]))
  {
    var f := Flatten(done);
    assert (done + [sorted])[..|done|] == done;
    assert Ids(f + sorted) == Ids(f) + Ids(sorted);
    assert forall c :: c in f ==> c.id in Ids(f);
    forall i | 0 <= i < |sorted|
      ensures sorted[i].id !in Ids(f)
    {
      assert sorted[i] in sorted;
      assert sorted[i].id in Ids(sorted);
    }
    hide Ids;
    DistinctTogether(f, sorted, Ids(f));
  }

  lemma IdsOfGroup(groups: seq<seq<Candidate>>, g: nat)
    requires g < |groups|
    ensures Ids(groups[g]) <= Ids(Flatten(groups))
  {
  }

  lemma WithinNext(done: seq<seq<Candidate>>, candidates: seq<Candidate>, knn: Knn, minGroup: nat,
                   group: seq<Candidate>, sorted: seq<Candidate>)
    requires GroupsWithin(done, candidates, knn, minGroup) && group != [] && Gathered(group, group[0], knn)
    requires minGroup <= |group| == |sorted| <= MAX_GROUP && forall c :: c in sorted <==> c in group
    requires forall c, d :: c in group && d in group ==> c in candidates && c.topic == d.topic
    ensures GroupsWithin(done + [sorted], candidates, knn, minGroup)
    ensures |Flatten(done + [sorted])| == |Flatten(done)| + |group|
    ensures forall c :: c in Flatten(done + [sorted]) <==> c in Flatten(done) || c in group
  {
    SortedWithin(candidates, knn, minGroup, group, sorted);
    hide GroupWithin, Gathered;
    assert (done + [sorted])[..|done|] == done;
  }

  lemma SortedWithin(
    candidates: seq<Candidate>, knn: Knn, minGroup: nat, group: seq<Candidate>, sorted: seq<Candidate>)
    requires group != [] && Gathered(group, group[0], knn)
    requires minGroup <= |sorted| <= MAX_GROUP && forall c :: c in sorted <==> c in group
    requires forall c, d :: c in group && d in group ==> c in candidates && c.topic == d.topic
    ensures GroupWithin(sorted, candidates, knn, minGroup)
  {
    SameGathered(group, sorted, group[0], knn);
    hide Gathered;
    forall i | 0 <= i < |sorted|
      ensures sorted[i] in candidates && sorted[i].topic == sorted[0].topic
    {
      assert sorted[i] in group && sorted[0] in group;
    }
  }

  lemma SameGathered(group: seq<Candidate>, sorted: seq<Candidate>, seed: Candidate, knn: Knn)
    requires Gathered(group, seed, knn) && forall c :: c in sorted <==> c in group
    ensures Gathered(sorted, seed, knn)
  {
  }

  lemma SameIds(a: seq<Candidate>, b: seq<Candidate>)
    requires forall c :: c in a <==> c in b
    ensures Ids(a) == Ids(b)
  {
  }
}