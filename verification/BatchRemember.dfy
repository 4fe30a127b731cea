/** Batch insertion: items are checked, cut to the quota twice, and inserted in chunks in one transaction, while
    one result per item is kept up to date. */
module BatchRemember {
  import opened Collections
  import opened Chunking

  const MAX_BATCH := 200

  datatype Item = Item(content: Option<string>, kind: string)

  datatype Fragment = Fragment(id: string, hash: string, bytes: nat)

  /** The outcome of content validation and fragment creation, or the error either of them reports. */
  datatype Checked = Accepted(fragment: Fragment) | Rejected(error: string)

  type Factory = Item -> Checked

  function Check(item: Item, build: Factory): Checked
  {
    if item.content.None? then Rejected("content is required")
    else if item.kind == "" then Rejected("type is required")
    else build(item)
  }

  datatype Result = Result(index: nat, id: Option<string>, success: bool, error: string)

  datatype ValidFragment = ValidFragment(index: nat, fragment: Fragment)

  const QUOTA_ERROR := "fragment_limit_exceeded"

  /** The items that pass the checks, in order. */
  function Passing(items: seq<Item>, build: Factory): seq<ValidFragment>
  {
    if items == [] then []
    else
      var front, n := Passing(items[..|items| - 1], build), |items| - 1;
      match Check(items[n], build)
      case Accepted(f) => front + [ValidFragment(n, f)]
      case Rejected(_) => front
  }

  /** What stands in the results when the first `k` passing items are still in the batch. */
  function Entry(items: seq<Item>, build: Factory, k: nat, i: nat): Result
    requires i < |items|
  {
    match Check(items[i], build)
    case Rejected(error) => Result(i, None, false, error)
    case Accepted(f) =>
      if |Passing(items[..i], build)| < k then Result(i, Some(f.id), true, "")
      else Result(i, None, false, QUOTA_ERROR)
  }

  /** The results and the remaining batch belong together. */
  ghost predicate Tracks(results: seq<Result>, valid: seq<ValidFragment>, items: seq<Item>, build: Factory)
  {
    && |results| == |items|
    && valid <= Passing(items, build)
    && forall i :: 0 <= i < |items| ==> results[i] == Entry(items, build, |valid|, i)
  }

  lemma {:induction false} PassingPrefix(items: seq<Item>, build: Factory, n: nat)
    requires n <= |items|
    ensures Passing(items[..n], build) <= Passing(items, build)
    decreases |items|
  {
    if n < |items| {
      assert items[..|items| - 1][..n] == items[..n];
      PassingPrefix(items[..|items| - 1], build, n);
    } else {
      assert items[..n] == items;
    }
  }

  /** The passing item at position `p` of the batch is item `index`, and `p` items before it pass. */
  lemma {:induction false} PassingAt(items: seq<Item>, build: Factory, p: nat)
    requires p < |Passing(items, build)|
    ensures var v := Passing(items, build)[p];
      && v.index < |items| && Check(items[v.index], build) == Accepted(v.fragment)
      && |Passing(items[..v.index], build)| == p
  {
    var front := items[..|items| - 1];
    if p < |Passing(front, build)| {
      PassingAt(front, build, p);
      var v := Passing(front, build)[p];
      assert front[..v.index] == items[..v.index];
    }
  }

  /** An item that passes stands in the batch at the position given by how many pass before it. */
  lemma PassingOf(items: seq<Item>, build: Factory, i: nat)
    requires i < |items| && Check(items[i], build).Accepted?
    ensures var p := |Passing(items[..i], build)|;
      p < |Passing(items, build)| && Passing(items, build)[p] == ValidFragment(i, Check(items[i], build).fragment)
  {
    assert items[..i + 1][..i] == items[..i];
    PassingPrefix(items, build, i + 1);
  }

  function Successes(results: seq<Result>): nat
  {
    if results == [] then 0
    else Successes(results[..|results| - 1]) + if results[|results| - 1].success then 1 else 0
  }

  /** The number of successes is the size of the remaining batch. */
  lemma {:induction false} SuccessesAre(results: seq<Result>, items: seq<Item>, build: Factory, k: nat, n: nat)
    requires n <= |items| == |results|
    requires forall i :: 0 <= i < |items| ==> results[i].success == Entry(items, build, k, i).success
    ensures var p := |Passing(items[..n], build)|; Successes(results[..n]) == if p < k then p else k
  {
    if n > 0 {
      SuccessesAre(results, items, build, k, n - 1);
      assert items[..n][..n - 1] == items[..n - 1] && results[..n][..n - 1] == results[..n - 1];
      assert results[n - 1].success == Entry(items, build, k, n - 1).success;
    }
  }

  // The table of one key.

  datatype Row = Row(id: string, live: bool)

  /** The rows of a key by content hash, which is unique per key, dead rows included. */
  type Table = map<string, Row>

  /** Inserting a known hash only touches its row: it keeps its id, and a dead row stays dead. */
  function Upsert(t: Table, f: Fragment): Table
  {
    if f.hash in t then t else t[f.hash := Row(f.id, true)]
  }

  function UpsertAll(t: Table, fragments: seq<Fragment>): Table
  {
    if fragments == [] then t
    else Upsert(UpsertAll(t, fragments[..|fragments| - 1]), fragments[|fragments| - 1])
  }

  function LiveRows(t: Table): set<string>
  {
    set h | h in t && t[h].live
  }

  lemma UpsertAddsAtMostOne(t: Table, f: Fragment)
    ensures |LiveRows(Upsert(t, f))| <= |LiveRows(t)| + 1
    ensures f.hash in Upsert(t, f) && forall h :: h in t ==> h in Upsert(t, f) && Upsert(t, f)[h] == t[h]
  {
    if f.hash !in t {
      assert LiveRows(Upsert(t, f)) == LiveRows(t) + {f.hash};
    }
  }

  lemma {:induction false} UpsertAllAddsAtMost(t: Table, fragments: seq<Fragment>)
    ensures |LiveRows(UpsertAll(t, fragments))| <= |LiveRows(t)| + |fragments|
    ensures forall h :: h in t ==> h in UpsertAll(t, fragments) && UpsertAll(t, fragments)[h] == t[h]
    ensures forall i :: 0 <= i < |fragments| ==> fragments[i].hash in UpsertAll(t, fragments)
  {
    if fragments != [] {
      var front, f := fragments[..|fragments| - 1], fragments[|fragments| - 1];
      hide Upsert, LiveRows;
      UpsertAllAddsAtMost(t, front);
      UpsertAddsAtMostOne(UpsertAll(t, front), f);
      assert UpsertAll(t, fragments) == Upsert(UpsertAll(t, front), f);
      hide UpsertAll;
    }
  }

  /** What an upsert revives: nothing. A row that was there stays live or dead, a new one is live. */
  lemma {:induction false} LiveIffNewOrLive(t: Table, fragments: seq<Fragment>, h: string)
    requires h in UpsertAll(t, fragments)
    ensures UpsertAll(t, fragments)[h].live <==> h !in t || t[h].live
  {
    if fragments != [] {
      var front := fragments[..|fragments| - 1];
      if h in UpsertAll(t, front) {
        LiveIffNewOrLive(t, front, h);
      } else {
        UpsertAllAddsAtMost(t, front);
      }
    }
  }

  /** The fragment at `p` is the first with its hash. */
  ghost predicate IsFirst(fragments: seq<Fragment>, p: nat, h: string)
  {
    p < |fragments| && fragments[p].hash == h && forall q :: 0 <= q < p ==> fragments[q].hash != h
  }

  /** The row of a new hash is that of the first fragment with it. */
  lemma {:induction false} NewRowIsFirst(t: Table, fragments: seq<Fragment>, p: nat)
    requires p < |fragments| && IsFirst(fragments, p, fragments[p].hash) && fragments[p].hash !in t
    ensures var h := fragments[p].hash;
      h in UpsertAll(t, fragments) && UpsertAll(t, fragments)[h] == Row(fragments[p].id, true)
  {
    var front, last := fragments[..|fragments| - 1], fragments[|fragments| - 1];
    if p < |front| {
      NewRowIsFirst(t, front, p);
    } else {
      NoOtherRow(t, front, last.hash);
    }
  }

  lemma {:induction false} NoOtherRow(t: Table, fragments: seq<Fragment>, h: string)
    requires h !in t && forall q :: 0 <= q < |fragments| ==> fragments[q].hash != h
    ensures h !in UpsertAll(t, fragments)
  {
    if fragments != [] {
      NoOtherRow(t, fragments[..|fragments| - 1], h);
    }
  }

  lemma {:induction false} FirstWith(fragments: seq<Fragment>, i: nat) returns (p: nat)
    requires i < |fragments|
    ensures IsFirst(fragments, p, fragments[i].hash)
  {
    if q :| 0 <= q < i && fragments[q].hash == fragments[i].hash {
      p := FirstWith(fragments, q);
    } else {
      p := i;
    }
  }

  lemma {:induction false} UpsertAllAppend(t: Table, a: seq<Fragment>, b: seq<Fragment>)
    ensures UpsertAll(t, a + b) == UpsertAll(UpsertAll(t, a), b)
  {
    if b == [] {
      assert a + b == a;
    } else {
      assert (a + b)[..|a + b| - 1] == a + b[..|b| - 1];
      UpsertAllAppend(t, a, b[..|b| - 1]);
    }
  }

  function Fragments(valid: seq<ValidFragment>): (r: seq<Fragment>)
    ensures |r| == |valid| && forall i :: 0 <= i < |r| ==> r[i] == valid[i].fragment
  {
    if valid == [] then [] else Fragments(valid[..|valid| - 1]) + [valid[|valid| - 1].fragment]
  }

  /** One statement may not touch the same row twice: the database rejects it. */
  predicate DistinctHashes(chunk: seq<ValidFragment>)
  {
    forall i, j :: 0 <= i < j < |chunk| ==> chunk[i].fragment.hash != chunk[j].fragment.hash
  }

  function Bytes(v: ValidFragment): nat { v.fragment.bytes }

  /** The database accepts every chunk of the batch. */
  ghost predicate Insertable(valid: seq<ValidFragment>)
  {
    forall chunks :: Partition(chunks, valid, Bytes, INSERT_CAPS) && Eager(chunks, Bytes, INSERT_CAPS) ==>
      forall c :: 0 <= c < |chunks| ==> DistinctHashes(chunks[c])
  }

  /** There is only one way to cut the batch, so its chunks decide. */
  lemma InsertableIff(chunks: seq<seq<ValidFragment>>, valid: seq<ValidFragment>)
    requires Partition(chunks, valid, Bytes, INSERT_CAPS) && Eager(chunks, Bytes, INSERT_CAPS)
    ensures Insertable(valid) <==> forall c :: 0 <= c < |chunks| ==> DistinctHashes(chunks[c])
  {
    hide Partition, Eager, DistinctHashes;
    forall other | Partition(other, valid, Bytes, INSERT_CAPS) && Eager(other, Bytes, INSERT_CAPS)
      ensures other == chunks
    {
      PartitionIs(chunks, valid);
      EagerIsUnique(chunks, other, Bytes, INSERT_CAPS);
    }
  }

  lemma PartitionIs(chunks: seq<seq<ValidFragment>>, valid: seq<ValidFragment>)
    requires Partition(chunks, valid, Bytes, INSERT_CAPS)
    ensures Flatten(chunks) == valid
  {
  }

  /** What the quota queries return: the limit, if the key has one, and the number of its live fragments. */
  datatype Quota = Unlimited | Limited(limit: int, count: nat)

  /** How many of `k` fragments a quota admits. */
  function Admitted(q: Quota, k: nat): nat
  {
    match q
    case Unlimited => k
    case Limited(limit, count) =>
      var remaining := limit - count;
      if remaining <= 0 then 0 else if remaining < k then remaining else k
  }

  datatype Outcome = Done(results: seq<Result>, inserted: nat, skipped: nat) | Thrown(reason: string)

  /** What the results of a finished batch say, given that the first `k` passing items were stored in `t`. */
  ghost predicate Reports(o: Outcome, items: seq<Item>, build: Factory, k: nat, t: Table)
  {
    && o.Done? && |o.results| == |items|
    && o.inserted == k == Successes(o.results) && o.inserted + o.skipped == |items|
    && forall i :: 0 <= i < |items| ==>
         var r, e := o.results[i], Entry(items, build, k, i);
         if e.success
         then var h := Check(items[i], build).fragment.hash; h in t && r == e.(id := Some(t[h].id))
         else r == e
  }

  /** What the quota takes is a suffix of the passing items, and an error entry carries no id. */
  lemma QuotaTakesASuffix(o: Outcome, items: seq<Item>, build: Factory, k: nat, t: Table, i: nat, j: nat)
    requires Reports(o, items, build, k, t) && i < j < |items|
    requires Check(items[i], build).Accepted? && Check(items[j], build).Accepted?
    ensures !o.results[i].success ==> !o.results[j].success && o.results[j].error == QUOTA_ERROR
    ensures o.results[i].index == i && (o.results[i].id.Some? <==> o.results[i].success)
  {
    assert items[..j][..i] == items[..i];
    PassingOf(items[..j], build, i);
    assert o.results[i].success == Entry(items, build, k, i).success;
    assert o.results[j].success == Entry(items, build, k, j).success;
  }

  /** The arrays that the phases of one batch share and change. */
  class Batch {
    const items: seq<Item>
    const build: Factory
    var results: seq<Result>
    var valid: seq<ValidFragment>

    /** Phase A: one result per item. */
    constructor (items: seq<Item>, build: Factory)
      ensures this.items == items && this.build == build
      ensures Tracks(results, valid, items, build) && valid == Passing(items, build)
    {
      this.items, this.build := items, build;
      results, valid := [], [];
      new;
      for i := 0 to |items|
        invariant Tracks(results, valid, items[..i], build) && valid == Passing(items[..i], build)
      {
        var checked := Check(items[i], build);
        AppendTracks(results, valid, items, build, i);
        if checked.Accepted? {
          valid := valid + [ValidFragment(i, checked.fragment)];
          results := results + [Result(i, Some(checked.fragment.id), true, "")];
        } else {
          results := results + [Result(i, None, false, checked.error)];
        }
      }
      assert items[..|items|] == items;
    }

    /** Cuts the batch to what the quota admits and marks the rest; true when nothing is left. */
    method CheckQuota(q: Quota) returns (rejectedAll: bool)
      requires Tracks(results, valid, items, build) && valid != []
      modifies this
      ensures Tracks(results, valid, items, build)
      ensures |valid| == Admitted(q, old(|valid|)) && (rejectedAll <==> valid == [])
    {
      if q.Unlimited? {
        return false;
      }
      var remaining := q.limit - q.count;
      if remaining <= 0 {
        CutFrom(0);
        return true;
      }
      if remaining < |valid| {
        CutFrom(remaining);
      }
      return false;
    }

    /** Removes the fragments from position `k` on and turns their results into quota errors. */
    method CutFrom(k: nat)
      requires Tracks(results, valid, items, build) && k <= |valid|
      modifies this
      ensures Tracks(results, valid, items, build) && valid == old(valid)[..k]
    {
      var rejected := valid[k..];
      ghost var r0 := results;
      for p := 0 to |rejected|
        invariant valid == old(valid) && |results| == |items|
        invariant forall i :: 0 <= i < |items| ==>
                    results[i] == if exists q :: 0 <= q < p && rejected[q].index == i
                                  then r0[i].(success := false, error := QUOTA_ERROR, id := None) else r0[i]
      {
        PassingAt(items, build, k + p);
        var i := rejected[p].index;
        results := results[i := results[i].(success := false, error := QUOTA_ERROR, id := None)];
      }
      CutTracks(r0, results, valid, items, build, k);
      valid := valid[..k];
    }

    /** One chunk: a multi-row upsert, and the ids it returns go into the results. */
    method InsertChunk(chunk: seq<ValidFragment>, ghost m: nat, ghost table: Table, t: Table) returns (t': Table)
      requires valid <= Passing(items, build) && IsSlice(chunk, valid, m)
      requires t == UpsertAll(table, Fragments(valid[..m])) && Stored(results, items, build, |valid|, m, t)
      modifies this`results
      ensures t' == UpsertAll(table, Fragments(valid[..m + |chunk|]))
      ensures |results| == |items| && Stored(results, items, build, |valid|, m + |chunk|, t')
    {
      hide StoredAt, Passing, UpsertAll;
      t' := UpsertAll(t, Fragments(chunk));
      assert valid[..m + |chunk|] == valid[..m] + chunk;
      ChunkUpserted(table, valid[..m], chunk, t);
      StoredGrows(results, items, build, |valid|, m, t, t', chunk);
      hide Fragments;
      for p := 0 to |chunk|
        invariant Stored(results, items, build, |valid|, m + p, t')
      {
        var v := chunk[p];
        assert v == valid[m + p];
        StoredNext(results, valid, items, build, m + p, t');
        results := results[v.index := results[v.index].(id := Some(t'[v.fragment.hash].id))];
      }
    }

    /** Phase B: inserts the batch chunk by chunk; a chunk with a repeated hash aborts the transaction. */
    method InsertChunks(table: Table) returns (ok: bool, table': Table)
      requires Tracks(results, valid, items, build)
      modifies this
      ensures valid == old(valid)
      ensures ok ==> table' == UpsertAll(table, Fragments(valid))
      ensures ok ==> Stored(results, items, build, |valid|, |valid|, table')
      ensures ok <==> Insertable(valid)
      ensures !ok ==> table' == table && !DistinctHashes(valid)
    {
      hide *;
      var chunks := ChunksOf(valid);
      NothingStored(results, valid, items, build, table);
      table' := table;
      ghost var m := 0;
      NothingFlat(chunks);
      InsertableIff(chunks, valid);
      for c := 0 to |chunks|
        invariant valid == old(valid) && m == |Flatten(chunks[..c])| <= |valid|
        invariant table' == UpsertAll(table, Fragments(valid[..m]))
        invariant Stored(results, items, build, |valid|, m, table')
        invariant forall d :: 0 <= d < c ==> DistinctHashes(chunks[d])
      {
        NextChunk(chunks, c, valid);
        if !DistinctHashes(chunks[c]) {
          DistinctPart(valid, chunks[c], m);
          return false, table;
        }
        table' := InsertChunk(chunks[c], m, table, table');
        m := m + |chunks[c]|;
      }
      assert chunks[..|chunks|] == chunks && valid[..|valid|] == valid;
      ok := true;
    }
  }

  /** The first `m` fragments of the batch are in `t`, and their results carry the ids they have there. */
  ghost predicate Stored(results: seq<Result>, items: seq<Item>, build: Factory, k: nat, m: nat, t: Table)
  {
    && |results| == |items|
    && forall i :: 0 <= i < |items| ==> StoredAt(results[i], items, build, k, m, t, i)
  }

  ghost predicate StoredAt(r: Result, items: seq<Item>, build: Factory, k: nat, m: nat, t: Table, i: nat)
    requires i < |items|
  {
    var e := Entry(items, build, k, i);
    if e.success && |Passing(items[..i], build)| < m
    then var h := Check(items[i], build).fragment.hash; h in t && r == e.(id := Some(t[h].id))
    else r == e
  }

  lemma NothingStored(results: seq<Result>, valid: seq<ValidFragment>, items: seq<Item>, build: Factory, t: Table)
    requires Tracks(results, valid, items, build)
    ensures Stored(results, items, build, |valid|, 0, t) && t == UpsertAll(t, Fragments(valid[..0]))
    ensures |results| == |items| && valid <= Passing(items, build)
  {
  }

  /** `chunk` stands in the batch from position `m` on. */
  ghost predicate IsSlice(chunk: seq<ValidFragment>, valid: seq<ValidFragment>, m: nat)
  {
    m + |chunk| <= |valid| && forall p :: 0 <= p < |chunk| ==> valid[m + p] == chunk[p]
  }

  /** `t'` keeps the rows of `t` and has a row for every fragment of the chunk. */
  ghost predicate Extends(t: Table, t': Table, chunk: seq<ValidFragment>)
  {
    && (forall h :: h in t ==> h in t' && t'[h] == t[h])
    && forall p :: 0 <= p < |chunk| ==> chunk[p].fragment.hash in t'
  }

  /** Upserting the next chunk continues the upsert of the batch. */
  lemma ChunkUpserted(table: Table, front: seq<ValidFragment>, chunk: seq<ValidFragment>, t: Table)
    requires t == UpsertAll(table, Fragments(front))
    ensures var t' := UpsertAll(t, Fragments(chunk));
      && t' == UpsertAll(table, Fragments(front + chunk))
      && Extends(t, t', chunk)
  {
    hide UpsertAll;
    UpsertAllAddsAtMost(t, Fragments(chunk));
    UpsertAllAppend(table, Fragments(front), Fragments(chunk));
    FragmentsAppend(front, chunk);
    hide Fragments;
    forall p | 0 <= p < |chunk|
      ensures chunk[p].fragment.hash in UpsertAll(t, Fragments(chunk))
    {
      assert Fragments(chunk)[p] == chunk[p].fragment;
    }
  }

  lemma StoredGrows(results: seq<Result>, items: seq<Item>, build: Factory, k: nat, m: nat, t: Table, t': Table,
                    chunk: seq<ValidFragment>)
    requires Stored(results, items, build, k, m, t) && Extends(t, t', chunk)
    ensures Stored(results, items, build, k, m, t')
  {
  }

  lemma StoredNext(results: seq<Result>, valid: seq<ValidFragment>, items: seq<Item>, build: Factory, m: nat, t: Table)
    requires valid <= Passing(items, build) && m < |valid|
    requires Stored(results, items, build, |valid|, m, t) && valid[m].fragment.hash in t
    ensures valid[m].index < |results|
    ensures var v := valid[m];
      Stored(results[v.index := results[v.index].(id := Some(t[v.fragment.hash].id))], items, build, |valid|, m + 1, t)
  {
    PassingAt(items, build, m);
    var v := valid[m];
    var results' := results[v.index := results[v.index].(id := Some(t[v.fragment.hash].id))];
    forall i | 0 <= i < |items|
      ensures StoredAt(results'[i], items, build, |valid|, m + 1, t, i)
    {
      assert StoredAt(results[i], items, build, |valid|, m, t, i);
      if Check(items[i], build).Accepted? {
        PassingOf(items, build, i);
      }
      hide Passing;
    }
  }

  lemma AppendTracks(results: seq<Result>, valid: seq<ValidFragment>, items: seq<Item>, build: Factory, i: nat)
    requires i < |items| && valid == Passing(items[..i], build) && Tracks(results, valid, items[..i], build)
    ensures var c := Check(items[i], build);
      var (r, v) := if c.Accepted?
                    then (Result(i, Some(c.fragment.id), true, ""), valid + [ValidFragment(i, c.fragment)])
                    else (Result(i, None, false, c.error), valid);
      v == Passing(items[..i + 1], build) && Tracks(results + [r], v, items[..i + 1], build)
  {
    var front, all := items[..i], items[..i + 1];
    assert all[..i] == front;
    forall j | 0 <= j < i
      ensures all[..j] == front[..j] && all[j] == front[j]
      ensures Entry(all, build, |Passing(all, build)|, j) == Entry(front, build, |valid|, j)
    {
      if Check(front[j], build).Accepted? {
        PassingOf(front, build, j);
      }
    }
  }

  lemma CutTracks(
    r0: seq<Result>, results: seq<Result>, valid: seq<ValidFragment>, items: seq<Item>, build: Factory, k: nat)
    requires Tracks(r0, valid, items, build) && k <= |valid| && |results| == |items|
    requires forall i :: 0 <= i < |items| ==>
               results[i] == if exists q :: 0 <= q < |valid[k..]| && valid[k..][q].index == i
                             then r0[i].(success := false, error := QUOTA_ERROR, id := None) else r0[i]
    ensures Tracks(results, valid[..k], items, build)
  {
    forall i | 0 <= i < |items|
      ensures results[i] == Entry(items, build, k, i)
    {
      var p := |Passing(items[..i], build)|;
      if Check(items[i], build).Accepted? {
        PassingOf(items, build, i);
        if k <= p < |valid| {
          assert valid[k..][p - k].index == i;
        }
      }
      if q :| 0 <= q < |valid[k..]| && valid[k..][q].index == i {
        PassingAt(items, build, k + q);
      }
    }
  }

  method ChunksOf(valid: seq<ValidFragment>) returns (chunks: seq<seq<ValidFragment>>)
    ensures Partition(chunks, valid, Bytes, INSERT_CAPS) && Eager(chunks, Bytes, INSERT_CAPS)
    ensures Flatten(chunks) == valid
  {
    chunks := Split(valid, Bytes, INSERT_CAPS);
  }

  lemma NothingFlat(chunks: seq<seq<ValidFragment>>)
    ensures chunks[..0] == [] && Flatten(chunks[..0]) == []
  {
  }

  lemma NextChunk(chunks: seq<seq<ValidFragment>>, c: nat, valid: seq<ValidFragment>)
    requires c < |chunks| && Flatten(chunks) == valid
    ensures var m := |Flatten(chunks[..c])|;
      && m + |chunks[c]| == |Flatten(chunks[..c + 1])| <= |valid|
      && IsSlice(chunks[c], valid, m)
  {
    FlattenPrefix(chunks, c);
    assert chunks[..c + 1][..c] == chunks[..c];
    var f := Flatten(chunks[..c]);
    assert f + chunks[c] == valid[..|f| + |chunks[c]|];
  }

  lemma DistinctPart(valid: seq<ValidFragment>, chunk: seq<ValidFragment>, m: nat)
    requires IsSlice(chunk, valid, m)
    ensures DistinctHashes(valid) ==> DistinctHashes(chunk)
  {
  }

  lemma FragmentsAppend(a: seq<ValidFragment>, b: seq<ValidFragment>)
    ensures Fragments(a + b) == Fragments(a) + Fragments(b)
  {
  }

  /** The batch of `k` passing items is stored and reported. */
  ghost predicate Finished(o: Outcome, items: seq<Item>, build: Factory, k: nat, table: Table, table': Table)
  {
    && Reports(o, items, build, k, table')
    && k <= |Passing(items, build)| && table' == UpsertAll(table, Fragments(Passing(items, build)[..k]))
    && forall i :: 0 <= i < |items| && o.results[i].success ==>
         PointsTo(o.results[i], items[i], build, Fragments(Passing(items, build)[..k]), table, table')
  }

  /** A successful item points to the row that had its hash before, or, if the hash is new, to that of the first
      admitted fragment with it. The row is live if and only if the hash is new or was live before: the content of a
      soft-deleted fragment is reported as a success, but stays deleted. */
  ghost predicate PointsTo(
    r: Result, item: Item, build: Factory, admitted: seq<Fragment>, table: Table, table': Table)
  {
    Check(item, build).Accepted?
    && var h := Check(item, build).fragment.hash;
       && h in table' && (table'[h].live <==> h !in table || table[h].live)
       && if h in table then r.id == Some(table[h].id)
          else exists p: nat :: IsFirst(admitted, p, h) && r.id == Some(admitted[p].id)
  }

  /** How many of the passing items both quota checks admit. */
  function AdmittedTwice(items: seq<Item>, build: Factory, keyed: bool, quotaA: Quota, quotaB: Quota): (k: nat)
    ensures k <= |Passing(items, build)|
  {
    var v := |Passing(items, build)|;
    if keyed then Admitted(quotaB, Admitted(quotaA, v)) else v
  }

  /** The size is right, and if any item is valid there is a pool and the database accepts what is admitted. */
  ghost predicate Succeeds(
    items: seq<Item>, build: Factory, keyed: bool, quotaA: Quota, pool: bool, quotaB: Quota)
  {
    && 0 < |items| <= MAX_BATCH
    && (Passing(items, build) == []
        || (pool && Insertable(Passing(items, build)[..AdmittedTwice(items, build, keyed, quotaA, quotaB)])))
  }

  /** The whole batch call. The quotas are what the two quota queries return (the second one under the row lock
      that the insert holds), and `table` is the table of the key at the time of the insert. The call fails exactly
      for a batch of the wrong size, without a pool for its valid items, or when a chunk repeats a hash, and then
      leaves the table alone. */
  method Process(items: seq<Item>, build: Factory, keyed: bool, quotaA: Quota, pool: bool, quotaB: Quota, table: Table)
    returns (o: Outcome, table': Table)
    ensures o.Thrown? ==> table' == table
    ensures o.Done? <==> Succeeds(items, build, keyed, quotaA, pool, quotaB)
    ensures o.Done? ==> Finished(o, items, build, AdmittedTwice(items, build, keyed, quotaA, quotaB), table, table')
    ensures 0 < |items| <= MAX_BATCH && pool ==>
              DistinctHashes(Passing(items, build)[..AdmittedTwice(items, build, keyed, quotaA, quotaB)]) ==> o.Done?
  {
    hide Tracks, Finished, Stored, Passing, DistinctHashes, Insertable, UpsertAll, Fragments, Entry, Check, Reports;
    NothingInsertable();
    if |items| == 0 || |items| > MAX_BATCH {
      return Thrown("batch size"), table;
    }
    var batch := new Batch(items, build);
    table' := table;
    if |batch.valid| == 0 {
      ReportsNothing(batch.results, items, build, table);
      return Done(batch.results, 0, |items|), table;
    }
    if keyed && pool {
      var rejectedAll := batch.CheckQuota(quotaA);
      if rejectedAll {
        ReportsNothing(batch.results, items, build, table);
        return Done(batch.results, 0, |items|), table;
      }
    }
    if !pool {
      return Thrown("Database pool unavailable"), table;
    }
    if keyed {
      var rejectedAll := batch.CheckQuota(quotaB);
      if rejectedAll {
        ReportsNothing(batch.results, items, build, table);
        return Done(batch.results, 0, |items|), table;
      }
    }
    TracksPrefix(batch.results, batch.valid, items, build);
    ghost var k := |batch.valid|;
    var ok;
    ok, table' := batch.InsertChunks(table);
    if !ok {
      return Thrown("insert failed"), table;
    }
    StoredReports(batch.results, items, build, k, table, table');
    o := Done(batch.results, |batch.valid|, |items| - |batch.valid|);
  }

  lemma TracksPrefix(results: seq<Result>, valid: seq<ValidFragment>, items: seq<Item>, build: Factory)
    requires Tracks(results, valid, items, build)
    ensures |valid| <= |Passing(items, build)| && valid == Passing(items, build)[..|valid|]
  {
  }

  lemma NothingInsertable()
    ensures Insertable([]) && forall s: seq<ValidFragment> :: s[..0] == []
  {
    forall chunks | Partition(chunks, [], Bytes, INSERT_CAPS)
      ensures chunks == []
    {
      PartitionIs(chunks, []);
      if chunks != [] {
        PartitionTail(chunks, Bytes, INSERT_CAPS);
      }
    }
  }

  lemma {:induction false} PassingAtMost(items: seq<Item>, build: Factory)
    ensures |Passing(items, build)| <= |items|
  {
    if items != [] {
      PassingAtMost(items[..|items| - 1], build);
    }
  }

  lemma ReportsNothing(results: seq<Result>, items: seq<Item>, build: Factory, t: Table)
    requires Tracks(results, [], items, build)
    ensures Finished(Done(results, 0, |items|), items, build, 0, t, t)
  {
    SuccessesAre(results, items, build, 0, |items|);
    assert results[..|items|] == results;
  }

  lemma StoredReports(results: seq<Result>, items: seq<Item>, build: Factory, k: nat, t: Table, t': Table)
    requires Stored(results, items, build, k, k, t') && k <= |Passing(items, build)|
    requires t' == UpsertAll(t, Fragments(Passing(items, build)[..k]))
    ensures k <= |items| && Finished(Done(results, k, |items| - k), items, build, k, t, t')
  {
    PassingAtMost(items, build);
    hide UpsertAll, Fragments, Passing;
    forall i | 0 <= i < |items|
      ensures StoredAt(results[i], items, build, k, k, t', i)
      ensures results[i].success == Entry(items, build, k, i).success
    {
    }
    SuccessesAre(results, items, build, k, |items|);
    assert results[..|items|] == results && items[..|items|] == items;
    hide PointsTo;
    forall i | 0 <= i < |items| && results[i].success
      ensures PointsTo(results[i], items[i], build, Fragments(Passing(items, build)[..k]), t, t')
    {
      SuccessPoints(results, items, build, k, t, t', i);
    }
  }

  lemma SuccessPoints(
    results: seq<Result>, items: seq<Item>, build: Factory, k: nat, t: Table, t': Table, i: nat)
    requires Stored(results, items, build, k, k, t') && k <= |Passing(items, build)|
    requires t' == UpsertAll(t, Fragments(Passing(items, build)[..k]))
    requires i < |results| && results[i].success
    ensures PointsTo(results[i], items[i], build, Fragments(Passing(items, build)[..k]), t, t')
  {
    hide UpsertAll, Passing, IsFirst;
    var admitted, h := Fragments(Passing(items, build)[..k]), Check(items[i], build).fragment.hash;
    assert StoredAt(results[i], items, build, k, k, t', i);
    LiveIffNewOrLive(t, admitted, h);
    PassingOf(items, build, i);
    var n := |Passing(items[..i], build)|;
    assert admitted[n].hash == h;
    hide Fragments, StoredAt;
    UpsertAllAddsAtMost(t, admitted);
    if h !in t {
      var p := FirstWith(admitted, n);
      assert admitted[p].hash == h by { FirstHas(admitted, p, h); }
      NewRowIsFirst(t, admitted, p);
    }
  }

  lemma FirstHas(fragments: seq<Fragment>, p: nat, h: string)
    requires IsFirst(fragments, p, h)
    ensures p < |fragments| && fragments[p].hash == h
  {
  }

  // What the results say, item by item.

  /** The item has a content and a type, and a fragment can be made of it. */
  predicate Acceptable(item: Item, build: Factory)
  {
    item.content.Some? && item.kind != "" && build(item).Accepted?
  }

  function Acceptance(build: Factory): Item -> bool
  {
    (item: Item) => Acceptable(item, build)
  }

  lemma {:induction false} PassingAreAcceptable(items: seq<Item>, build: Factory)
    ensures |Passing(items, build)| == |Filter(items, Acceptance(build))|
  {
    if items != [] {
      PassingAreAcceptable(items[..|items| - 1], build);
    }
  }

  /** Each result stands at its item's place; it is a success exactly if the item is acceptable and fewer acceptable
      items than were admitted come before it, and otherwise says what was wrong with the item, or that the quota
      is exceeded. */
  lemma ResultsSay(o: Outcome, items: seq<Item>, build: Factory, k: nat, table: Table, table': Table, i: nat)
    requires Finished(o, items, build, k, table, table') && i < |items|
    ensures i < |o.results| && o.results[i].index == i
    ensures o.results[i].success <==>
              Acceptable(items[i], build) && |Filter(items[..i], Acceptance(build))| < k
    ensures o.results[i].success ==> o.results[i].error == "" && o.results[i].id.Some?
    ensures !o.results[i].success ==>
              && o.results[i].id.None?
              && o.results[i].error
                 == if items[i].content.None? then "content is required"
                    else if items[i].kind == "" then "type is required"
                    else if build(items[i]).Rejected? then build(items[i]).error
                    else "fragment_limit_exceeded"
  {
    PassingAreAcceptable(items[..i], build);
    hide Passing, UpsertAll, Fragments, PointsTo, Filter;
  }

  // What the quotas admit.

  /** A quota has room for `n` more. */
  predicate HasRoom(q: Quota, n: nat)
  {
    q.Limited? && n > 0 ==> q.count + n <= q.limit
  }

  /** What is admitted is as much of the valid items as both quotas of a key have room for. */
  lemma AdmitsAllItCan(items: seq<Item>, build: Factory, keyed: bool, quotaA: Quota, quotaB: Quota, n: nat)
    ensures n <= AdmittedTwice(items, build, keyed, quotaA, quotaB) <==>
              n <= |Filter(items, Acceptance(build))| && (keyed ==> HasRoom(quotaA, n) && HasRoom(quotaB, n))
  {
    PassingAreAcceptable(items, build);
    hide Passing, Filter;
    AdmitsIff(quotaA, |Passing(items, build)|, n);
    AdmitsIff(quotaB, Admitted(quotaA, |Passing(items, build)|), n);
  }

  lemma AdmitsIff(q: Quota, k: nat, n: nat)
    ensures n <= Admitted(q, k) <==> n <= k && HasRoom(q, n)
  {
  }

  /** An insert that the second quota check admitted leaves the key within its limit. */
  lemma InsertStaysWithinLimit(table: Table, fragments: seq<Fragment>, limit: nat)
    requires |fragments| <= Admitted(Limited(limit, |LiveRows(table)|), |fragments|)
    ensures |LiveRows(UpsertAll(table, fragments))| <= limit || fragments == []
  {
    UpsertAllAddsAtMost(table, fragments);
  }
}
