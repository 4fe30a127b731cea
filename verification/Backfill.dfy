/** The claim backfill: tenant by tenant, pages of fragments in descending id order, each page starting below the
    last id of the page before, until a global limit is reached. */
module Backfill {
  import opened Collections

  /** The order of ids in the database. */
  type Rank = string -> int

  /** The rows of one tenant as the query sees them: strictly descending, no id empty. */
  ghost predicate Descending(rows: seq<string>, rank: Rank)
  {
    && (forall i, j :: 0 <= i < j < |rows| ==> rank(rows[i]) > rank(rows[j]))
    && forall i :: 0 <= i < |rows| ==> rows[i] != ""
  }

  function Below(rows: seq<string>, cursor: string, rank: Rank): seq<string>
  {
    if rows == [] then []
    else
      var front := Below(rows[..|rows| - 1], cursor, rank);
      if rank(rows[|rows| - 1]) < rank(cursor) then front + [rows[|rows| - 1]] else front
  }

  function Take(rows: seq<string>, n: nat): (r: seq<string>)
    ensures r <= rows && |r| == if |rows| <= n then |rows| else n
  {
    if |rows| <= n then rows else rows[..n]
  }

  /** One page: the first rows below the cursor, or from the top if there is no cursor or an empty one. */
  function FetchBatch(rows: seq<string>, cursor: Option<string>, limit: nat, rank: Rank): seq<string>
  {
    if cursor.Some? && cursor.value != "" then Take(Below(rows, cursor.value, rank), limit) else Take(rows, limit)
  }

  /** Below the id at position `p` are exactly the rows after it. */
  lemma {:induction false} BelowIsRest(rows: seq<string>, p: nat, rank: Rank)
    requires p < |rows| && Descending(rows, rank)
    ensures Below(rows, rows[p], rank) == rows[p + 1..]
    decreases |rows|
  {
    var front, last := rows[..|rows| - 1], rows[|rows| - 1];
    if p == |rows| - 1 {
      NothingBelow(front, last, rank);
    } else {
      BelowIsRest(front, p, rank);
      assert rows[p + 1..] == front[p + 1..] + [last];
    }
  }

  lemma {:induction false} NothingBelow(rows: seq<string>, cursor: string, rank: Rank)
    requires forall i :: 0 <= i < |rows| ==> rank(rows[i]) > rank(cursor)
    ensures Below(rows, cursor, rank) == []
  {
    if rows != [] {
      NothingBelow(rows[..|rows| - 1], cursor, rank);
    }
  }

  /** The page after the first `seen` rows is the rows that follow them. */
  lemma NextPage(rows: seq<string>, seen: nat, take: nat, rank: Rank)
    requires Descending(rows, rank) && 0 < seen <= |rows|
    ensures FetchBatch(rows, Some(rows[seen - 1]), take, rank) == Take(rows[seen..], take)
  {
    hide Below, Take;
    BelowIsRest(rows, seen - 1, rank);
  }

  /** The page of a cursor that stands at the end of what was visited. */
  lemma PageAfter(rows: seq<string>, visited: seq<string>, cursor: Option<string>, take: nat, rank: Rank)
    requires Descending(rows, rank) && visited <= rows
    requires cursor == if visited == [] then None else Some(visited[|visited| - 1])
    ensures FetchBatch(rows, cursor, take, rank) == Take(rows[|visited|..], take)
  {
    hide Below;
    if visited != [] {
      NextPage(rows, |visited|, take, rank);
    }
  }

  /** Visits one tenant page by page; `budget` is what is left of the global limit. */
  method VisitTenant(rows: seq<string>, batchSize: nat, budget: nat, rank: Rank) returns (visited: seq<string>)
    requires batchSize > 0 && Descending(rows, rank)
    ensures visited == Take(rows, budget)
  {
    hide FetchBatch, Descending;
    visited := [];
    var cursor := None;
    while true
      invariant visited <= rows && |visited| <= budget
      invariant cursor == if visited == [] then None else Some(visited[|visited| - 1])
      decreases budget - |visited|
    {
      var remaining := budget - |visited|;
      if remaining <= 0 {
        return;
      }
      var take := if batchSize < remaining then batchSize else remaining;
      var page := FetchBatch(rows, cursor, take, rank);
      PageAfter(rows, visited, cursor, take, rank);
      if |page| == 0 {
        return;
      }
      visited := visited + page;
      cursor := Some(page[|page| - 1]);
      if |page| < take {
        return;
      }
    }
  }

  /** The backfill visits, for every page size, exactly the first `limit` rows of the tenants one after another,
      each row once. */
  method Backfill(tenants: seq<seq<string>>, batchSize: nat, limit: nat, rank: Rank) returns (visited: seq<string>)
    requires batchSize > 0 && forall t :: 0 <= t < |tenants| ==> Descending(tenants[t], rank)
    ensures visited == Take(Flatten(tenants), limit)
  {
    visited := [];
    assert tenants[..0] == [];
    for t := 0 to |tenants|
      invariant visited == Take(Flatten(tenants[..t]), limit)
    {
      var rows := VisitTenant(tenants[t], batchSize, limit - |visited|, rank);
      assert tenants[..t + 1][..t] == tenants[..t];
      TakeConcat(Flatten(tenants[..t]), tenants[t], limit);
      visited := visited + rows;
    }
    assert tenants[..|tenants|] == tenants;
  }

  lemma TakeConcat(a: seq<string>, b: seq<string>, n: nat)
    ensures Take(a + b, n) == Take(a, n) + Take(b, n - |Take(a, n)|)
  {
  }
}
