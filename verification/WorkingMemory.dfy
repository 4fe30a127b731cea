/** The per-session working memory: entries are appended, and when their tokens exceed the budget the oldest
    unprotected entries are evicted. */
module WorkingMemory {
  import opened Collections

  const MAX_TOKENS := 500

  datatype Entry = Entry(id: string, content: string, importance: real, tokens: nat)

  /** What the caller passes; a zero stands for a missing number. */
  datatype Fragment = Fragment(id: string, content: string, importance: real, estimatedTokens: nat)

  function ToEntry(f: Fragment): Entry
  {
    Entry(f.id, f.content,
          if f.importance == 0.0 then 0.5 else f.importance,
          if f.estimatedTokens == 0 then (|f.content| + 3) / 4 else f.estimatedTokens)
  }

  /** What is kept of a fragment: id, content and the numbers that are given. A missing number of tokens is a quarter
      of the content's length, rounded up; a missing importance never protects. */
  lemma EntryIs(f: Fragment)
    ensures var e := ToEntry(f);
      && e.id == f.id && e.content == f.content
      && (f.importance != 0.0 ==> e.importance == f.importance)
      && (IsProtected(e) <==> f.importance > 0.8)
      && (f.estimatedTokens > 0 ==> e.tokens == f.estimatedTokens)
      && (f.estimatedTokens == 0 ==> 4 * e.tokens - 4 < |f.content| <= 4 * e.tokens)
  {
  }

  function Cost(e: Entry): nat { e.tokens }

  predicate IsProtected(e: Entry) { e.importance > 0.8 }

  function Tokens(items: seq<Entry>): nat { Sum(items, Cost) }

  function Protected(items: seq<Entry>): seq<Entry> { Filter(items, IsProtected) }

  /** The list without the unprotected ones among its first `cut` entries. */
  function Survivors(items: seq<Entry>, cut: nat): seq<Entry>
    requires cut <= |items|
  {
    Protected(items[..cut]) + items[cut..]
  }

  /** `cut` is the shortest prefix whose unprotected entries have to go to reach the budget, or the whole list
      if evicting all of them is not enough. */
  ghost predicate ShortestCut(items: seq<Entry>, cut: nat)
  {
    && cut <= |items|
    && (forall j :: 0 <= j < cut ==> Tokens(Survivors(items, j)) > MAX_TOKENS)
    && (cut == |items| || Tokens(Survivors(items, cut)) <= MAX_TOKENS)
  }

  function CutFrom(items: seq<Entry>, j: nat): (cut: nat)
    requires j <= |items| && forall i :: 0 <= i < j ==> Tokens(Survivors(items, i)) > MAX_TOKENS
    ensures ShortestCut(items, cut)
    decreases |items| - j
  {
    if j == |items| || Tokens(Survivors(items, j)) <= MAX_TOKENS then j else CutFrom(items, j + 1)
  }

  /** The outcome of one enforcement of the budget. */
  function Enforced(items: seq<Entry>): seq<Entry>
  {
    Survivors(items, CutFrom(items, 0))
  }

  lemma ShortestCutIsUnique(items: seq<Entry>, a: nat, b: nat)
    requires ShortestCut(items, a) && ShortestCut(items, b)
    ensures a == b
  {
  }

  /** Moving the cut over one entry drops that entry unless it is protected. */
  lemma NextCut(items: seq<Entry>, j: nat)
    requires j < |items|
    ensures IsProtected(items[j]) ==> Survivors(items, j + 1) == Survivors(items, j)
    ensures !IsProtected(items[j]) ==> Tokens(Survivors(items, j + 1)) == Tokens(Survivors(items, j)) - items[j].tokens
  {
    assert items[..j + 1][..j] == items[..j];
    var p, e, rest := Protected(items[..j]), items[j], items[j + 1..];
    assert items[j..] == [e] + rest;
    if IsProtected(e) {
      assert p + [e] + rest == p + ([e] + rest);
    } else {
      SumAppend(p, rest, Cost);
      SumAppend(p, [e] + rest, Cost);
      SumAppend([e], rest, Cost);
      assert Sum([e], Cost) == Sum([], Cost) + Cost(e);
    }
  }

  lemma {:induction false} ProtectedTwice(items: seq<Entry>)
    ensures Protected(Protected(items)) == Protected(items)
    ensures forall k: nat :: k <= |Protected(items)| ==> Protected(Protected(items)[..k]) == Protected(items)[..k]
  {
    AllProtected(Protected(items));
    forall k: nat | k <= |Protected(items)|
      ensures Protected(Protected(items)[..k]) == Protected(items)[..k]
    {
      AllProtected(Protected(items)[..k]);
    }
  }

  lemma {:induction false} AllProtected(items: seq<Entry>)
    requires forall e :: e in items ==> IsProtected(e)
    ensures Protected(items) == items
  {
    if items != [] {
      AllProtected(items[..|items| - 1]);
      assert items == items[..|items| - 1] + [items[|items| - 1]];
    }
  }

  /** Cutting inside the protected entries an earlier eviction left changes nothing. */
  lemma CutInsideKept(items: seq<Entry>, k: nat, c: nat)
    requires k <= |items| && c <= |Protected(items[..k])|
    ensures Survivors(Survivors(items, k), c) == Survivors(items, k)
  {
    ProtectedTwice(items[..k]);
    hide Filter, Protected;
    var p, s := Protected(items[..k]), Survivors(items, k);
    assert s[..c] == p[..c];
    assert s == s[..c] + s[c..];
  }

  lemma CutAt<T>(p: seq<T>, items: seq<T>, k: nat, m: nat)
    requires k <= m <= |items|
    ensures items[..m] == items[..k] + items[k..m]
    ensures (p + items[k..])[..|p| + (m - k)] == p + items[k..m]
    ensures (p + items[k..])[|p| + (m - k)..] == items[m..]
  {
  }

  /** Evicting from what an earlier eviction left is evicting from the original list, further on. */
  lemma CutFurther(items: seq<Entry>, k: nat, m: nat)
    requires k <= m <= |items|
    ensures var kept := |Protected(items[..k])|;
      kept + (m - k) <= |Survivors(items, k)| && Survivors(Survivors(items, k), kept + (m - k)) == Survivors(items, m)
  {
    KeptPrefix(items, k, m);
    hide Protected;
    CutAt(Protected(items[..k]), items, k, m);
  }

  lemma KeptPrefix(items: seq<Entry>, k: nat, m: nat)
    requires k <= m <= |items|
    ensures Protected(Protected(items[..k]) + items[k..m]) == Protected(items[..m])
  {
    hide Filter;
    ProtectedTwice(items[..k]);
    FilterAppend(Protected(items[..k]), items[k..m], IsProtected);
    FilterAppend(items[..k], items[k..m], IsProtected);
    assert items[..m] == items[..k] + items[k..m];
  }

  /** The working memory after a run of additions to a session. */
  function Run(added: seq<Entry>): seq<Entry>
  {
    if added == [] then [] else Enforced(Run(added[..|added| - 1]) + [added[|added| - 1]])
  }

  lemma SurvivorsSnoc(items: seq<Entry>, e: Entry, j: nat)
    requires j <= |items|
    ensures Survivors(items + [e], j) == Survivors(items, j) + [e]
    ensures Tokens(Survivors(items + [e], j)) == Tokens(Survivors(items, j)) + e.tokens
  {
    assert (items + [e])[..j] == items[..j] && (items + [e])[j..] == items[j..] + [e];
    assert Survivors(items + [e], j) == Survivors(items, j) + [e];
    assert (Survivors(items, j) + [e])[..|Survivors(items, j)|] == Survivors(items, j);
  }

  /** One eviction after another leaves what a single eviction over everything ever added would leave: a run
      keeps exactly the protected entries and the newest unprotected ones, down to the shortest cut. */
  lemma {:induction false} IncrementalEqualsOneShot(added: seq<Entry>)
    ensures Run(added) == Enforced(added)
  {
    if added != [] {
      var front, e := added[..|added| - 1], added[|added| - 1];
      IncrementalEqualsOneShot(front);
      assert front + [e] == added;
      EvictAfterAdd(front, e);
    }
  }

  lemma EvictAfterAdd(front: seq<Entry>, e: Entry)
    ensures Enforced(Enforced(front) + [e]) == Enforced(front + [e])
  {
    hide Survivors, Tokens, CutFrom;
    var k, all := CutFrom(front, 0), front + [e];
    assert all[..k] == front[..k];
    SurvivorsSnoc(front, e, k);
    var s := Survivors(all, k);
    assert s == Enforced(front) + [e];
    var c, kept := CutFrom(s, 0), |Protected(all[..k])|;
    assert |s| == kept + |all| - k by { SurvivorCount(all, k); }
    assert forall j :: 0 <= j < k ==> Tokens(Survivors(all, j)) > MAX_TOKENS by {
      forall j | 0 <= j < k
        ensures Tokens(Survivors(all, j)) > MAX_TOKENS
      {
        SurvivorsSnoc(front, e, j);
      }
    }
    // Entries before `kept` are all protected, so a cut before it is as good as a cut at it.
    if c < kept {
      CutInsideKept(all, k, c);
      ShortestCutIsUnique(all, k, CutFrom(all, 0));
    } else {
      var m := k + (c - kept);
      forall j | k <= j < m
        ensures Tokens(Survivors(all, j)) > MAX_TOKENS
      {
        CutFurther(all, k, j);
      }
      CutFurther(all, k, m);
      ShortestCutIsUnique(all, m, CutFrom(all, 0));
    }
  }

  lemma SurvivorCount(items: seq<Entry>, k: nat)
    requires k <= |items|
    ensures |Survivors(items, k)| == |Protected(items[..k])| + |items| - k
  {
  }

  /** After any run: no protected entry was lost, arrival order is kept, the unprotected entries that are left
      are all that were added after the shortest cut, and the list is within the budget unless only protected
      entries are left. */
  lemma RunKeepsProtectedAndNewest(added: seq<Entry>) returns (cut: nat)
    ensures ShortestCut(added, cut) && Run(added) == Protected(added[..cut]) + added[cut..]
    ensures Protected(Run(added)) == Protected(added)
    ensures Tokens(Run(added)) <= MAX_TOKENS || forall e :: e in Run(added) ==> IsProtected(e)
  {
    IncrementalEqualsOneShot(added);
    cut := CutFrom(added, 0);
    KeptPrefix(added, cut, |added|);
    assert added[..|added|] == added && added[cut..|added|] == added[cut..];
  }

  type Lists = map<string, seq<Entry>>

  function ListOf(lists: Lists, session: string): seq<Entry>
  {
    if session in lists then lists[session] else []
  }

  class Store {
    var lists: Lists

    constructor ()
      ensures lists == map[]
    {
      lists := map[];
    }

    /** Appends the fragment and evicts; a missing session id is ignored. */
    method Add(session: string, f: Fragment)
      modifies this
      ensures session == "" ==> lists == old(lists)
      ensures session != "" ==> ListOf(lists, session) == Enforced(old(ListOf(lists, session)) + [ToEntry(f)])
      ensures forall k :: k != session ==> ListOf(lists, k) == old(ListOf(lists, k))
    {
      if session == "" {
        return;
      }
      lists := lists[session := ListOf(lists, session) + [ToEntry(f)]];
      EnforceBudget(session);
    }

    method EnforceBudget(key: string)
      requires key in lists
      modifies this
      ensures lists == old(lists)[key := Enforced(old(lists)[key])]
    {
      hide Survivors, Tokens, Filter;
      var items := lists[key];
      var total := Sum(items, Cost);
      NothingCut(items);
      var i, removed := 0, {};
      while i < |items| && total > MAX_TOKENS
        invariant lists == old(lists) && 0 <= i <= |items| && total == Tokens(Survivors(items, i))
        invariant forall j :: 0 <= j < i ==> Tokens(Survivors(items, j)) > MAX_TOKENS
        invariant forall j :: j in removed <==> 0 <= j < i && !IsProtected(items[j])
      {
        NextCut(items, i);
        if !IsProtected(items[i]) {
          total := total - items[i].tokens;
          removed := removed + {i};
        }
        i := i + 1;
      }
      ShortestCutIsUnique(items, i, CutFrom(items, 0));
      if removed != {} {
        var remaining := Without(items, removed, i);
        lists := lists[key := remaining];
      } else {
        assert forall j :: 0 <= j < i ==> j !in removed;
        NothingRemoved(items, i);
        assert lists == old(lists)[key := items];
      }
    }
  }

  lemma NothingCut(items: seq<Entry>)
    ensures Sum(items, Cost) == Tokens(Survivors(items, 0))
  {
    assert items[..0] == [] && Survivors(items, 0) == items;
  }

  lemma NothingRemoved(items: seq<Entry>, cut: nat)
    requires cut <= |items| && forall j :: 0 <= j < cut ==> IsProtected(items[j])
    ensures Survivors(items, cut) == items
  {
    AllProtected(items[..cut]);
    assert items[..cut] + items[cut..] == items;
  }

  method Without(items: seq<Entry>, removed: set<int>, ghost cut: nat) returns (r: seq<Entry>)
    requires cut <= |items| && forall j :: j in removed <==> 0 <= j < cut && !IsProtected(items[j])
    ensures r == Survivors(items, cut)
  {
    r := [];
    for j := 0 to |items|
      invariant r == Kept(items, cut, j)
    {
      KeptSnoc(items, cut, j);
      if j !in removed {
        r := r + [items[j]];
      }
    }
    assert items[..|items|] == items && items[cut..|items|] == items[cut..];
  }

  /** What stays of the first `j` entries when the unprotected ones before the cut go. */
  function Kept(items: seq<Entry>, cut: nat, j: nat): seq<Entry>
    requires cut <= |items| && j <= |items|
  {
    if j <= cut then Protected(items[..j]) else Protected(items[..cut]) + items[cut..j]
  }

  lemma KeptSnoc(items: seq<Entry>, cut: nat, j: nat)
    requires cut <= |items| && j < |items|
    ensures Kept(items, cut, j + 1)
            == Kept(items, cut, j) + if j >= cut || IsProtected(items[j]) then [items[j]] else []
  {
    if j < cut {
      assert items[..j + 1][..j] == items[..j];
    } else {
      assert items[cut..j + 1] == items[cut..j] + [items[j]];
    }
  }
}
