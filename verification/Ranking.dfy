/** Stable descending sort and first-appearance order, as the server gets them from `Array.sort` and from the
    insertion order of a `Map`. */
module Ranking {

  /** Inserts `x` behind every element whose key is at least its own. */
  function Insert<T>(s: seq<T>, x: T, key: T -> real): seq<T>
  {
    if s == [] || key(s[|s| - 1]) >= key(x) then s + [x]
    else Insert(s[..|s| - 1], x, key) + [s[|s| - 1]]
  }

  function SortDesc<T>(s: seq<T>, key: T -> real): seq<T>
  {
    if s == [] then [] else Insert(SortDesc(s[..|s| - 1], key), s[|s| - 1], key)
  }

  /** Descending by key, and ties in increasing order of `rank`. */
  ghost predicate Ordered<T>(s: seq<T>, key: T -> real, rank: T -> int)
  {
    forall i, j :: 0 <= i < j < |s| ==>
      key(s[i]) > key(s[j]) || (key(s[i]) == key(s[j]) && rank(s[i]) < rank(s[j]))
  }

  lemma {:induction false} InsertPermutes<T>(s: seq<T>, x: T, key: T -> real)
    ensures multiset(Insert(s, x, key)) == multiset(s) + multiset{x}
  {
    if s != [] {
      assert s == s[..|s| - 1] + [s[|s| - 1]];
      InsertPermutes(s[..|s| - 1], x, key);
    }
  }

  lemma {:induction false} SortPermutes<T>(s: seq<T>, key: T -> real)
    ensures multiset(SortDesc(s, key)) == multiset(s)
  {
    if s != [] {
      assert s == s[..|s| - 1] + [s[|s| - 1]];
      SortPermutes(s[..|s| - 1], key);
      InsertPermutes(SortDesc(s[..|s| - 1], key), s[|s| - 1], key);
    }
  }

  lemma {:induction false} InsertOrders<T>(s: seq<T>, x: T, key: T -> real, rank: T -> int)
    requires Ordered(s, key, rank) && forall i :: 0 <= i < |s| ==> rank(s[i]) < rank(x)
    ensures Ordered(Insert(s, x, key), key, rank)
  {
    if s != [] && key(s[|s| - 1]) < key(x) {
      var front, last := s[..|s| - 1], s[|s| - 1];
      InsertOrders(front, x, key, rank);
      InsertPermutes(front, x, key);
      var r := Insert(front, x, key);
      hide Insert;
      forall i | 0 <= i < |r|
        ensures key(r[i]) > key(last) || (key(r[i]) == key(last) && rank(r[i]) < rank(last))
      {
        assert r[i] in multiset(r);
        if r[i] != x {
          assert r[i] in multiset(front);
          var j :| 0 <= j < |front| && front[j] == r[i];
          assert s[j] == front[j];
        }
      }
    }
  }

  /** The sort is stable: however the input is numbered upwards, ties come out numbered upwards. */
  lemma {:induction false} SortIsStable<T>(s: seq<T>, key: T -> real, rank: T -> int)
    requires forall i, j :: 0 <= i < j < |s| ==> rank(s[i]) < rank(s[j])
    ensures Ordered(SortDesc(s, key), key, rank)
  {
    if s != [] {
      var front, last := s[..|s| - 1], s[|s| - 1];
      SortIsStable(front, key, rank);
      SortPermutes(front, key);
      var r := SortDesc(front, key);
      forall i | 0 <= i < |r|
        ensures rank(r[i]) < rank(last)
      {
        assert r[i] in multiset(r);
        assert r[i] in front;
      }
      InsertOrders(r, last, key, rank);
    }
  }

  ghost predicate Descends<T>(s: seq<T>, key: T -> real)
  {
    forall i, j :: 0 <= i < j < |s| ==> key(s[i]) >= key(s[j])
  }

  lemma {:induction false} InsertDescends<T>(s: seq<T>, x: T, key: T -> real)
    requires Descends(s, key)
    ensures Descends(Insert(s, x, key), key)
  {
    if s != [] && key(s[|s| - 1]) < key(x) {
      var front, last := s[..|s| - 1], s[|s| - 1];
      InsertDescends(front, x, key);
      InsertPermutes(front, x, key);
      var r := Insert(front, x, key);
      hide Insert;
      forall i | 0 <= i < |r|
        ensures key(r[i]) >= key(last)
      {
        assert r[i] in multiset(r);
        assert r[i] == x || r[i] in front;
      }
    }
  }

  /** Whatever repeats in the input, the result descends by key. */
  lemma {:induction false} SortDescends<T>(s: seq<T>, key: T -> real)
    ensures Descends(SortDesc(s, key), key)
  {
    if s != [] {
      SortDescends(s[..|s| - 1], key);
      InsertDescends(SortDesc(s[..|s| - 1], key), s[|s| - 1], key);
      hide Descends;
    }
  }

  /** An element that no other one exceeds and that stands first stays first. */
  lemma {:induction false} FirstStays<T>(s: seq<T>, key: T -> real)
    requires s != [] && forall i :: 0 <= i < |s| ==> key(s[0]) >= key(s[i])
    ensures SortDesc(s, key) != [] && SortDesc(s, key)[0] == s[0]
  {
    if |s| > 1 {
      FirstStays(s[..|s| - 1], key);
      InsertedBehind(SortDesc(s[..|s| - 1], key), s[|s| - 1], key);
    } else {
      assert SortDesc(s[..0], key) == [];
    }
  }

  lemma {:induction false} InsertedBehind<T>(s: seq<T>, x: T, key: T -> real)
    requires s != [] && key(s[0]) >= key(x)
    ensures Insert(s, x, key) != [] && Insert(s, x, key)[0] == s[0]
  {
    if key(s[|s| - 1]) < key(x) {
      InsertedBehind(s[..|s| - 1], x, key);
    }
  }

  /** The position of the first occurrence of `id`, or the length of `ids` if there is none. */
  function FirstIndex(ids: seq<string>, id: string): (p: nat)
    ensures p <= |ids|
    ensures forall i :: 0 <= i < p ==> ids[i] != id
    ensures p < |ids| ==> ids[p] == id
  {
    if ids == [] then 0
    else
      var p := FirstIndex(ids[..|ids| - 1], id);
      if p < |ids| - 1 then p else if ids[|ids| - 1] == id then p else p + 1
  }

  /** The distinct ids in order of first appearance: the keys of a `Map` filled from `ids`. */
  function Order(ids: seq<string>): seq<string>
  {
    if ids == [] then []
    else
      var front, last := ids[..|ids| - 1], ids[|ids| - 1];
      if last in front then Order(front) else Order(front) + [last]
  }

  lemma {:induction false} OrderByFirstAppearance(ids: seq<string>)
    ensures forall id :: id in Order(ids) <==> id in ids
    ensures forall i, j :: 0 <= i < j < |Order(ids)| ==>
              FirstIndex(ids, Order(ids)[i]) < FirstIndex(ids, Order(ids)[j])
  {
    if ids != [] {
      var front, last := ids[..|ids| - 1], ids[|ids| - 1];
      OrderByFirstAppearance(front);
      assert ids == front + [last];
      forall id | id in front
        ensures FirstIndex(ids, id) == FirstIndex(front, id) < |front|
      {
        FirstIndexFound(front, id);
      }
      forall i | 0 <= i < |Order(front)|
        ensures FirstIndex(ids, Order(front)[i]) == FirstIndex(front, Order(front)[i]) < |front|
      {
        assert Order(front)[i] in Order(front);
      }
      hide Order;
      if last !in front {
        assert FirstIndex(ids, last) == |front|;
      }
    }
  }

  lemma FirstIndexFound(ids: seq<string>, id: string)
    ensures id in ids <==> FirstIndex(ids, id) < |ids|
  {
  }

  lemma {:induction false} FirstIndexAppend(a: seq<string>, b: seq<string>, id: string)
    ensures FirstIndex(a + b, id)
            == if FirstIndex(a, id) < |a| then FirstIndex(a, id) else |a| + FirstIndex(b, id)
  {
    var p := FirstIndex(a + b, id);
    var q := if FirstIndex(a, id) < |a| then FirstIndex(a, id) else |a| + FirstIndex(b, id);
    forall i | 0 <= i < q
      ensures (a + b)[i] != id
    {
      if i >= |a| {
        assert (a + b)[i] == b[i - |a|];
      }
    }
    assert q < |a + b| ==> (a + b)[q] == id;
  }
}
