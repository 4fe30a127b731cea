/** Which rows end up as dead letters when the embedding service rejects some: the service names a position in the
    slice it was sent, the worker takes it for a position in the chunk. */
module EmbeddingBlame {
  import opened EmbeddingWorker

  function FirstBad(rows: seq<Row>, bad: Row -> bool): (p: nat)
    ensures p <= |rows| && (p < |rows| ==> bad(rows[p])) && forall i :: 0 <= i < p ==> !bad(rows[i])
  {
    if rows == [] || bad(rows[0]) then 0 else 1 + FirstBad(rows[1..], bad)
  }

  /** The service rejects a slice with a bad row, naming the first one, and embeds any other slice. */
  ghost predicate Rejects(service: Service, bad: Row -> bool)
  {
    forall slice: seq<Row> ::
      service(slice) == if FirstBad(slice, bad) < |slice| then InvalidInput(FirstBad(slice, bad)) else Vectors(|slice|)
  }

  lemma FirstBadIs(rows: seq<Row>, bad: Row -> bool, p: nat)
    requires p <= |rows| && (p < |rows| ==> bad(rows[p])) && forall i :: 0 <= i < p ==> !bad(rows[i])
    ensures FirstBad(rows, bad) == p
  {
  }

  lemma FirstBadBySlice(rows: seq<Row>, bad: Row -> bool)
    requires rows != []
    ensures var slice, p := Slice(rows), FirstBad(rows, bad);
      if p < |slice| then FirstBad(slice, bad) == p
      else FirstBad(slice, bad) == |slice| && p == |slice| + FirstBad(rows[|slice|..], bad)
  {
    var slice, p := Slice(rows), FirstBad(rows, bad);
    hide FirstBad, Slice;
    if p < |slice| {
      FirstBadIs(slice, bad, p);
    } else {
      FirstBadIs(slice, bad, |slice|);
      FirstBadIs(rows[|slice|..], bad, p - |slice|);
    }
  }

  /** The first slice decides, or the rest does. */
  lemma BySlice(rows: seq<Row>, service: Service, bad: Row -> bool)
    requires Rejects(service, bad) && rows != []
    ensures var slice, p := Slice(rows), FirstBad(rows, bad); var rest := rows[|slice|..];
      if p < |slice| then Batch(rows, service) == InvalidInput(p)
      else
        && p == |slice| + FirstBad(rest, bad)
        && Batch(rows, service) == Add(|slice|, Batch(rest, service))
  {
    hide FirstBad, Slice;
    FirstBadBySlice(rows, bad);
    assert service(Slice(rows)).InvalidInput? || service(Slice(rows)).Vectors?;
  }

  lemma InSlice(p: nat)
    ensures p % SLICE < SLICE
    ensures p < SLICE ==> p % SLICE == p
    ensures p >= SLICE ==> (p - SLICE) % SLICE == p % SLICE
  {
  }

  /** The index is the position of the first bad row counted from the start of its slice. */
  lemma {:induction false} BatchOfRejecting(rows: seq<Row>, service: Service, bad: Row -> bool)
    requires Rejects(service, bad)
    ensures var p := FirstBad(rows, bad);
      Batch(rows, service) == if p < |rows| then InvalidInput(p % SLICE) else Vectors(|rows|)
    decreases |rows|
  {
    hide FirstBad, Rejects;
    if rows == [] {
    } else {
      var slice, p := Slice(rows), FirstBad(rows, bad);
      BySlice(rows, service, bad);
      InSlice(p);
      if p >= |slice| {
        BatchOfRejecting(rows[|slice|..], service, bad);
        hide Batch;
      }
    }
  }

  lemma RejectingSettles(rows: seq<Row>, service: Service, bad: Row -> bool)
    requires Rejects(service, bad)
    ensures Settles(rows, service)
  {
    forall n: nat
      ensures NamesInside(Retried(rows, service, n), service)
    {
      BatchOfRejecting(Retried(rows, service, n), service, bad);
      hide Batch, Retried, FirstBad, Rejects;
    }
  }

  function CountBad(rows: seq<Row>, bad: Row -> bool): (n: nat)
    ensures n <= |rows|
  {
    if rows == [] then 0
    else CountBad(rows[..|rows| - 1], bad) + if bad(rows[|rows| - 1]) then 1 else 0
  }

  /** How many good rows stand before the last bad one. */
  function GoodBeforeLastBad(rows: seq<Row>, bad: Row -> bool): nat
  {
    if rows == [] then 0
    else
      var front := rows[..|rows| - 1];
      if bad(rows[|front|]) then |front| - CountBad(front, bad) else GoodBeforeLastBad(front, bad)
  }

  lemma Snoc(front: seq<Row>, last: Row, bad: Row -> bool)
    ensures CountBad(front + [last], bad) == CountBad(front, bad) + if bad(last) then 1 else 0
    ensures GoodBeforeLastBad(front + [last], bad)
            == if bad(last) then |front| - CountBad(front, bad) else GoodBeforeLastBad(front, bad)
  {
    assert (front + [last])[..|front|] == front;
  }

  lemma WithoutSnoc(rows: seq<Row>, i: nat)
    requires i < |rows|
    ensures var front, last := rows[..|rows| - 1], rows[|rows| - 1];
      && rows == front + [last] && (i < |front| ==> front[i] == rows[i])
      && Without(rows, i) == (if i < |front| then Without(front, i) + [last] else front)
      && (i < |front| ==> |Without(front, i)| == |front| - 1)
  {
    if i < |rows| - 1 {
      assert rows[i + 1..] == rows[i + 1..|rows| - 1] + [rows[|rows| - 1]];
    }
  }

  lemma {:induction false} CountWithout(rows: seq<Row>, bad: Row -> bool, i: nat)
    requires i < |rows|
    ensures CountBad(Without(rows, i), bad) == CountBad(rows, bad) - if bad(rows[i]) then 1 else 0
  {
    hide *;
    var front, last := rows[..|rows| - 1], rows[|rows| - 1];
    WithoutSnoc(rows, i);
    Snoc(front, last, bad);
    if i < |front| {
      CountWithout(front, bad, i);
      Snoc(Without(front, i), last, bad);
    }
  }

  /** Removing a row before a bad one lowers the number if and only if the row was good. */
  lemma {:induction false} GoodWithout(rows: seq<Row>, bad: Row -> bool, i: nat, j: nat)
    requires i < j < |rows| && bad(rows[j])
    ensures GoodBeforeLastBad(Without(rows, i), bad)
            == GoodBeforeLastBad(rows, bad) - if bad(rows[i]) then 0 else 1
  {
    hide *;
    var front, last := rows[..|rows| - 1], rows[|rows| - 1];
    WithoutSnoc(rows, i);
    Snoc(front, last, bad);
    Snoc(Without(front, i), last, bad);
    if bad(last) {
      CountWithout(front, bad, i);
    } else {
      GoodWithout(front, bad, i, j);
    }
  }

  lemma {:induction false} GoodAtMost(rows: seq<Row>, bad: Row -> bool, p: nat)
    requires forall i :: p < i < |rows| ==> !bad(rows[i])
    ensures GoodBeforeLastBad(rows, bad) <= p
  {
    if rows != [] {
      if !bad(rows[|rows| - 1]) {
        GoodAtMost(rows[..|rows| - 1], bad, p);
      }
    }
  }

  lemma {:induction false} GoodAtLeast(rows: seq<Row>, bad: Row -> bool, p: nat)
    requires p < |rows| && bad(rows[p]) && forall i :: 0 <= i < p ==> !bad(rows[i])
    ensures GoodBeforeLastBad(rows, bad) >= p
  {
    var front := rows[..|rows| - 1];
    if bad(rows[|front|]) {
      BadAtMost(front, bad, p);
    } else {
      GoodAtLeast(front, bad, p);
    }
  }

  lemma {:induction false} BadAtMost(rows: seq<Row>, bad: Row -> bool, p: nat)
    requires p <= |rows| && forall i :: 0 <= i < p ==> !bad(rows[i])
    ensures CountBad(rows, bad) <= |rows| - p
  {
    if |rows| > p {
      BadAtMost(rows[..|rows| - 1], bad, p);
    } else if rows != [] {
      BadAtMost(rows[..|rows| - 1], bad, p - 1);
    }
  }

  lemma {:induction false} NoneBad(rows: seq<Row>, bad: Row -> bool)
    requires forall i :: 0 <= i < |rows| ==> !bad(rows[i])
    ensures CountBad(rows, bad) == 0 && GoodBeforeLastBad(rows, bad) == 0
  {
    BadAtMost(rows, bad, |rows|);
    GoodAtMost(rows, bad, 0);
    if rows != [] {
      NoneBad(rows[..|rows| - 1], bad);
    }
  }

  /** Good rows that have to go before every bad row is in the first slice when its turn comes. */
  function Sacrificed(rows: seq<Row>, bad: Row -> bool): nat
  {
    if GoodBeforeLastBad(rows, bad) < SLICE then 0 else GoodBeforeLastBad(rows, bad) - (SLICE - 1)
  }

  ghost predicate AllBad(rows: seq<Row>, bad: Row -> bool)
  {
    forall i :: 0 <= i < |rows| ==> bad(rows[i])
  }

  /** Only bad rows are dead-lettered if and only if fewer than a slice of good rows stand before the last bad one;
      otherwise each good row beyond is dead-lettered as well. The bad rows all are. */
  lemma {:induction false} OnlyBadRowsDieIff(rows: seq<Row>, service: Service, bad: Row -> bool)
    requires Rejects(service, bad)
    ensures Settles(rows, service)
    ensures AllBad(Letters(rows, service), bad) <==> GoodBeforeLastBad(rows, bad) < SLICE
    ensures |Letters(rows, service)| == CountBad(rows, bad) + Sacrificed(rows, bad)
    ensures FirstBad(FinalBatch(rows, service), bad) == |FinalBatch(rows, service)|
    decreases |rows|
  {
    hide Batch, Settles, Rejects;
    RejectingSettles(rows, service, bad);
    BatchOfRejecting(rows, service, bad);
    var p := FirstBad(rows, bad);
    hide FirstBad;
    if p == |rows| {
      NoneBad(rows, bad);
    } else {
      var i := p % SLICE;
      var remaining := Without(rows, i);
      SettlesNext(rows, service);
      OnlyBadRowsDieIff(remaining, service, bad);
      var rest := Letters(remaining, service);
      assert Letters(rows, service) == [rows[i]] + rest;
      LettersCons(rows[i], rest, bad);
      hide Letters, FinalBatch, AllBad;
      CountWithout(rows, bad, i);
      Dwindles(rows, bad, p);
    }
  }

  lemma LettersCons(row: Row, rest: seq<Row>, bad: Row -> bool)
    ensures AllBad([row] + rest, bad) <==> bad(row) && AllBad(rest, bad)
  {
    assert ([row] + rest)[0] == row;
    assert forall i :: 0 <= i < |rest| ==> ([row] + rest)[i + 1] == rest[i];
  }

  /** The step: a good row goes as long as the first bad row is not in the first slice. */
  lemma Dwindles(rows: seq<Row>, bad: Row -> bool, p: nat)
    requires p < |rows| && bad(rows[p]) && forall i :: 0 <= i < p ==> !bad(rows[i])
    ensures var i := p % SLICE; var good, less := GoodBeforeLastBad(rows, bad), Without(rows, i);
      if p < SLICE then bad(rows[i]) && Sacrificed(less, bad) == Sacrificed(rows, bad)
                        && (GoodBeforeLastBad(less, bad) < SLICE <==> good < SLICE)
      else !bad(rows[i]) && good >= SLICE && Sacrificed(less, bad) == Sacrificed(rows, bad) - 1
  {
    hide GoodBeforeLastBad;
    InSlice(p);
    if p >= SLICE {
      GoodAtLeast(rows, bad, p);
      GoodWithout(rows, bad, p % SLICE, p);
    } else if j :| p < j < |rows| && bad(rows[j]) {
      GoodWithout(rows, bad, p, j);
    } else {
      GoodAtMost(rows, bad, p);
      GoodAtMost(Without(rows, p), bad, 0);
    }
  }

  lemma FirstLetter(rows: seq<Row>, service: Service, bad: Row -> bool)
    requires Rejects(service, bad) && FirstBad(rows, bad) < |rows|
    ensures Settles(rows, service)
    ensures var i := FirstBad(rows, bad) % SLICE;
      i < |rows| && Settles(Without(rows, i), service)
      && Letters(rows, service) == [rows[i]] + Letters(Without(rows, i), service)
  {
    hide Batch, Settles, Rejects, FirstBad;
    RejectingSettles(rows, service, bad);
    BatchOfRejecting(rows, service, bad);
    SettlesNext(rows, service);
  }

  /** With a full slice of good rows before a bad one, the first good row is dead-lettered before the bad one is. */
  lemma AGoodRowDies(goods: seq<Row>, last: Row, service: Service, bad: Row -> bool)
    requires Rejects(service, bad) && |goods| == SLICE && bad(last)
    requires forall i :: 0 <= i < |goods| ==> !bad(goods[i])
    ensures Settles(goods + [last], service)
    ensures Letters(goods + [last], service) == [goods[0], last]
  {
    hide Letters, Settles, Rejects, FirstBad;
    var rows, rest := goods + [last], goods[1..] + [last];
    FirstBadIs(rows, bad, SLICE);
    FirstLetter(rows, service, bad);
    assert Without(rows, 0) == rest;
    FirstBadIs(rest, bad, SLICE - 1);
    FirstLetter(rest, service, bad);
    assert Without(rest, SLICE - 1) == goods[1..];
    FirstBadIs(goods[1..], bad, SLICE - 1);
    NoLetters(goods[1..], service, bad);
  }

  lemma NoLetters(rows: seq<Row>, service: Service, bad: Row -> bool)
    requires Rejects(service, bad) && FirstBad(rows, bad) == |rows|
    ensures Settles(rows, service) && Letters(rows, service) == []
  {
    hide Batch, Settles, Rejects, FirstBad;
    RejectingSettles(rows, service, bad);
    BatchOfRejecting(rows, service, bad);
  }
}
