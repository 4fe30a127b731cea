/** The embedding worker: rows are embedded in batches; a batch error that names an input moves that row to the
    dead-letter queue and retries the rest, any other error falls back to single rows with retries. */
module EmbeddingWorker {
  import opened Collections
  import opened Chunking

  datatype Row = Row(id: string, content: Option<string>)

  /** An answer of the embedding service: so many vectors, an error naming an input, another error. */
  datatype Reply = Vectors(count: nat) | InvalidInput(index: nat) | OtherError

  /** The service, if it answers the same request the same way. `Attempts` below drops this. */
  type Service = seq<Row> -> Reply

  /** Whether the given attempt to embed a single row succeeds. */
  type SingleApi = (string, nat) -> bool

  // One batch: the rows go to the service in slices.

  const SLICE := 100

  function Slice(rows: seq<Row>): (r: seq<Row>)
    ensures |r| <= SLICE && r <= rows && (rows != [] ==> r != [])
  {
    if |rows| <= SLICE then rows else rows[..SLICE]
  }

  function Add(count: nat, r: Reply): Reply
  {
    if r.Vectors? then Vectors(count + r.count) else r
  }

  /** What a batch amounts to: all vectors, or the first error. An error names a position in its slice. */
  function Batch(rows: seq<Row>, service: Service): Reply
    decreases |rows|
  {
    if rows == [] then Vectors(0)
    else
      var slice := Slice(rows);
      match service(slice)
      case Vectors(n) => Add(n, Batch(rows[|slice|..], service))
      case r => r
  }

  method GenerateBatchEmbeddings(rows: seq<Row>, service: Service) returns (reply: Reply)
    ensures reply == Batch(rows, service)
  {
    var vectors: nat, i: nat := 0, 0;
    while i < |rows|
      invariant 0 <= i <= |rows| && Batch(rows, service) == Add(vectors, Batch(rows[i..], service))
    {
      var slice := Slice(rows[i..]);
      reply := service(slice);
      assert rows[i..][|slice|..] == rows[i + |slice|..];
      if !reply.Vectors? {
        return;
      }
      vectors := vectors + reply.count;
      i := i + |slice|;
    }
    reply := Vectors(vectors);
  }

  /** The slice that starts at row `i`. */
  function SliceFrom(rows: seq<Row>, i: nat): seq<Row>
    requires i <= |rows|
  {
    if |rows| - i <= SLICE then rows[i..] else rows[i..i + SLICE]
  }

  /** The slices of a batch start at every hundredth row. */
  predicate Starts(i: int, rows: seq<Row>)
  {
    0 <= i < |rows| && i % SLICE == 0
  }

  lemma NextSlice(rows: seq<Row>, at: nat, service: Service)
    requires at < |rows| && at % SLICE == 0
    ensures var slice := SliceFrom(rows, at); var next := at + |slice|;
      && at < next <= |rows| && (next == |rows| || next % SLICE == 0)
      && Batch(rows[at..], service)
         == if service(slice).Vectors? then Add(service(slice).count, Batch(rows[next..], service)) else service(slice)
  {
    var slice := Slice(rows[at..]);
    assert slice == SliceFrom(rows, at) && rows[at..][|slice|..] == rows[at + |slice|..];
  }

  lemma NoStartInside(rows: seq<Row>, at: nat, j: int)
    requires at < |rows| && at % SLICE == 0 && Starts(j, rows) && at < j
    ensures at + |SliceFrom(rows, at)| <= j
  {
  }

  /** All slices from row `at` on are answered with vectors. */
  ghost predicate AllVectors(rows: seq<Row>, at: nat, service: Service)
  {
    forall j :: Starts(j, rows) && at <= j ==> service(SliceFrom(rows, j)).Vectors?
  }

  /** And with one vector for each row. */
  ghost predicate AllComplete(rows: seq<Row>, at: nat, service: Service)
  {
    forall j :: Starts(j, rows) && at <= j ==> service(SliceFrom(rows, j)) == Vectors(|SliceFrom(rows, j)|)
  }

  /** The slice at `i` is the first that is not answered with vectors. */
  ghost predicate FirstOther(rows: seq<Row>, at: nat, i: int, service: Service)
  {
    && Starts(i, rows) && at <= i && !service(SliceFrom(rows, i)).Vectors?
    && forall j :: Starts(j, rows) && at <= j < i ==> service(SliceFrom(rows, j)).Vectors?
  }

  lemma {:induction false} SlicesFrom(rows: seq<Row>, at: nat, service: Service) returns (i: int)
    requires at <= |rows| && (at == |rows| || at % SLICE == 0)
    ensures Batch(rows[at..], service).Vectors? <==> AllVectors(rows, at, service)
    ensures !Batch(rows[at..], service).Vectors? ==>
              FirstOther(rows, at, i, service) && service(SliceFrom(rows, i)) == Batch(rows[at..], service)
    ensures AllComplete(rows, at, service) ==> Batch(rows[at..], service) == Vectors(|rows| - at)
    decreases |rows| - at
  {
    i := at;
    if at < |rows| {
      NextSlice(rows, at, service);
      var next := at + |SliceFrom(rows, at)|;
      hide Batch;
      assert Starts(at, rows);
      forall j | Starts(j, rows) && at < j
        ensures next <= j
      {
        NoStartInside(rows, at, j);
      }
      hide SliceFrom, Starts;
      var later := SlicesFrom(rows, next, service);
      if service(SliceFrom(rows, at)).Vectors? {
        i := later;
      }
    } else {
      assert rows[at..] == [];
    }
  }

  /** A batch gets vectors if and only if each slice of a hundred rows does, and otherwise the first other reply; from
      a service that answers each slice with one vector for each row it gets as many as it has rows. */
  lemma BatchOfSlices(rows: seq<Row>, service: Service)
    ensures Batch(rows, service).Vectors? <==> AllVectors(rows, 0, service)
    ensures !Batch(rows, service).Vectors? ==>
              exists i :: FirstOther(rows, 0, i, service) && service(SliceFrom(rows, i)) == Batch(rows, service)
    ensures AllComplete(rows, 0, service) ==> Batch(rows, service) == Vectors(|rows|)
  {
    hide Batch, SliceFrom, AllVectors, AllComplete, FirstOther;
    assert rows[0..] == rows;
    var i := SlicesFrom(rows, 0, service);
  }

  // Retrying without the named input.

  function Without(rows: seq<Row>, index: nat): seq<Row>
  {
    if index < |rows| then rows[..index] + rows[index + 1..] else rows
  }

  /** The batch after `n` retries, each without the input that was named. */
  function Retried(rows: seq<Row>, service: Service, n: nat): seq<Row>
  {
    if n == 0 then rows
    else
      var batch := Retried(rows, service, n - 1);
      match Batch(batch, service)
      case InvalidInput(i) => Without(batch, i)
      case _ => batch
  }

  predicate IsDone(rows: seq<Row>, service: Service) { !Batch(rows, service).InvalidInput? }

  /** An error that names an input names one of the batch. */
  predicate NamesInside(rows: seq<Row>, service: Service)
  {
    Batch(rows, service).InvalidInput? ==> Batch(rows, service).index < |rows|
  }

  /** No batch that is reached gets an index outside it. */
  ghost predicate Settles(rows: seq<Row>, service: Service)
  {
    forall n: nat :: NamesInside(Retried(rows, service, n), service)
  }

  ghost predicate Stops(rows: seq<Row>, service: Service)
  {
    exists n: nat :: IsDone(Retried(rows, service, n), service)
  }

  /** A batch that is done, or that gets an index outside it, is never changed by a retry. */
  lemma {:induction false} StaysAsItIs(rows: seq<Row>, service: Service, n: nat, m: nat)
    requires n <= m
    requires var b := Retried(rows, service, n); IsDone(b, service) || !NamesInside(b, service)
    ensures Retried(rows, service, m) == Retried(rows, service, n)
  {
    hide Batch;
    if n < m {
      StaysAsItIs(rows, service, n, m - 1);
    }
  }

  lemma {:induction false} EachRetryShrinks(rows: seq<Row>, service: Service, n: nat)
    requires Settles(rows, service) && forall m: nat :: m < n ==> !IsDone(Retried(rows, service, m), service)
    ensures |Retried(rows, service, n)| == |rows| - n
  {
    hide Batch;
    if n > 0 {
      EachRetryShrinks(rows, service, n - 1);
      assert NamesInside(Retried(rows, service, n - 1), service);
    }
  }

  /** With such a service the retries come to an end if and only if no batch on the way gets an index outside it. */
  lemma StopsIff(rows: seq<Row>, service: Service)
    ensures Stops(rows, service) <==> Settles(rows, service)
  {
    hide Batch, Retried, IsDone, NamesInside;
    if !Settles(rows, service) {
      var n: nat :| !NamesInside(Retried(rows, service, n), service);
      forall m: nat
        ensures !IsDone(Retried(rows, service, m), service)
      {
        NeverDone(rows, service, n, m);
      }
    } else if !Stops(rows, service) {
      EachRetryShrinks(rows, service, |rows| + 1);
    }
  }

  lemma NeverDone(rows: seq<Row>, service: Service, n: nat, m: nat)
    requires !NamesInside(Retried(rows, service, n), service)
    ensures !IsDone(Retried(rows, service, m), service)
  {
    hide Batch, Retried;
    if n <= m {
      StaysAsItIs(rows, service, n, m);
    } else if IsDone(Retried(rows, service, m), service) {
      StaysAsItIs(rows, service, m, n);
    }
  }

  /** The service as it answers each attempt: the same request may be answered differently the next time. */
  type Attempts = nat -> Service

  /** The batch of the attempt `n`, if all before it named an input. */
  function Attempted(rows: seq<Row>, attempts: Attempts, n: nat): seq<Row>
  {
    if n == 0 then rows
    else
      var batch := Attempted(rows, attempts, n - 1);
      match Batch(batch, attempts(n - 1))
      case InvalidInput(i) => Without(batch, i)
      case _ => batch
  }

  predicate Refused(rows: seq<Row>, attempts: Attempts, n: nat)
  {
    Batch(Attempted(rows, attempts, n), attempts(n)).InvalidInput?
  }

  predicate RefusedInside(rows: seq<Row>, attempts: Attempts, n: nat)
  {
    Refused(rows, attempts, n) && NamesInside(Attempted(rows, attempts, n), attempts(n))
  }

  /** How many of the first `n` attempts named an input of their batch. */
  function InsideReplies(rows: seq<Row>, attempts: Attempts, n: nat): nat
  {
    if n == 0 then 0
    else InsideReplies(rows, attempts, n - 1) + if RefusedInside(rows, attempts, n - 1) then 1 else 0
  }

  /** However the service answers, each such reply costs a row: a run that never ends has at most one for each row,
      and all its other replies name an index outside the batch. */
  lemma {:induction false} OneInsideReplyPerRow(rows: seq<Row>, attempts: Attempts, n: nat)
    ensures |Attempted(rows, attempts, n)| + InsideReplies(rows, attempts, n) == |rows|
  {
    hide Batch;
    if n > 0 {
      OneInsideReplyPerRow(rows, attempts, n - 1);
    }
  }

  lemma {:induction false} InsideFrom(rows: seq<Row>, attempts: Attempts, start: nat, n: nat)
    requires start <= n && forall m: nat :: start <= m < n ==> RefusedInside(rows, attempts, m)
    ensures InsideReplies(rows, attempts, n) >= n - start
  {
    hide RefusedInside;
    if start < n {
      InsideFrom(rows, attempts, start, n - 1);
    }
  }

  /** Once the indices stay inside their batches, the run ends after at most one more attempt for each row. */
  lemma EndsOnceInside(rows: seq<Row>, attempts: Attempts, start: nat)
    requires forall n: nat :: start <= n && Refused(rows, attempts, n) ==> RefusedInside(rows, attempts, n)
    ensures exists n: nat :: start <= n <= start + |rows| && !Refused(rows, attempts, n)
  {
    hide Refused, RefusedInside;
    if forall n: nat :: start <= n <= start + |rows| ==> Refused(rows, attempts, n) {
      InsideFrom(rows, attempts, start, start + |rows| + 1);
      OneInsideReplyPerRow(rows, attempts, start + |rows| + 1);
    }
  }

  lemma {:induction false} RetriedNext(rows: seq<Row>, service: Service, n: nat)
    requires Batch(rows, service).InvalidInput?
    ensures Retried(rows, service, n + 1) == Retried(Without(rows, Batch(rows, service).index), service, n)
  {
    hide Batch;
    if n == 0 {
      assert Retried(rows, service, 0) == rows;
    } else {
      RetriedNext(rows, service, n - 1);
    }
  }

  lemma SettlesNext(rows: seq<Row>, service: Service)
    requires Settles(rows, service) && Batch(rows, service).InvalidInput?
    ensures Batch(rows, service).index < |rows| && Settles(Without(rows, Batch(rows, service).index), service)
  {
    hide Batch;
    var rest := Without(rows, Batch(rows, service).index);
    assert NamesInside(Retried(rows, service, 0), service);
    forall n: nat
      ensures NamesInside(Retried(rest, service, n), service)
    {
      RetriedNext(rows, service, n);
      hide NamesInside;
    }
  }

  /** A service that names a position in the slice it was sent. */
  ghost predicate Honest(service: Service)
  {
    forall slice: seq<Row> :: service(slice).InvalidInput? ==> service(slice).index < |slice|
  }

  lemma {:induction false} HonestNamesInside(rows: seq<Row>, service: Service)
    requires Honest(service)
    ensures NamesInside(rows, service)
    decreases |rows|
  {
    if rows != [] {
      HonestNamesInside(rows[|Slice(rows)|..], service);
    }
  }

  /** Such a service lets the retries of every chunk come to an end. */
  lemma HonestSettles(rows: seq<Row>, service: Service)
    requires Honest(service)
    ensures Settles(rows, service) && Stops(rows, service)
  {
    hide Batch, NamesInside, Honest, Stops;
    forall n: nat
      ensures NamesInside(Retried(rows, service, n), service)
    {
      HonestNamesInside(Retried(rows, service, n), service);
    }
    StopsIff(rows, service);
  }

  // The effects of a chunk.

  /** What a run did: embeddings stored, `embedding_ready` events, dead letters, each in order. */
  datatype Effects = Effects(embedded: seq<string>, ready: seq<string>, dead: seq<string>)
  {
    function Then(later: Effects): Effects
    {
      Effects(embedded + later.embedded, ready + later.ready, dead + later.dead)
    }
  }

  const NOTHING := Effects([], [], [])

  function Ids(rows: seq<Row>): (r: seq<string>)
    ensures |r| == |rows| && forall i :: 0 <= i < |r| ==> r[i] == rows[i].id
  {
    if rows == [] then [] else Ids(rows[..|rows| - 1]) + [rows[|rows| - 1].id]
  }

  function One(id: string, single: SingleApi, retryLimit: nat): Effects
  {
    if Succeeds(id, single, retryLimit) then Effects([id], [id], []) else Effects([], [], [id])
  }

  /** One of the allowed attempts succeeds. */
  ghost predicate SomeAttempt(id: string, single: SingleApi, attempts: nat)
  {
    exists k: nat :: 1 <= k <= attempts && single(id, k)
  }

  predicate Succeeds(id: string, single: SingleApi, attempts: nat)
  {
    attempts > 0 && (Succeeds(id, single, attempts - 1) || single(id, attempts))
  }

  function Ones(rows: seq<Row>, single: SingleApi, retryLimit: nat): Effects
  {
    if rows == [] then NOTHING
    else Ones(rows[..|rows| - 1], single, retryLimit).Then(One(rows[|rows| - 1].id, single, retryLimit))
  }

  function Stored(rows: seq<Row>, vectors: nat): Effects
  {
    if vectors == 0 then NOTHING
    else Effects(Ids(rows)[..if vectors < |rows| then vectors else |rows|], Ids(rows), [])
  }

  function Chunk(rows: seq<Row>, service: Service, single: SingleApi, retryLimit: nat): Effects
    requires Settles(rows, service)
    decreases |rows|
  {
    match Batch(rows, service)
    case Vectors(n) => Stored(rows, n)
    case OtherError => Ones(rows, single, retryLimit)
    case InvalidInput(i) =>
      SettlesNext(rows, service);
      var letter := Effects([], [], [rows[i].id]);
      var remaining := Without(rows, i);
      if remaining == [] then letter else letter.Then(Chunk(remaining, service, single, retryLimit))
  }

  /** The batch that is left once the service names no further input. */
  function FinalBatch(rows: seq<Row>, service: Service): (r: seq<Row>)
    requires Settles(rows, service)
    ensures IsDone(r, service)
    decreases |rows|
  {
    match Batch(rows, service)
    case InvalidInput(i) =>
      SettlesNext(rows, service);
      FinalBatch(Without(rows, i), service)
    case _ => rows
  }

  /** The rows that are dead-lettered because of an index the service named, in order. */
  function Letters(rows: seq<Row>, service: Service): seq<Row>
    requires Settles(rows, service)
    decreases |rows|
  {
    match Batch(rows, service)
    case InvalidInput(i) =>
      SettlesNext(rows, service);
      [rows[i]] + Letters(Without(rows, i), service)
    case _ => []
  }

  /** The letters are, retry by retry, the rows that the service named, and the final batch is what the last retry
      leaves. */
  lemma {:induction false} LettersAreNamed(rows: seq<Row>, service: Service)
    requires Settles(rows, service)
    ensures FinalBatch(rows, service) == Retried(rows, service, |Letters(rows, service)|)
    ensures forall n :: 0 <= n < |Letters(rows, service)| ==> Names(rows, service, n, Letters(rows, service)[n])
    decreases |rows|
  {
    hide Batch, Retried, Names, IsDone;
    RetriedNone(rows, service);
    if Batch(rows, service).InvalidInput? {
      SettlesNext(rows, service);
      hide Settles;
      var rest := Without(rows, Batch(rows, service).index);
      LettersAreNamed(rest, service);
      var named, letters := Letters(rest, service), Letters(rows, service);
      RetriedNext(rows, service, |named|);
      assert letters[1..] == named && |letters| == |named| + 1;
      forall n | 1 <= n < |letters|
        ensures Names(rows, service, n, letters[n])
      {
        NamesNext(rows, service, n - 1, named[n - 1]);
      }
    }
  }

  lemma RetriedNone(rows: seq<Row>, service: Service)
    ensures Retried(rows, service, 0) == rows
    ensures Batch(rows, service).InvalidInput? && Batch(rows, service).index < |rows| ==>
              Names(rows, service, 0, rows[Batch(rows, service).index])
  {
    hide Batch;
  }

  lemma NamesNext(rows: seq<Row>, service: Service, n: nat, row: Row)
    requires Batch(rows, service).InvalidInput?
    requires Names(Without(rows, Batch(rows, service).index), service, n, row)
    ensures Names(rows, service, n + 1, row)
  {
    RetriedNext(rows, service, n);
    hide Batch, Retried;
  }

  /** The row that the reply to the `n`-th retry names. */
  predicate Names(rows: seq<Row>, service: Service, n: nat, row: Row)
  {
    var b := Retried(rows, service, n);
    Batch(b, service).InvalidInput? && Batch(b, service).index < |b| && b[Batch(b, service).index] == row
  }

  /** What becomes of a batch without named inputs. */
  function Outcome(rows: seq<Row>, service: Service, single: SingleApi, retryLimit: nat): Effects
  {
    match Batch(rows, service)
    case Vectors(n) => Stored(rows, n)
    case OtherError => Ones(rows, single, retryLimit)
    case InvalidInput(_) => NOTHING
  }

  lemma IdsAppend(a: seq<Row>, b: seq<Row>)
    ensures Ids(a + b) == Ids(a) + Ids(b)
  {
  }

  /** A chunk is its letters and then the outcome of the final batch: all of it if the service sends vectors, each
      row as its own attempts decide if it fails. */
  lemma {:induction false} ChunkIsLettersAndOutcome(
    rows: seq<Row>, service: Service, single: SingleApi, retryLimit: nat)
    requires Settles(rows, service)
    ensures Chunk(rows, service, single, retryLimit)
            == Effects([], [], Ids(Letters(rows, service))).Then(
                 Outcome(FinalBatch(rows, service), service, single, retryLimit))
    decreases |rows|
  {
    hide Batch;
    var e := Outcome(FinalBatch(rows, service), service, single, retryLimit);
    if Batch(rows, service).InvalidInput? {
      SettlesNext(rows, service);
      hide Settles;
      var i := Batch(rows, service).index;
      var remaining := Without(rows, i);
      ChunkIsLettersAndOutcome(remaining, service, single, retryLimit);
      IdsAppend([rows[i]], Letters(remaining, service));
      assert Ids([rows[i]]) == [rows[i].id];
      hide Outcome, Ids;
      if remaining == [] {
        NothingLeft(service, single, retryLimit);
      }
      ThenAssociates(Effects([], [], [rows[i].id]), Effects([], [], Ids(Letters(remaining, service))), e);
    } else {
      hide Outcome;
      assert Effects([], [], []).Then(e) == e;
    }
  }

  lemma NothingLeft(service: Service, single: SingleApi, retryLimit: nat)
    requires Settles([], service)
    ensures Chunk([], service, single, retryLimit) == NOTHING
  {
  }

  // Accounting.

  /** The service answers the final batch with fewer vectors than rows. */
  ghost predicate Short(rows: seq<Row>, service: Service)
    requires Settles(rows, service)
  {
    var last := FinalBatch(rows, service);
    Batch(last, service).Vectors? && Batch(last, service).count < |last|
  }

  /** Every id is embedded or dead-lettered, exactly as often as it occurs in `ids`. */
  ghost predicate Accounts(e: Effects, ids: seq<string>)
  {
    multiset(e.embedded) + multiset(e.dead) == multiset(ids)
  }

  /** How many rows were dealt with. */
  function Handled(e: Effects): nat { |e.embedded| + |e.dead| }

  lemma AccountsTogether(a: Effects, x: seq<string>, b: Effects, y: seq<string>)
    requires Accounts(a, x) && Accounts(b, y)
    ensures Accounts(a.Then(b), x + y)
  {
  }

  lemma AccountsCount(e: Effects, ids: seq<string>)
    requires Accounts(e, ids)
    ensures Handled(e) == |ids|
  {
    assert |multiset(e.embedded) + multiset(e.dead)| == Handled(e);
    assert |multiset(ids)| == |ids|;
  }

  lemma {:induction false} OnesPartition(rows: seq<Row>, single: SingleApi, retryLimit: nat)
    ensures var e := Ones(rows, single, retryLimit);
      e.ready == e.embedded && Accounts(e, Ids(rows))
  {
    if rows != [] {
      var front, last := rows[..|rows| - 1], rows[|rows| - 1];
      OnesPartition(front, single, retryLimit);
      AccountsTogether(Ones(front, single, retryLimit), Ids(front), One(last.id, single, retryLimit), [last.id]);
    }
  }

  lemma IdsWithout(rows: seq<Row>, i: nat)
    requires i < |rows|
    ensures multiset([rows[i].id]) + multiset(Ids(Without(rows, i))) == multiset(Ids(rows))
  {
    Whole(rows, i);
    hide *;
    IdsAround(rows[..i], rows[i], rows[i + 1..]);
  }

  lemma Whole(rows: seq<Row>, i: nat)
    requires i < |rows|
    ensures rows == rows[..i] + [rows[i]] + rows[i + 1..] && Without(rows, i) == rows[..i] + rows[i + 1..]
  {
  }

  lemma IdsAround(a: seq<Row>, x: Row, b: seq<Row>)
    ensures multiset([x.id]) + multiset(Ids(a + b)) == multiset(Ids(a + [x] + b))
  {
    IdsAppend(a, b);
    IdsAppend(a + [x], b);
    IdsAppend(a, [x]);
    assert Ids([x]) == [x.id];
    hide Ids;
    PutBack(Ids(a), x.id, Ids(b));
  }

  lemma PutBack(a: seq<string>, id: string, b: seq<string>)
    ensures multiset([id]) + multiset(a + b) == multiset(a + [id] + b)
  {
  }

  /** The letters and the final batch make up the chunk. */
  lemma {:induction false} LettersAndRest(rows: seq<Row>, service: Service)
    requires Settles(rows, service)
    ensures multiset(Ids(Letters(rows, service))) + multiset(Ids(FinalBatch(rows, service))) == multiset(Ids(rows))
    ensures |Letters(rows, service)| + |FinalBatch(rows, service)| == |rows|
    decreases |rows|
  {
    hide Batch, Ids;
    if Batch(rows, service).InvalidInput? {
      SettlesNext(rows, service);
      hide Settles;
      var i := Batch(rows, service).index;
      var remaining := Without(rows, i);
      LettersAndRest(remaining, service);
      IdsWithout(rows, i);
      IdsAppend([rows[i]], Letters(remaining, service));
      OneId(rows[i]);
    } else {
      NoIds();
    }
  }

  lemma OneId(row: Row)
    ensures Ids([row]) == [row.id]
  {
  }

  lemma NoIds()
    ensures Ids([]) == []
  {
  }

  lemma OutcomePartition(rows: seq<Row>, service: Service, single: SingleApi, retryLimit: nat)
    requires IsDone(rows, service)
    ensures var e, r := Outcome(rows, service, single, retryLimit), Batch(rows, service);
      var short := r.Vectors? && r.count < |rows|;
      && Handled(e) <= |rows| && |e.embedded| <= |e.ready|
      && (Handled(e) == |rows| <==> !short)
      && (!short ==> Accounts(e, Ids(rows)))
      && (|e.ready| == |e.embedded| <==> e.ready == e.embedded)
      && (e.ready == e.embedded <==> !short || r.count == 0)
  {
    hide Batch;
    match Batch(rows, service)
    case OtherError =>
      OnesPartition(rows, single, retryLimit);
      AccountsCount(Ones(rows, single, retryLimit), Ids(rows));
    case Vectors(n) =>
      assert n >= |rows| ==> Ids(rows)[..|rows|] == Ids(rows);
  }

  /** Every row of the chunk ends up embedded or dead-lettered, exactly once, and the events are those of the
      embedded rows, unless the service answers the final batch with too few vectors. Then rows are lost, and
      if it sent any vector at all, events also fire for rows that were not embedded. */
  lemma ChunkPartition(rows: seq<Row>, service: Service, single: SingleApi, retryLimit: nat)
    requires Settles(rows, service)
    ensures var e, last := Chunk(rows, service, single, retryLimit), FinalBatch(rows, service);
      && (Accounts(e, Ids(rows)) <==> !Short(rows, service))
      && (e.ready == e.embedded <==> !Short(rows, service) || Batch(last, service).count == 0)
  {
    ChunkBalance(rows, service, single, retryLimit);
    hide Chunk, FinalBatch, Batch, Settles, Ids, Short;
    if Accounts(Chunk(rows, service, single, retryLimit), Ids(rows)) {
      AccountsCount(Chunk(rows, service, single, retryLimit), Ids(rows));
    }
  }

  lemma ChunkBalance(rows: seq<Row>, service: Service, single: SingleApi, retryLimit: nat)
    requires Settles(rows, service)
    ensures var e, last := Chunk(rows, service, single, retryLimit), FinalBatch(rows, service);
      && Handled(e) <= |rows| && |e.embedded| <= |e.ready|
      && (Handled(e) == |rows| <==> !Short(rows, service))
      && (!Short(rows, service) ==> Accounts(e, Ids(rows)))
      && (|e.ready| == |e.embedded| <==> e.ready == e.embedded)
      && (e.ready == e.embedded <==> !Short(rows, service) || Batch(last, service).count == 0)
  {
    hide Batch, Settles, Ids, FinalBatch, Letters, Chunk, Outcome, IsDone;
    ChunkIsLettersAndOutcome(rows, service, single, retryLimit);
    LettersAndRest(rows, service);
    var letters, last := Letters(rows, service), FinalBatch(rows, service);
    OutcomePartition(last, service, single, retryLimit);
    var o := Outcome(last, service, single, retryLimit);
    if !Short(rows, service) {
      assert Accounts(o, Ids(last));
      assert multiset(Ids(letters) + o.dead) == multiset(Ids(letters)) + multiset(o.dead);
    }
  }

  lemma {:induction false} SucceedsIff(id: string, single: SingleApi, attempts: nat)
    ensures Succeeds(id, single, attempts) <==> SomeAttempt(id, single, attempts)
  {
    if attempts > 0 {
      SucceedsIff(id, single, attempts - 1);
      assert single(id, attempts) || !single(id, attempts);
    }
  }

  // Which rows are embedded and which are dead-lettered.

  ghost function Lucky(single: SingleApi, retryLimit: nat): Row -> bool
  {
    (r: Row) => SomeAttempt(r.id, single, retryLimit)
  }

  ghost function Unlucky(single: SingleApi, retryLimit: nat): Row -> bool
  {
    (r: Row) => !SomeAttempt(r.id, single, retryLimit)
  }

  /** What became of a chunk: dead-lettered are the named rows and then, if the final batch fails, those of it for
      which every attempt fails, in order; embedded are as many of the final batch as there are vectors, or, if it
      fails, those for which an attempt succeeds. */
  ghost predicate Decided(e: Effects, rows: seq<Row>, service: Service, single: SingleApi, retryLimit: nat)
    requires Settles(rows, service)
  {
    var letters, last := Letters(rows, service), FinalBatch(rows, service);
    match Batch(last, service)
    case Vectors(n) =>
      && e.dead == Ids(letters)
      && e.embedded == Ids(last[..if n < |last| then n else |last|])
      && e.ready == if n == 0 then [] else Ids(last)
    case OtherError =>
      && e.dead == Ids(letters) + Ids(Filter(last, Unlucky(single, retryLimit)))
      && e.embedded == e.ready == Ids(Filter(last, Lucky(single, retryLimit)))
    case InvalidInput(_) => false
  }

  lemma {:induction false} OnesDecided(rows: seq<Row>, single: SingleApi, retryLimit: nat)
    ensures var e := Ones(rows, single, retryLimit);
      && e.dead == Ids(Filter(rows, Unlucky(single, retryLimit)))
      && e.embedded == e.ready == Ids(Filter(rows, Lucky(single, retryLimit)))
  {
    if rows != [] {
      var front, last := rows[..|rows| - 1], rows[|rows| - 1];
      OnesDecided(front, single, retryLimit);
      SucceedsIff(last.id, single, retryLimit);
      hide SomeAttempt;
      IdsAppend(Filter(front, Lucky(single, retryLimit)), [last]);
      IdsAppend(Filter(front, Unlucky(single, retryLimit)), [last]);
      OneId(last);
      hide Ids;
    }
  }

  lemma IdsOfPrefix(rows: seq<Row>, n: nat)
    requires n <= |rows|
    ensures Ids(rows[..n]) == Ids(rows)[..n]
  {
  }

  /** This holds of every chunk, and says everything: order and number of embeddings, events and dead letters. */
  lemma ChunkIsDecided(rows: seq<Row>, service: Service, single: SingleApi, retryLimit: nat)
    requires Settles(rows, service)
    ensures Decided(Chunk(rows, service, single, retryLimit), rows, service, single, retryLimit)
  {
    hide Batch, Settles, Ids, FinalBatch, Letters, Chunk, Ones;
    ChunkIsLettersAndOutcome(rows, service, single, retryLimit);
    var letters, last := Letters(rows, service), FinalBatch(rows, service);
    match Batch(last, service)
    case Vectors(n) =>
      IdsOfPrefix(last, if n < |last| then n else |last|);
    case OtherError =>
      OnesDecided(last, single, retryLimit);
    case InvalidInput(_) =>
  }

  /** The row is embedded as part of the chunk. */
  ghost predicate EmbedsIn(id: string, rows: seq<Row>, service: Service, single: SingleApi, retryLimit: nat)
    requires Settles(rows, service)
  {
    var last := FinalBatch(rows, service);
    match Batch(last, service)
    case Vectors(n) => exists j :: 0 <= j < |last| && last[j].id == id && j < n
    case OtherError => SomeAttempt(id, single, retryLimit) && exists j :: 0 <= j < |last| && last[j].id == id
    case InvalidInput(_) => false
  }

  /** The row is dead-lettered as part of the chunk. */
  ghost predicate DiesIn(id: string, rows: seq<Row>, service: Service, single: SingleApi, retryLimit: nat)
    requires Settles(rows, service)
  {
    var letters, last := Letters(rows, service), FinalBatch(rows, service);
    || (exists j :: 0 <= j < |letters| && letters[j].id == id)
    || (Batch(last, service).OtherError? && !SomeAttempt(id, single, retryLimit)
        && exists j :: 0 <= j < |last| && last[j].id == id)
  }

  lemma InIds(rows: seq<Row>, id: string)
    ensures id in Ids(rows) <==> exists j :: 0 <= j < |rows| && rows[j].id == id
  {
  }

  lemma FilteredById(rows: seq<Row>, p: Row -> bool, id: string)
    requires forall r: Row, s: Row :: r.id == s.id ==> p(r) == p(s)
    ensures id in Ids(Filter(rows, p)) <==> exists j :: 0 <= j < |rows| && rows[j].id == id && p(rows[j])
  {
    InIds(Filter(rows, p), id);
    hide Ids;
    if j :| 0 <= j < |rows| && rows[j].id == id && p(rows[j]) {
      assert rows[j] in Filter(rows, p);
    }
    if i :| 0 <= i < |Filter(rows, p)| && Filter(rows, p)[i].id == id {
      assert Filter(rows, p)[i] in Filter(rows, p);
    }
  }

  lemma ChunkMembers(id: string, rows: seq<Row>, service: Service, single: SingleApi, retryLimit: nat)
    requires Settles(rows, service)
    ensures var e := Chunk(rows, service, single, retryLimit);
      && (id in e.embedded <==> EmbedsIn(id, rows, service, single, retryLimit))
      && (id in e.dead <==> DiesIn(id, rows, service, single, retryLimit))
  {
    hide Batch, Settles, Ids, FinalBatch, Letters, Chunk, SomeAttempt, Filter;
    ChunkIsDecided(rows, service, single, retryLimit);
    var letters, last := Letters(rows, service), FinalBatch(rows, service);
    InIds(letters, id);
    match Batch(last, service)
    case Vectors(n) =>
      InIds(last[..if n < |last| then n else |last|], id);
    case OtherError =>
      FilteredById(last, Lucky(single, retryLimit), id);
      FilteredById(last, Unlucky(single, retryLimit), id);
    case InvalidInput(_) =>
  }

  /** The id is embedded, or dead-lettered, exactly if that is what becomes of it in one of the chunks. */
  ghost predicate EndsAs(
    id: string, e: Effects, chunks: seq<seq<Row>>, service: Service, single: SingleApi, retryLimit: nat)
    requires AllSettle(chunks, service)
  {
    && (id in e.embedded <==> exists k :: 0 <= k < |chunks| && EmbedsIn(id, chunks[k], service, single, retryLimit))
    && (id in e.dead <==> exists k :: 0 <= k < |chunks| && DiesIn(id, chunks[k], service, single, retryLimit))
  }

  lemma {:induction false} ChunksMembers(
    id: string, chunks: seq<seq<Row>>, service: Service, single: SingleApi, retryLimit: nat)
    requires AllSettle(chunks, service)
    ensures EndsAs(id, Chunks(chunks, service, single, retryLimit), chunks, service, single, retryLimit)
  {
    hide Chunk, Settles, EmbedsIn, DiesIn;
    if chunks != [] {
      var front, last := chunks[..|chunks| - 1], chunks[|chunks| - 1];
      ChunksMembers(id, front, service, single, retryLimit);
      ChunkMembers(id, last, service, single, retryLimit);
      assert forall k :: 0 <= k < |front| ==> front[k] == chunks[k];
    }
  }

  // All chunks.

  ghost predicate AllSettle(chunks: seq<seq<Row>>, service: Service)
  {
    forall k :: 0 <= k < |chunks| ==> Settles(chunks[k], service)
  }

  function Chunks(chunks: seq<seq<Row>>, service: Service, single: SingleApi, retryLimit: nat): Effects
    requires AllSettle(chunks, service)
  {
    if chunks == [] then NOTHING
    else Chunks(chunks[..|chunks| - 1], service, single, retryLimit)
           .Then(Chunk(chunks[|chunks| - 1], service, single, retryLimit))
  }

  ghost predicate NoneShort(chunks: seq<seq<Row>>, service: Service)
    requires AllSettle(chunks, service)
  {
    forall k :: 0 <= k < |chunks| ==> !Short(chunks[k], service)
  }

  /** No chunk gets a reply that is too short but not empty. */
  ghost predicate NoneCutOff(chunks: seq<seq<Row>>, service: Service)
    requires AllSettle(chunks, service)
  {
    forall k :: 0 <= k < |chunks| ==>
      !Short(chunks[k], service) || Batch(FinalBatch(chunks[k], service), service).count == 0
  }

  lemma {:induction false} ChunksBalance(
    chunks: seq<seq<Row>>, service: Service, single: SingleApi, retryLimit: nat)
    requires AllSettle(chunks, service)
    ensures var e := Chunks(chunks, service, single, retryLimit);
      && Handled(e) <= |Flatten(chunks)| && |e.embedded| <= |e.ready|
      && (Handled(e) == |Flatten(chunks)| <==> NoneShort(chunks, service))
      && (NoneShort(chunks, service) ==> Accounts(e, Ids(Flatten(chunks))))
      && (|e.ready| == |e.embedded| <==> e.ready == e.embedded)
      && (e.ready == e.embedded <==> NoneCutOff(chunks, service))
  {
    hide Chunk, Ids, Short, Batch, Settles, FinalBatch, Accounts;
    if chunks == [] {
      NoIds();
      NothingAccounts();
    } else {
      var front, last := chunks[..|chunks| - 1], chunks[|chunks| - 1];
      ChunksBalance(front, service, single, retryLimit);
      ChunkBalance(last, service, single, retryLimit);
      IdsAppend(Flatten(front), last);
      var a, b := Chunks(front, service, single, retryLimit), Chunk(last, service, single, retryLimit);
      if NoneShort(front, service) && !Short(last, service) {
        AccountsTogether(a, Ids(Flatten(front)), b, Ids(last));
      }
      Longer(a.embedded, a.ready, b.embedded, b.ready);
    }
  }

  lemma NothingAccounts()
    ensures Accounts(NOTHING, [])
  {
  }

  lemma Longer(a: seq<string>, x: seq<string>, b: seq<string>, y: seq<string>)
    requires |a| <= |x| && |b| <= |y|
    requires (|x| == |a| <==> x == a) && (|y| == |b| <==> y == b)
    ensures x + y == a + b <==> x == a && y == b
    ensures |x + y| == |a + b| <==> x + y == a + b
  {
    if x + y == a + b {
      assert |x + y| == |x| + |y| && |a + b| == |a| + |b|;
    }
  }

  /** The same over all chunks: every row is accounted for if and only if no final reply is too short, and the
      events are those of the embedded rows if and only if each such reply is empty. */
  lemma ChunksPartition(chunks: seq<seq<Row>>, service: Service, single: SingleApi, retryLimit: nat)
    requires AllSettle(chunks, service)
    ensures var e := Chunks(chunks, service, single, retryLimit);
      && (Accounts(e, Ids(Flatten(chunks))) <==> NoneShort(chunks, service))
      && (e.ready == e.embedded <==> NoneCutOff(chunks, service))
  {
    ChunksBalance(chunks, service, single, retryLimit);
    hide Chunks, Ids, NoneShort, NoneCutOff, AllSettle;
    if Accounts(Chunks(chunks, service, single, retryLimit), Ids(Flatten(chunks))) {
      AccountsCount(Chunks(chunks, service, single, retryLimit), Ids(Flatten(chunks)));
    }
  }

  class Worker {
    const retryLimit: nat
    /** What has been stored, announced and dead-lettered so far. */
    var effects: Effects

    constructor (retryLimit: nat)
      ensures this.retryLimit == retryLimit && effects == NOTHING
    {
      this.retryLimit, effects := retryLimit, NOTHING;
    }

    method EmbedOne(row: Row, single: SingleApi)
      modifies this
      ensures SomeAttempt(row.id, single, retryLimit) ==>
                effects == old(effects).Then(Effects([row.id], [row.id], []))
      ensures !SomeAttempt(row.id, single, retryLimit) ==> effects == old(effects).Then(Effects([], [], [row.id]))
      ensures effects == old(effects).Then(One(row.id, single, retryLimit))
    {
      SucceedsIff(row.id, single, retryLimit);
      for attempt := 1 to retryLimit + 1
        invariant effects == old(effects) && !Succeeds(row.id, single, attempt - 1)
      {
        if single(row.id, attempt) {
          StillSucceeds(row.id, single, attempt, retryLimit);
          effects := effects.Then(Effects([row.id], [row.id], []));
          return;
        }
      }
      effects := effects.Then(Effects([], [], [row.id]));
    }

    /** Terminates exactly when the retries come to an end. */
    method EmbedChunk(rows: seq<Row>, service: Service, single: SingleApi)
      requires Settles(rows, service)
      modifies this
      ensures effects == old(effects).Then(Chunk(rows, service, single, retryLimit))
      decreases |rows|
    {
      hide Batch, Settles, Ids;
      var reply := GenerateBatchEmbeddings(rows, service);
      match reply
      case InvalidInput(badIdx) =>
        SettlesNext(rows, service);
        var remaining := Without(rows, badIdx);
        effects := effects.Then(Effects([], [], [rows[badIdx].id]));
        if |remaining| > 0 {
          EmbedChunk(remaining, service, single);
          ThenAssociates(old(effects), Effects([], [], [rows[badIdx].id]),
                         Chunk(remaining, service, single, retryLimit));
        }
      case OtherError =>
        ThenNothing(effects);
        assert rows[..0] == [];
        for i := 0 to |rows|
          invariant effects == old(effects).Then(Ones(rows[..i], single, retryLimit))
        {
          assert rows[..i + 1][..i] == rows[..i];
          EmbedOne(rows[i], single);
          ThenAssociates(old(effects), Ones(rows[..i], single, retryLimit), One(rows[i].id, single, retryLimit));
        }
        assert rows[..|rows|] == rows;
      case Vectors(n) =>
        if n == 0 {
          ThenNothing(effects);
          return;
        }
        effects := effects.Then(Effects(Ids(rows)[..if n < |rows| then n else |rows|], Ids(rows), []));
    }

    /** Every row with content ends up embedded or dead-lettered, exactly once, if and only if no batch gets too few
        vectors, with one event per embedded row; rows without content are passed over. The rows are sent in as
        few chunks as the caps allow. */
    method EmbedMany(rows: seq<Row>, nonBlank: Row -> bool, size: Row -> nat, service: Service, single: SingleApi)
      returns (ghost chunks: seq<seq<Row>>)
      requires ChunksSettle(Filter(rows, nonBlank), size, service)
      modifies this
      ensures Partition(chunks, Filter(rows, nonBlank), size, EMBED_CAPS)
      ensures forall other :: Partition(other, Filter(rows, nonBlank), size, EMBED_CAPS) ==> |chunks| <= |other|
      ensures AllSettle(chunks, service)
      ensures effects == old(effects).Then(Chunks(chunks, service, single, retryLimit))
      ensures var e := Chunks(chunks, service, single, retryLimit);
        && (Accounts(e, Ids(Filter(rows, nonBlank))) <==> NoneShort(chunks, service))
        && (e.ready == e.embedded <==> NoneCutOff(chunks, service))
        && forall id :: EndsAs(id, e, chunks, service, single, retryLimit)
    {
      hide *;
      var valid := Filter(rows, nonBlank);
      var parts := ChunksOf(valid, size);
      chunks := parts;
      CutSettles(chunks, valid, size, service);
      EmbedChunks(parts, service, single);
      ChunksPartition(chunks, service, single, retryLimit);
      forall id
        ensures EndsAs(id, Chunks(chunks, service, single, retryLimit), chunks, service, single, retryLimit)
      {
        ChunksMembers(id, chunks, service, single, retryLimit);
      }
    }

    /** Embeds the chunks one after another. */
    method EmbedChunks(parts: seq<seq<Row>>, service: Service, single: SingleApi)
      requires AllSettle(parts, service)
      modifies this
      ensures effects == old(effects).Then(Chunks(parts, service, single, retryLimit))
    {
      hide Batch, Settles, Ids, Chunk, Effects.Then;
      ThenNothing(effects);
      assert parts[..0] == [];
      for i := 0 to |parts|
        invariant effects == old(effects).Then(Chunks(parts[..i], service, single, retryLimit))
      {
        assert parts[..i + 1][..i] == parts[..i];
        EmbedChunk(parts[i], service, single);
        ThenAssociates(old(effects), Chunks(parts[..i], service, single, retryLimit),
                       Chunk(parts[i], service, single, retryLimit));
      }
      assert parts[..|parts|] == parts;
    }
  }

  method ChunksOf(rows: seq<Row>, size: Row -> nat) returns (chunks: seq<seq<Row>>)
    ensures Partition(chunks, rows, size, EMBED_CAPS) && Eager(chunks, size, EMBED_CAPS)
    ensures forall other :: Partition(other, rows, size, EMBED_CAPS) ==> |chunks| <= |other|
    ensures Flatten(chunks) == rows
  {
    chunks := Split(rows, size, EMBED_CAPS);
  }

  /** The retries of every chunk the rows are cut into come to an end. */
  ghost predicate ChunksSettle(rows: seq<Row>, size: Row -> nat, service: Service)
  {
    forall chunks :: Partition(chunks, rows, size, EMBED_CAPS) && Eager(chunks, size, EMBED_CAPS) ==>
      AllSettle(chunks, service)
  }

  lemma CutSettles(chunks: seq<seq<Row>>, rows: seq<Row>, size: Row -> nat, service: Service)
    requires ChunksSettle(rows, size, service)
    requires Partition(chunks, rows, size, EMBED_CAPS) && Eager(chunks, size, EMBED_CAPS)
    ensures AllSettle(chunks, service)
  {
  }

  lemma {:induction false} StillSucceeds(id: string, single: SingleApi, attempt: nat, attempts: nat)
    requires 0 < attempt <= attempts && single(id, attempt)
    ensures Succeeds(id, single, attempts)
  {
    if attempt < attempts {
      StillSucceeds(id, single, attempt, attempts - 1);
    }
  }

  lemma ThenAssociates(a: Effects, b: Effects, c: Effects)
    ensures a.Then(b).Then(c) == a.Then(b.Then(c))
  {
  }

  lemma ThenNothing(a: Effects)
    ensures a.Then(NOTHING) == a
  {
  }
}
