/** Any number of clients batch-insert into the table of one key at the same time. Each checks the quota in a
    transaction of its own, then again in the insert transaction under the row lock of the key; soft deletes
    happen at any moment and take no lock. */
module QuotaProtocol {
  import opened Collections
  import opened BatchRemember

  datatype Phase =
    | Idle
    | CheckingA(batch: seq<Fragment>)                            // phase A holds the row lock
    | CheckedA(batch: seq<Fragment>)                             // phase A committed; its answer may be stale
    | LockedB(batch: seq<Fragment>)                              // the insert transaction holds the row lock
    | Inserting(staged: seq<Fragment>, batch: seq<Fragment>)     // recounted and cut; some chunks are inserted

  type ClientId = nat

  /** The committed table, who holds the key's row lock, and where each client is; uncommitted inserts are
      visible to their own transaction only. */
  datatype State = State(table: Table, lock: Option<ClientId>, clients: map<ClientId, Phase>)

  datatype Action =
    | BeginA(c: ClientId, fragments: seq<Fragment>)
    | CheckA(c: ClientId)
    | BeginB(c: ClientId)
    | CheckB(c: ClientId)
    | InsertChunk(c: ClientId, rows: nat)
    | Commit(c: ClientId)
    | Abort(c: ClientId)
    | SoftDelete(hash: string)

  function PhaseOf(s: State, c: ClientId): Phase
  {
    if c in s.clients then s.clients[c] else Idle
  }

  function Goto(s: State, c: ClientId, p: Phase): State
  {
    s.(clients := s.clients[c := p])
  }

  function Release(s: State): State { s.(lock := None) }

  function Cut(table: Table, limit: nat, batch: seq<Fragment>): (r: seq<Fragment>)
    ensures r <= batch
  {
    batch[..Admitted(Limited(limit, |LiveRows(table)|), |batch|)]
  }

  /** When an action can be taken. The database grants the row lock to one transaction at a time. */
  predicate Enabled(s: State, a: Action)
  {
    match a
    case BeginA(c, _) => PhaseOf(s, c).Idle? && s.lock.None?
    case CheckA(c) => PhaseOf(s, c).CheckingA?
    case BeginB(c) => PhaseOf(s, c).CheckedA? && s.lock.None?
    case CheckB(c) => PhaseOf(s, c).LockedB?
    case InsertChunk(c, rows) => PhaseOf(s, c).Inserting? && 0 < rows <= |PhaseOf(s, c).batch|
    case Commit(c) => PhaseOf(s, c).Inserting? && PhaseOf(s, c).batch == []
    case Abort(c) => !PhaseOf(s, c).Idle?
    case SoftDelete(hash) => hash in s.table
  }

  function Step(s: State, a: Action, limit: nat): State
    requires Enabled(s, a)
  {
    match a
    case BeginA(c, fragments) => Goto(s, c, CheckingA(fragments)).(lock := Some(c))
    case CheckA(c) =>
      var cut := Cut(s.table, limit, PhaseOf(s, c).batch);
      Release(Goto(s, c, if cut == [] then Idle else CheckedA(cut)))
    case BeginB(c) => Goto(s, c, LockedB(PhaseOf(s, c).batch)).(lock := Some(c))
    case CheckB(c) =>
      var cut := Cut(s.table, limit, PhaseOf(s, c).batch);
      if cut == [] then Release(Goto(s, c, Idle)) else Goto(s, c, Inserting([], cut))
    case InsertChunk(c, rows) =>
      var p := PhaseOf(s, c);
      Goto(s, c, Inserting(p.staged + p.batch[..rows], p.batch[rows..]))
    case Commit(c) =>
      Release(Goto(s, c, Idle)).(table := UpsertAll(s.table, PhaseOf(s, c).staged))
    case Abort(c) => if PhaseOf(s, c).CheckedA? then Goto(s, c, Idle) else Release(Goto(s, c, Idle))
    case SoftDelete(hash) => s.(table := s.table[hash := s.table[hash].(live := false)])
  }

  function Live(s: State): nat { |LiveRows(s.table)| }

  predicate HoldsLock(p: Phase) { p.CheckingA? || p.LockedB? || p.Inserting? }

  /** The lock is held exactly by the client that is inside a locking transaction, and a client that is inserting
      still fits: what is live, what it has staged and what it has yet to insert stay within the limit together. */
  ghost predicate Inv(s: State, limit: nat)
  {
    && (forall c: ClientId :: HoldsLock(PhaseOf(s, c)) <==> s.lock == Some(c))
    && forall c: ClientId :: PhaseOf(s, c).Inserting? ==>
         Live(s) + |PhaseOf(s, c).staged| + |PhaseOf(s, c).batch| <= limit
  }

  lemma DeletingShrinks(t: Table, hash: string)
    requires hash in t
    ensures |LiveRows(t[hash := t[hash].(live := false)])| <= |LiveRows(t)|
  {
    var t' := t[hash := t[hash].(live := false)];
    assert LiveRows(t') <= LiveRows(t);
    SubsetIsSmaller(LiveRows(t'), LiveRows(t));
  }

  /** One step keeps the invariant, and the number of live fragments rises only up to the limit. */
  lemma StepKeeps(s: State, a: Action, limit: nat)
    requires Inv(s, limit) && Enabled(s, a)
    ensures Inv(Step(s, a, limit), limit)
    ensures Live(Step(s, a, limit)) <= Live(s) || Live(Step(s, a, limit)) <= limit
  {
    hide UpsertAll, LiveRows;
    var s' := Step(s, a, limit);
    match a {
      case Commit(c) =>
        UpsertAllAddsAtMost(s.table, PhaseOf(s, c).staged);
        assert HoldsLock(PhaseOf(s, c));
      case SoftDelete(hash) =>
        DeletingShrinks(s.table, hash);
      case _ =>
    }
    forall x: ClientId
      ensures HoldsLock(PhaseOf(s', x)) <==> s'.lock == Some(x)
      ensures PhaseOf(s', x).Inserting? ==> Live(s') + |PhaseOf(s', x).staged| + |PhaseOf(s', x).batch| <= limit
    {
      assert HoldsLock(PhaseOf(s, x)) <==> s.lock == Some(x);
    }
  }

  ghost predicate Run(s: State, actions: seq<Action>, limit: nat)
    decreases |actions|
  {
    actions == [] || (Enabled(s, actions[0]) && Run(Step(s, actions[0], limit), actions[1..], limit))
  }

  function After(s: State, actions: seq<Action>, limit: nat): State
    requires Run(s, actions, limit)
    decreases |actions|
  {
    if actions == [] then s else After(Step(s, actions[0], limit), actions[1..], limit)
  }

  /** Under every interleaving the number of live fragments never exceeds the larger of the limit and what was
      live at the start: once it is within the limit it stays there. */
  lemma {:induction false} QuotaIsNeverExceeded(s: State, actions: seq<Action>, limit: nat)
    requires Inv(s, limit) && Run(s, actions, limit)
    ensures Inv(After(s, actions, limit), limit)
    ensures Live(After(s, actions, limit)) <= Live(s) || Live(After(s, actions, limit)) <= limit
    decreases |actions|
  {
    if actions != [] {
      StepKeeps(s, actions[0], limit);
      hide Step, Inv, Enabled, Live;
      QuotaIsNeverExceeded(Step(s, actions[0], limit), actions[1..], limit);
    }
  }

  /** Before anything happens nobody holds the lock. */
  ghost predicate AllIdle(s: State)
  {
    s.lock.None? && forall c: ClientId :: PhaseOf(s, c).Idle?
  }

  /** From the start, and with a table within its limit, no interleaving ever takes the table above it. */
  lemma TheLimitHolds(s: State, actions: seq<Action>, limit: nat)
    requires AllIdle(s) && Live(s) <= limit && Run(s, actions, limit)
    ensures Live(After(s, actions, limit)) <= limit
  {
    hide Live, Run, After;
    QuotaIsNeverExceeded(s, actions, limit);
  }

  /** No two clients are inside an insert transaction at the same time. */
  lemma InsertsExcludeEachOther(s: State, actions: seq<Action>, limit: nat, c: ClientId, d: ClientId)
    requires Inv(s, limit) && Run(s, actions, limit)
    requires PhaseOf(After(s, actions, limit), c).Inserting? && PhaseOf(After(s, actions, limit), d).Inserting?
    ensures c == d
  {
    QuotaIsNeverExceeded(s, actions, limit);
  }

  /** The lock is never leaked: whoever holds it can go on without waiting for anybody, so no client waits for
      ever because of a client that keeps going. */
  lemma TheHolderCanGoOn(s: State, actions: seq<Action>, limit: nat, c: ClientId)
    requires Inv(s, limit) && Run(s, actions, limit) && After(s, actions, limit).lock == Some(c)
    ensures var t := After(s, actions, limit);
      Enabled(t, CheckA(c)) || Enabled(t, CheckB(c)) || Enabled(t, InsertChunk(c, 1)) || Enabled(t, Commit(c))
  {
    QuotaIsNeverExceeded(s, actions, limit);
    assert HoldsLock(PhaseOf(After(s, actions, limit), c));
    hide After, Run, Inv;
  }

  /** A committed batch is stored completely: each of its hashes has a row afterwards. */
  lemma CommitStoresAll(s: State, c: ClientId, limit: nat, i: nat)
    requires Enabled(s, Commit(c)) && i < |PhaseOf(s, c).staged|
    ensures PhaseOf(s, c).staged[i].hash in Step(s, Commit(c), limit).table
  {
    UpsertAllAddsAtMost(s.table, PhaseOf(s, c).staged);
  }

  /** Either check leaves the longest part of the batch that fits what is live at that time, and gives up if there is
      none. */
  lemma ChecksFit(s: State, a: Action, limit: nat)
    requires Enabled(s, a) && (a.CheckA? || a.CheckB?)
    ensures var batch, p := PhaseOf(s, a.c).batch, PhaseOf(Step(s, a, limit), a.c);
      if batch == [] || Live(s) >= limit then p.Idle?
      else
        && (if a.CheckA? then p.CheckedA? else p.Inserting? && p.staged == [])
        && p.batch != [] && p.batch <= batch && Live(s) + |p.batch| <= limit
        && (p.batch == batch || Live(s) + |p.batch| == limit)
  {
  }

  /** A soft delete of a live fragment makes room for exactly one, and touches no other row. */
  lemma DeletingMakesRoom(s: State, hash: string, limit: nat)
    requires hash in s.table && s.table[hash].live
    ensures var s' := Step(s, SoftDelete(hash), limit);
      && Live(s') + 1 == Live(s) && !s'.table[hash].live
      && s'.table.Keys == s.table.Keys && forall h :: h in s.table && h != hash ==> s'.table[h] == s.table[h]
  {
    var t := s.table[hash := s.table[hash].(live := false)];
    assert LiveRows(s.table) == LiveRows(t) + {hash};
  }

  /** Fragments with hashes of their own that the table does not have yet. */
  ghost predicate AllNew(t: Table, fragments: seq<Fragment>)
  {
    && (forall i :: 0 <= i < |fragments| ==> fragments[i].hash !in t)
    && forall i, j :: 0 <= i < j < |fragments| ==> fragments[i].hash != fragments[j].hash
  }

  lemma {:induction false} NewRowsCount(t: Table, fragments: seq<Fragment>)
    requires AllNew(t, fragments)
    ensures |LiveRows(UpsertAll(t, fragments))| == |LiveRows(t)| + |fragments|
    ensures forall h :: h in UpsertAll(t, fragments) ==>
              h in t || exists i :: 0 <= i < |fragments| && fragments[i].hash == h
  {
    if fragments != [] {
      var front, f := fragments[..|fragments| - 1], fragments[|fragments| - 1];
      NewRowsCount(t, front);
      var before := UpsertAll(t, front);
      hide UpsertAll, AllNew;
      assert f.hash !in before;
      OneMoreLive(before, f);
    }
  }

  lemma OneMoreLive(t: Table, f: Fragment)
    requires f.hash !in t
    ensures |LiveRows(t[f.hash := Row(f.id, true)])| == |LiveRows(t)| + 1
  {
    assert LiveRows(t[f.hash := Row(f.id, true)]) == LiveRows(t) + {f.hash};
  }

  /** What the insert transaction of one client does when nobody comes in between. */
  function Alone(s: State, c: ClientId, limit: nat): seq<Action>
    requires PhaseOf(s, c).CheckedA?
  {
    var rows := |Cut(s.table, limit, PhaseOf(s, c).batch)|;
    if rows == 0 then [BeginB(c), CheckB(c)] else [BeginB(c), CheckB(c), InsertChunk(c, rows), Commit(c)]
  }

  /** The quota is not wasted: a batch of new fragments that comes alone fills the key up to its limit, or is stored
      completely; a key at or above its limit gets nothing. */
  lemma AloneFillsTheQuota(s: State, c: ClientId, limit: nat)
    requires s.lock.None? && PhaseOf(s, c).CheckedA?
    requires AllNew(s.table, PhaseOf(s, c).batch)
    ensures Run(s, Alone(s, c, limit), limit)
    ensures var before, after := Live(s), Live(After(s, Alone(s, c, limit), limit));
      var wanted := before + |PhaseOf(s, c).batch|;
      after == if before >= limit then before else if wanted <= limit then wanted else limit
  {
    var cut := Cut(s.table, limit, PhaseOf(s, c).batch);
    AloneStoresTheCut(s, c, limit);
    PrefixIsNew(s.table, PhaseOf(s, c).batch, |cut|);
    NewRowsCount(s.table, cut);
    hide After, Run, Alone, LiveRows, UpsertAll, AllNew;
  }

  lemma AloneStoresTheCut(s: State, c: ClientId, limit: nat)
    requires s.lock.None? && PhaseOf(s, c).CheckedA?
    ensures Run(s, Alone(s, c, limit), limit)
    ensures After(s, Alone(s, c, limit), limit).table == UpsertAll(s.table, Cut(s.table, limit, PhaseOf(s, c).batch))
  {
    hide LiveRows, After, Run;
    var cut := Cut(s.table, limit, PhaseOf(s, c).batch);
    var s1 := Step(s, BeginB(c), limit);
    var s2 := Step(s1, CheckB(c), limit);
    if cut == [] {
      RunOfTwo(s, BeginB(c), CheckB(c), limit);
    } else {
      assert PhaseOf(s2, c) == Inserting([], cut);
      var s3 := Step(s2, InsertChunk(c, |cut|), limit);
      assert [] + cut[..|cut|] == cut && cut[|cut|..] == [];
      assert PhaseOf(s3, c) == Inserting(cut, []);
      RunOfFour(s, BeginB(c), CheckB(c), InsertChunk(c, |cut|), Commit(c), limit);
    }
  }

  lemma PrefixIsNew(t: Table, batch: seq<Fragment>, k: nat)
    requires AllNew(t, batch) && k <= |batch|
    ensures AllNew(t, batch[..k])
  {
  }

  lemma RunOfOne(s: State, a: Action, limit: nat)
    requires Enabled(s, a)
    ensures Run(s, [a], limit) && After(s, [a], limit) == Step(s, a, limit)
  {
    hide Step, Enabled;
    assert [a][1..] == [];
    assert Run(Step(s, a, limit), [], limit) && After(Step(s, a, limit), [], limit) == Step(s, a, limit);
  }

  lemma RunOfTwo(s: State, a: Action, b: Action, limit: nat)
    requires Enabled(s, a) && Enabled(Step(s, a, limit), b)
    ensures Run(s, [a, b], limit) && After(s, [a, b], limit) == Step(Step(s, a, limit), b, limit)
  {
    hide Step, Enabled;
    assert [a, b][1..] == [b];
    RunOfOne(Step(s, a, limit), b, limit);
    assert Run(s, [a, b], limit);
  }

  lemma RunOfFour(s: State, a: Action, b: Action, c: Action, d: Action, limit: nat)
    requires Enabled(s, a) && Enabled(Step(s, a, limit), b)
    requires Enabled(Step(Step(s, a, limit), b, limit), c)
    requires Enabled(Step(Step(Step(s, a, limit), b, limit), c, limit), d)
    ensures Run(s, [a, b, c, d], limit)
    ensures After(s, [a, b, c, d], limit) == Step(Step(Step(Step(s, a, limit), b, limit), c, limit), d, limit)
  {
    hide Step, Enabled;
    assert [a, b, c, d][1..] == [b, c, d] && [b, c, d][1..] == [c, d];
    var s1 := Step(s, a, limit);
    RunOfTwo(Step(s1, b, limit), c, d, limit);
    assert Run(s1, [b, c, d], limit);
    assert After(s1, [b, c, d], limit) == After(Step(s1, b, limit), [c, d], limit);
    assert Run(s, [a, b, c, d], limit);
  }

  lemma OneLiveRow(f: Fragment)
    ensures LiveRows(UpsertAll(map[], [f])) == {f.hash}
  {
    assert [f][..0] == [];
    assert UpsertAll(map[], [f]) == map[f.hash := Row(f.id, true)];
  }

  lemma TwoLiveRows(f: Fragment, g: Fragment)
    ensures LiveRows(UpsertAll(map[], [f, g])) == {f.hash, g.hash}
  {
    assert [f, g][..1] == [f] && [f][..0] == [];
    assert UpsertAll(map[], [f]) == map[f.hash := Row(f.id, true)];
  }

  /** The first check alone would not do: two clients can both have passed it with batches that each fit the limit,
      but, having different hashes, do not fit together. */
  lemma FirstCheckAloneIsNotEnough(f: Fragment, g: Fragment)
    ensures |LiveRows(UpsertAll(map[], [f]))| == |LiveRows(UpsertAll(map[], [g]))| == 1
    ensures |LiveRows(UpsertAll(map[], [f, g]))| > 1 <==> f.hash != g.hash
    ensures var s := State(map[], None, map[]);
      var actions := [BeginA(0, [f]), CheckA(0), BeginA(1, [g]), CheckA(1)];
      Run(s, actions, 1)
      && PhaseOf(After(s, actions, 1), 0) == CheckedA([f]) && PhaseOf(After(s, actions, 1), 1) == CheckedA([g])
  {
    OneLiveRow(f);
    OneLiveRow(g);
    TwoLiveRows(f, g);
    var s := State(map[], None, map[]);
    assert LiveRows(map[]) == {};
    var s1 := Step(s, BeginA(0, [f]), 1);
    var s2 := Step(s1, CheckA(0), 1);
    assert PhaseOf(s2, 0) == CheckedA([f]);
    var s3 := Step(s2, BeginA(1, [g]), 1);
    var s4 := Step(s3, CheckA(1), 1);
    assert PhaseOf(s4, 1) == CheckedA([g]) && PhaseOf(s4, 0) == CheckedA([f]);
    RunOfFour(s, BeginA(0, [f]), CheckA(0), BeginA(1, [g]), CheckA(1), 1);
    hide Step, Cut, LiveRows, Run, After, Enabled;
  }
}
