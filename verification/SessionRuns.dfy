/** What the two tiers promise together: they behave as one map that survives restarts. */
module SessionRuns {
  import opened Collections
  import opened Sessions

  datatype Event =
    | Created(id: string, auth: Auth, at: int)
    | Validated(id: string, at: int)
    | RotatedTo(id: string, newId: string, at: int)
    | Closed(id: string, at: int)
    | Suspended(id: string, at: int)
    | CleanedUp(at: int)
    | Restarted(at: int)

  /** What the caller of an event learns: the authorization of a validated or rotated session, if there is one. */
  function Step(cfg: Config, st: State, e: Event): (State, Option<Auth>)
  {
    match e
    case Created(id, auth, at) => (Create(cfg, st, id, auth, at), None)
    case Validated(id, at) => Validate(cfg, st, id, at)
    case RotatedTo(id, newId, at) =>
      var (st', r) := Rotate(cfg, st, id, newId, at);
      (st', if r.Rotated? && newId in st'.memory then Some(st'.memory[newId].auth) else None)
    case Closed(id, at) => (Close(cfg, st, id, false), None)
    case Suspended(id, at) => (Close(cfg, st, id, true), None)
    case CleanedUp(at) => (CleanUp(cfg, st, at), None)
    case Restarted(at) => (Restart(st), None)
  }

  // The simple form: one map, in which nothing is ever lost by a restart.

  type OneMap = map<string, Session>

  predicate Live(m: OneMap, id: string, now: int)
  {
    id in m && now <= m[id].expiresAt
  }

  function SimpleStep(cfg: Config, m: OneMap, e: Event): (OneMap, Option<Auth>)
  {
    match e
    case Created(id, auth, at) => (m[id := NewSession(cfg, auth, at)], None)
    case Validated(id, at) =>
      if Live(m, id, at) then (m[id := Touched(cfg, m[id], at)], Some(m[id].auth)) else (m - {id}, None)
    case RotatedTo(id, newId, at) =>
      if Live(m, id, at) then (m[newId := NewSession(cfg, m[id].auth, at)] - {id}, Some(m[id].auth))
      else (m - {id}, None)
    case Closed(id, at) => (m - {id}, None)
    case Suspended(id, at) => (m, None)
    case CleanedUp(at) => (m - Overdue(m, at), None)
    case Restarted(at) => (m, None)
  }

  /** The times to live agree: the session's is a whole number of seconds, at least a minute, and the one Redis
      is given at creation is the same. The defaults are of this kind. */
  predicate Aligned(cfg: Config)
  {
    cfg.redisEnabled && cfg.ttlMs == cfg.cacheTtlSec * 1000 && cfg.cacheTtlSec >= 60
  }

  /** For one id, at time `now`: the two tiers hold what the one map holds, as far as it is not expired. */
  ghost predicate SameAt(st: State, m: OneMap, id: string, now: int)
  {
    && (id in st.memory && now <= st.memory[id].expiresAt ==> id in m && st.memory[id] == m[id])
    && (Visible(st.redis, id, now) ==> id in m && st.redis[id] == Stored(m[id], m[id].expiresAt))
    && (Live(m, id, now) ==> Visible(st.redis, id, now))
    && (id in st.memory && Visible(st.redis, id, now) ==> st.memory[id] == st.redis[id].session)
  }

  ghost predicate Same(st: State, m: OneMap, now: int)
  {
    forall id :: SameAt(st, m, id, now)
  }

  /** A close reaches the session: it is in memory, or there is nothing left of it in Redis either. */
  predicate Reaches(st: State, e: Event)
  {
    e.Closed? ==> e.id in st.memory || !Visible(st.redis, e.id, e.at)
  }

  /** A rotation draws an id other than the one it replaces. */
  predicate Renames(e: Event)
  {
    e.RotatedTo? ==> e.newId != e.id
  }

  lemma CeilOfWhole(sec: nat)
    ensures CeilSeconds(sec * 1000) == sec
  {
  }

  lemma ValidatesAgree(cfg: Config, st: State, m: OneMap, id: string, at: int)
    requires Aligned(cfg) && Same(st, m, at)
    ensures var (st', a) := Validate(cfg, st, id, at); var (m', b) := SimpleStep(cfg, m, Validated(id, at));
      a == b && Same(st', m', at)
  {
    CeilOfWhole(cfg.cacheTtlSec);
    hide CeilSeconds;
    assert SameAt(st, m, id, at);
    if Live(m, id, at) {
      TouchedKeeps(cfg, st, m, id, at);
      hide Same, Validate;
    } else {
      var st' := Validate(cfg, st, id, at).0;
      forall x
        ensures SameAt(st', m - {id}, x, at)
      {
        assert SameAt(st, m, x, at);
      }
    }
  }

  /** Storing a session in both tiers, and in the one map. */
  function Put(cfg: Config, st: State, id: string, s: Session): State
  {
    State(st.memory[id := s], st.redis[id := Stored(s, s.expiresAt)])
  }

  lemma PutKeeps(cfg: Config, st: State, m: OneMap, id: string, s: Session, at: int)
    requires Same(st, m, at)
    ensures Same(Put(cfg, st, id, s), m[id := s], at)
  {
    var st', m' := Put(cfg, st, id, s), m[id := s];
    forall x
      ensures SameAt(st', m', x, at)
    {
      assert SameAt(st, m, x, at);
    }
  }

  lemma DropKeeps(st: State, m: OneMap, id: string, at: int)
    requires Same(st, m, at)
    ensures Same(State(st.memory - {id}, st.redis - {id}), m - {id}, at)
  {
    var st', m' := State(st.memory - {id}, st.redis - {id}), m - {id};
    forall x
      ensures SameAt(st', m', x, at)
    {
      assert SameAt(st, m, x, at);
    }
  }

  lemma TouchedKeeps(cfg: Config, st: State, m: OneMap, id: string, at: int)
    requires Aligned(cfg) && Same(st, m, at) && Live(m, id, at)
    ensures Validate(cfg, st, id, at) == (Put(cfg, st, id, Touched(cfg, m[id], at)), Some(m[id].auth))
    ensures Same(Put(cfg, st, id, Touched(cfg, m[id], at)), m[id := Touched(cfg, m[id], at)], at)
  {
    CeilOfWhole(cfg.cacheTtlSec);
    PutKeeps(cfg, st, m, id, Touched(cfg, m[id], at), at);
    assert SameAt(st, m, id, at);
    hide CeilSeconds, Same, SameAt;
    if id !in st.memory {
      var s := Touched(cfg, st.redis[id].session, at);
      var r := Restored(cfg, st, id, at);
      assert r == Put(cfg, st, id, s);
      assert Touched(cfg, s, at) == s;
      assert r.memory[id := s] == r.memory && r.redis[id := Stored(s, s.expiresAt)] == r.redis;
    }
  }

  lemma RotationsAgree(cfg: Config, st: State, m: OneMap, e: Event)
    requires Aligned(cfg) && Same(st, m, e.at) && e.RotatedTo? && Renames(e)
    ensures Step(cfg, st, e).1 == SimpleStep(cfg, m, e).1
    ensures Same(Step(cfg, st, e).0, SimpleStep(cfg, m, e).0, e.at)
  {
    assert SameAt(st, m, e.id, e.at);
    hide SameAt;
    if Live(m, e.id, e.at) {
      assert Existing(cfg, st, e.id, e.at) == Some(m[e.id]);
      var s := NewSession(cfg, m[e.id].auth, e.at);
      PutKeeps(cfg, st, m, e.newId, s, e.at);
      DropKeeps(Put(cfg, st, e.newId, s), m[e.newId := s], e.id, e.at);
      RotationMoves(cfg, st, e.id, e.newId, e.at);
      hide Same, Rotate;
    } else {
      DeadIsDropped(cfg, st, m, e.id, e.at);
      hide Same;
    }
  }

  /** Whatever is left of an expired session may be removed from memory, and the one map may forget it. */
  lemma DeadIsDropped(cfg: Config, st: State, m: OneMap, id: string, at: int)
    requires cfg.redisEnabled && Same(st, m, at) && !Live(m, id, at)
    ensures Same(st, m - {id}, at) && Same(Close(cfg, st, id, false), m - {id}, at)
  {
    forall x
      ensures SameAt(st, m - {id}, x, at) && SameAt(Close(cfg, st, id, false), m - {id}, x, at)
    {
      assert SameAt(st, m, x, at);
    }
  }

  /** Rotation moves the whole authorization to the new id and removes the old id from both tiers. */
  lemma RotationMoves(cfg: Config, st: State, id: string, newId: string, now: int)
    requires Aligned(cfg) && Existing(cfg, st, id, now).Some?
    requires now <= Existing(cfg, st, id, now).value.expiresAt
    ensures var s := NewSession(cfg, Existing(cfg, st, id, now).value.auth, now); var p := Put(cfg, st, newId, s);
      Rotate(cfg, st, id, newId, now)
      == (State(p.memory - {id}, p.redis - {id}), Rotated(s.expiresAt, s.auth.keyId, s.auth.workspace))
  {
    var s := NewSession(cfg, Existing(cfg, st, id, now).value.auth, now);
    var p := Put(cfg, st, newId, s);
    assert Create(cfg, st, newId, s.auth, now) == p;
    assert id !in p.memory ==> p.memory - {id} == p.memory;
  }

  lemma StepsAgree(cfg: Config, st: State, m: OneMap, e: Event)
    requires Aligned(cfg) && Same(st, m, e.at) && Reaches(st, e) && Renames(e)
    ensures Step(cfg, st, e).1 == SimpleStep(cfg, m, e).1
    ensures Same(Step(cfg, st, e).0, SimpleStep(cfg, m, e).0, e.at)
  {
    match e
    case Created(id, auth, at) =>
      PutKeeps(cfg, st, m, id, NewSession(cfg, auth, at), at);
      hide Same;
      assert Create(cfg, st, id, auth, at) == Put(cfg, st, id, NewSession(cfg, auth, at));
    case Validated(id, at) =>
      hide Validate, SimpleStep, Same;
      ValidatesAgree(cfg, st, m, id, at);
    case RotatedTo(_, _, _) =>
      hide *;
      RotationsAgree(cfg, st, m, e);
    case Closed(id, at) =>
      assert SameAt(st, m, id, at);
      if id in st.memory {
        DropKeeps(st, m, id, at);
      } else {
        DeadIsDropped(cfg, st, m, id, at);
      }
      hide Same;
    case _ =>
      MemoryOnly(cfg, st, m, e);
  }

  lemma MemoryOnly(cfg: Config, st: State, m: OneMap, e: Event)
    requires Aligned(cfg) && Same(st, m, e.at) && (e.Suspended? || e.CleanedUp? || e.Restarted?)
    ensures Step(cfg, st, e).1 == SimpleStep(cfg, m, e).1
    ensures Same(Step(cfg, st, e).0, SimpleStep(cfg, m, e).0, e.at)
  {
    forall x
      ensures SameAt(Step(cfg, st, e).0, SimpleStep(cfg, m, e).0, x, e.at)
    {
      assert SameAt(st, m, x, e.at);
    }
  }

  lemma TimePassesSame(st: State, m: OneMap, now: int, later: int)
    requires Same(st, m, now) && now <= later
    ensures Same(st, m, later)
  {
    forall x
      ensures SameAt(st, m, x, later)
    {
      assert SameAt(st, m, x, now);
    }
  }

  // Runs.

  ghost predicate Run(events: seq<Event>)
  {
    forall i, j :: 0 <= i < j < |events| ==> events[i].at <= events[j].at
  }

  function After(cfg: Config, events: seq<Event>): State
  {
    if events == [] then State(map[], map[])
    else Step(cfg, After(cfg, events[..|events| - 1]), events[|events| - 1]).0
  }

  function SimpleAfter(cfg: Config, events: seq<Event>): OneMap
  {
    if events == [] then map[]
    else SimpleStep(cfg, SimpleAfter(cfg, events[..|events| - 1]), events[|events| - 1]).0
  }

  /** Every close of the run reaches its session and every rotation draws another id. */
  ghost predicate Proper(cfg: Config, events: seq<Event>)
  {
    forall n :: 0 <= n < |events| ==>
      Reaches(After(cfg, events[..n]), events[n]) && Renames(events[n])
  }

  lemma ProperFront(cfg: Config, events: seq<Event>)
    requires events != [] && Proper(cfg, events) && Run(events)
    ensures Proper(cfg, events[..|events| - 1]) && Run(events[..|events| - 1])
    ensures var front, last := events[..|events| - 1], events[|events| - 1];
      Reaches(After(cfg, front), last) && Renames(last)
  {
    var front := events[..|events| - 1];
    forall n | 0 <= n < |front|
      ensures Reaches(After(cfg, front[..n]), front[n]) && Renames(front[n])
    {
      assert front[..n] == events[..n];
    }
  }

  lemma {:induction false} RunsStaySame(cfg: Config, events: seq<Event>, now: int)
    requires Aligned(cfg) && Run(events) && Proper(cfg, events)
    requires events != [] ==> events[|events| - 1].at <= now
    ensures Same(After(cfg, events), SimpleAfter(cfg, events), now)
  {
    if events != [] {
      var front, e := events[..|events| - 1], events[|events| - 1];
      ProperFront(cfg, events);
      hide Same, Step, SimpleStep, Proper;
      RunsStaySame(cfg, front, e.at);
      StepsAgree(cfg, After(cfg, front), SimpleAfter(cfg, front), e);
      TimePassesSame(After(cfg, events), SimpleAfter(cfg, events), e.at, now);
    }
  }

  /** Over every run of creations, validations, rotations, closes, shutdowns, clean-ups and restarts, in any
      order, each answer is the one that a single map without restarts would give. */
  lemma TwoTiersAreOneMap(cfg: Config, events: seq<Event>, e: Event)
    requires Aligned(cfg) && Run(events + [e]) && Proper(cfg, events + [e])
    ensures Step(cfg, After(cfg, events), e).1 == SimpleStep(cfg, SimpleAfter(cfg, events), e).1
  {
    var all := events + [e];
    ProperFront(cfg, all);
    assert all[..|all| - 1] == events;
    assert events != [] ==> all[|events| - 1] == events[|events| - 1];
    hide Step, SimpleStep, Same;
    RunsStaySame(cfg, events, e.at);
    StepsAgree(cfg, After(cfg, events), SimpleAfter(cfg, events), e);
  }

  // The settings under which no restart is ever noticed.

  function Continue(cfg: Config, st: State, events: seq<Event>): State
    decreases |events|
  {
    if events == [] then st else Continue(cfg, Step(cfg, st, events[0]).0, events[1..])
  }

  /** Every close of the continuation reaches its session. */
  ghost predicate ClosesReach(cfg: Config, st: State, events: seq<Event>)
    decreases |events|
  {
    events == [] || (Reaches(st, events[0]) && ClosesReach(cfg, Step(cfg, st, events[0]).0, events[1..]))
  }

  /** After a run, and after whatever follows, the answer to an event does not depend on whether the memory was
      lost at the end of the run. */
  ghost predicate Unnoticed(cfg: Config, events: seq<Event>, more: seq<Event>, e: Event)
  {
    var st := After(cfg, events);
    Step(cfg, Continue(cfg, Restart(st), more), e).1 == Step(cfg, Continue(cfg, st, more), e).1
  }

  /** No restart of any run shows in any later answer, as long as closes reach their sessions. */
  ghost predicate RestartsGoUnnoticed(cfg: Config)
  {
    forall events: seq<Event>, more: seq<Event>, e: Event ::
      Run(events + more + [e]) && ClosesReach(cfg, Restart(After(cfg, events)), more) ==>
        Unnoticed(cfg, events, more, e)
  }

  /** Every session in memory has a Redis entry that lives exactly as long. */
  ghost predicate Tied(st: State)
  {
    forall id :: id in st.memory ==>
      id in st.redis && st.redis[id] == Stored(st.memory[id], st.memory[id].expiresAt)
  }

  lemma PutKeepsTied(cfg: Config, st: State, id: string, s: Session)
    requires Tied(st)
    ensures Tied(Put(cfg, st, id, s))
  {
  }

  lemma ValidateKeepsTied(cfg: Config, st: State, id: string, at: int)
    requires Aligned(cfg) && Tied(st)
    ensures Tied(Validate(cfg, st, id, at).0)
  {
    CeilOfWhole(cfg.cacheTtlSec);
    hide CeilSeconds;
  }

  lemma RotateKeepsTied(cfg: Config, st: State, id: string, newId: string, at: int)
    requires Aligned(cfg) && Tied(st)
    ensures Tied(Rotate(cfg, st, id, newId, at).0)
  {
    var existing := Existing(cfg, st, id, at);
    if existing.Some? && at <= existing.value.expiresAt {
      RotationMoves(cfg, st, id, newId, at);
      PutKeepsTied(cfg, st, newId, NewSession(cfg, existing.value.auth, at));
      hide Rotate;
    }
  }

  lemma StepKeepsTied(cfg: Config, st: State, e: Event)
    requires Aligned(cfg) && Tied(st)
    ensures Tied(Step(cfg, st, e).0)
  {
    match e
    case Created(id, auth, at) =>
      PutKeepsTied(cfg, st, id, NewSession(cfg, auth, at));
      hide Tied;
      assert Create(cfg, st, id, auth, at) == Put(cfg, st, id, NewSession(cfg, auth, at));
    case Validated(id, at) =>
      hide Validate, Tied;
      ValidateKeepsTied(cfg, st, id, at);
    case RotatedTo(id, newId, at) =>
      hide Rotate, Tied;
      RotateKeepsTied(cfg, st, id, newId, at);
    case _ =>
  }

  lemma {:induction false} RunKeepsTied(cfg: Config, events: seq<Event>)
    requires Aligned(cfg)
    ensures Tied(After(cfg, events))
  {
    if events != [] {
      hide Step, Tied, Aligned;
      RunKeepsTied(cfg, events[..|events| - 1]);
      StepKeepsTied(cfg, After(cfg, events[..|events| - 1]), events[|events| - 1]);
    }
  }

  /** `b` is what `a` would be had its memory been lost at some time before `now`. */
  ghost predicate Behind(b: State, a: State, now: int)
  {
    && Tied(a) && Tied(b) && b.memory.Keys <= a.memory.Keys
    && forall id :: SameEntry(b, a, id, now)
  }

  predicate SameEntry(b: State, a: State, id: string, now: int)
  {
    && (Visible(b.redis, id, now) <==> Visible(a.redis, id, now))
    && (Visible(a.redis, id, now) ==> b.redis[id] == a.redis[id])
  }

  lemma BehindLater(b: State, a: State, now: int, later: int)
    requires Behind(b, a, now) && now <= later
    ensures Behind(b, a, later)
  {
    hide Tied;
    forall id
      ensures SameEntry(b, a, id, later)
    {
      assert SameEntry(b, a, id, now);
    }
  }

  /** For one id, the two states have the same session or none. */
  lemma SameSession(cfg: Config, b: State, a: State, id: string, now: int)
    requires cfg.redisEnabled && Behind(b, a, now)
    ensures SameEntry(b, a, id, now)
    ensures id in b.memory ==> id in a.memory
    ensures id in a.memory && now <= a.memory[id].expiresAt ==> Visible(a.redis, id, now)
    ensures id in b.memory && now <= b.memory[id].expiresAt ==> Visible(b.redis, id, now)
    ensures Visible(a.redis, id, now) && id in a.memory ==>
              a.redis[id] == Stored(a.memory[id], a.memory[id].expiresAt)
    ensures Visible(b.redis, id, now) && id in b.memory ==>
              b.redis[id] == Stored(b.memory[id], b.memory[id].expiresAt)
  {
    assert SameEntry(b, a, id, now);
  }

  lemma BehindPut(cfg: Config, b: State, a: State, id: string, s: Session, now: int)
    requires Behind(b, a, now)
    ensures Behind(Put(cfg, b, id, s), Put(cfg, a, id, s), now)
  {
    PutKeepsTied(cfg, a, id, s);
    PutKeepsTied(cfg, b, id, s);
    hide Tied;
    forall x
      ensures SameEntry(Put(cfg, b, id, s), Put(cfg, a, id, s), x, now)
    {
      assert SameEntry(b, a, x, now);
    }
  }

  function Drop(st: State, id: string): State
  {
    State(st.memory - {id}, st.redis - {id})
  }

  lemma BehindDrop(b: State, a: State, id: string, now: int)
    requires Behind(b, a, now)
    ensures Behind(Drop(b, id), Drop(a, id), now)
  {
    forall x
      ensures SameEntry(Drop(b, id), Drop(a, id), x, now)
    {
      assert SameEntry(b, a, x, now);
    }
  }

  /** Closing what has expired, or what a close reaches, in each state as far as it is there. */
  lemma BehindClose(cfg: Config, b: State, a: State, id: string, now: int)
    requires cfg.redisEnabled && Behind(b, a, now) && (id in b.memory || !Visible(b.redis, id, now))
    ensures Behind(Close(cfg, b, id, false), Close(cfg, a, id, false), now)
  {
    hide Tied;
    CloseKeepsTied(cfg, a, id);
    CloseKeepsTied(cfg, b, id);
    var b', a' := Close(cfg, b, id, false), Close(cfg, a, id, false);
    assert SameEntry(b, a, id, now);
    forall x
      ensures SameEntry(b', a', x, now)
    {
      assert SameEntry(b, a, x, now);
    }
  }

  lemma CloseKeepsTied(cfg: Config, st: State, id: string)
    requires Tied(st)
    ensures Tied(Close(cfg, st, id, false))
  {
  }

  /** What a validation does in a tied state: put the touched session, or close what is left. */
  lemma ValidateTied(cfg: Config, st: State, id: string, at: int)
    requires Aligned(cfg) && Tied(st)
    ensures Validate(cfg, st, id, at)
            == if Visible(st.redis, id, at)
               then (Put(cfg, st, id, Touched(cfg, st.redis[id].session, at)), Some(st.redis[id].session.auth))
               else (Close(cfg, st, id, false), None)
  {
    CeilOfWhole(cfg.cacheTtlSec);
    hide CeilSeconds;
    if Visible(st.redis, id, at) {
      var s := Touched(cfg, st.redis[id].session, at);
      if id in st.memory {
        assert st.memory[id] == st.redis[id].session;
      } else {
        assert Restored(cfg, st, id, at) == Put(cfg, st, id, s) && Touched(cfg, s, at) == s;
        assert Put(cfg, Put(cfg, st, id, s), id, s) == Put(cfg, st, id, s);
      }
    }
  }

  lemma StepsStayBehind(cfg: Config, b: State, a: State, e: Event)
    requires Aligned(cfg) && Behind(b, a, e.at) && Reaches(b, e)
    ensures Step(cfg, b, e).1 == Step(cfg, a, e).1
    ensures Behind(Step(cfg, b, e).0, Step(cfg, a, e).0, e.at)
  {
    match e
    case Created(id, auth, at) =>
      hide Behind;
      BehindPut(cfg, b, a, id, NewSession(cfg, auth, at), at);
      assert Create(cfg, b, id, auth, at) == Put(cfg, b, id, NewSession(cfg, auth, at));
      assert Create(cfg, a, id, auth, at) == Put(cfg, a, id, NewSession(cfg, auth, at));
    case Validated(id, at) =>
      ValidationsStayBehind(cfg, b, a, id, at);
      hide *;
      assert Step(cfg, b, e) == Validate(cfg, b, id, at) && Step(cfg, a, e) == Validate(cfg, a, id, at) by {
        StepOfValidated(cfg, a, id, at);
        StepOfValidated(cfg, b, id, at);
      }
    case RotatedTo(id, newId, at) =>
      hide Behind, Rotate;
      RotationsStayBehind(cfg, b, a, id, newId, at);
    case Closed(id, at) =>
      hide Behind;
      BehindClose(cfg, b, a, id, at);
    case _ =>
      OthersStayBehind(cfg, b, a, e);
  }

  lemma StepOfValidated(cfg: Config, st: State, id: string, at: int)
    ensures Step(cfg, st, Validated(id, at)) == Validate(cfg, st, id, at)
  {
  }

  lemma ValidationsStayBehind(cfg: Config, b: State, a: State, id: string, at: int)
    requires Aligned(cfg) && Behind(b, a, at)
    ensures Validate(cfg, b, id, at).1 == Validate(cfg, a, id, at).1
    ensures Behind(Validate(cfg, b, id, at).0, Validate(cfg, a, id, at).0, at)
  {
    SameSession(cfg, b, a, id, at);
    ValidateTied(cfg, a, id, at);
    ValidateTied(cfg, b, id, at);
    hide Behind, Validate;
    if Visible(a.redis, id, at) {
      BehindPut(cfg, b, a, id, Touched(cfg, a.redis[id].session, at), at);
    } else {
      BehindClose(cfg, b, a, id, at);
    }
  }

  lemma RotationsStayBehind(cfg: Config, b: State, a: State, id: string, newId: string, at: int)
    requires Aligned(cfg) && Behind(b, a, at)
    ensures var (b', r) := Rotate(cfg, b, id, newId, at); var (a', s) := Rotate(cfg, a, id, newId, at);
      && Behind(b', a', at) && (r.Rotated? <==> s.Rotated?)
      && (r.Rotated? ==> (newId in b'.memory <==> newId in a'.memory))
      && (r.Rotated? && newId in b'.memory ==> b'.memory[newId] == a'.memory[newId])
  {
    SameSession(cfg, b, a, id, at);
    hide Behind;
    if Visible(a.redis, id, at) {
      assert Existing(cfg, a, id, at) == Some(a.redis[id].session) == Existing(cfg, b, id, at);
      var old' := a.redis[id].session;
      if at <= old'.expiresAt {
        var s := NewSession(cfg, old'.auth, at);
        RotationMoves(cfg, a, id, newId, at);
        RotationMoves(cfg, b, id, newId, at);
        hide Rotate;
        BehindPut(cfg, b, a, newId, s, at);
        BehindDrop(Put(cfg, b, newId, s), Put(cfg, a, newId, s), id, at);
      }
    } else {
      BehindClose(cfg, b, a, id, at);
      NotFoundStays(cfg, b, a, id, at);
    }
  }

  /** An expired session that only one of the states still has in memory is closed in that one alone. */
  lemma NotFoundStays(cfg: Config, b: State, a: State, id: string, at: int)
    requires cfg.redisEnabled && Behind(Close(cfg, b, id, false), Close(cfg, a, id, false), at)
    ensures id !in b.memory ==> Behind(b, Close(cfg, a, id, false), at)
    ensures id !in b.memory && id !in a.memory ==> Behind(b, a, at)
  {
    hide Behind;
  }

  lemma OthersStayBehind(cfg: Config, b: State, a: State, e: Event)
    requires cfg.redisEnabled && Behind(b, a, e.at) && (e.Suspended? || e.CleanedUp? || e.Restarted?)
    ensures Step(cfg, b, e).1 == Step(cfg, a, e).1
    ensures Behind(Step(cfg, b, e).0, Step(cfg, a, e).0, e.at)
  {
    var b', a' := Step(cfg, b, e).0, Step(cfg, a, e).0;
    forall id
      ensures SameEntry(b', a', id, e.at) && (id in b'.memory ==> id in a'.memory)
    {
      SameSession(cfg, b, a, id, e.at);
    }
  }

  lemma {:induction false} ContinuationsStayBehind(cfg: Config, b: State, a: State, more: seq<Event>, e: Event)
    requires Aligned(cfg) && Run(more + [e]) && Behind(b, a, (more + [e])[0].at) && ClosesReach(cfg, b, more)
    ensures Step(cfg, Continue(cfg, b, more), e).1 == Step(cfg, Continue(cfg, a, more), e).1
    decreases |more|
  {
    hide Step, Behind, Aligned, Reaches;
    if more == [] {
      assert (more + [e])[0] == e;
      LastAnswers(cfg, b, a, e);
    } else {
      var first, rest := more[0], more[1..];
      assert (more + [e])[0] == first && (more + [e])[1..] == rest + [e];
      StepsStayBehind(cfg, b, a, first);
      assert first.at <= (rest + [e])[0].at by {
        assert (more + [e])[1] == (rest + [e])[0];
      }
      BehindLater(Step(cfg, b, first).0, Step(cfg, a, first).0, first.at, (rest + [e])[0].at);
      assert Run(rest + [e]) by {
        assert forall i :: 0 <= i < |rest + [e]| ==> (rest + [e])[i] == (more + [e])[i + 1];
      }
      ContinuationsStayBehind(cfg, Step(cfg, b, first).0, Step(cfg, a, first).0, rest, e);
    }
  }

  /** The last answer needs no assumption: a close answers nothing. */
  lemma LastAnswers(cfg: Config, b: State, a: State, e: Event)
    requires Aligned(cfg) && Behind(b, a, e.at)
    ensures Step(cfg, b, e).1 == Step(cfg, a, e).1
  {
    if Reaches(b, e) {
      hide Step, Behind, Aligned, Reaches;
      StepsStayBehind(cfg, b, a, e);
    }
  }

  lemma RestartIsBehind(st: State, now: int)
    requires Tied(st)
    ensures Behind(Restart(st), st, now)
  {
  }

  const ANYONE := Auth(false, None, None, None, None, None)

  const NEW := State(map[], map[])

  /** One creation shows that the lifetimes differ, or that Redis is off. */
  lemma CreationShows(cfg: Config)
    requires !cfg.redisEnabled || cfg.ttlMs != cfg.cacheTtlSec * 1000
    ensures !RestartsGoUnnoticed(cfg)
  {
    var shorter := if cfg.ttlMs < cfg.cacheTtlSec * 1000 then cfg.ttlMs else cfg.cacheTtlSec * 1000;
    var events, e := [Created("s", ANYONE, 0)], Validated("s", if cfg.redisEnabled then shorter + 1 else 0);
    assert events[..0] == [] && After(cfg, []) == NEW;
    var st := Create(cfg, NEW, "s", ANYONE, 0);
    assert After(cfg, events) == st;
    assert Step(cfg, Restart(st), e).1 != Step(cfg, st, e).1 by {
      hide CeilSeconds;
    }
    hide Step, After;
    assert events + [] + [e] == [Created("s", ANYONE, 0), e];
    assert !Unnoticed(cfg, events, [], e);
  }

  /** A lifetime below a minute shows after a validation, which keeps the Redis entry for a minute. */
  lemma ValidationShows(cfg: Config)
    requires cfg.redisEnabled && cfg.ttlMs == cfg.cacheTtlSec * 1000 && cfg.cacheTtlSec < 60
    ensures !RestartsGoUnnoticed(cfg)
  {
    var created, events := [Created("s", ANYONE, 0)], [Created("s", ANYONE, 0), Validated("s", 0)];
    var e := Validated("s", cfg.ttlMs + 1);
    assert created[..0] == [] && events[..1] == created && After(cfg, []) == NEW;
    var st := Validate(cfg, Create(cfg, NEW, "s", ANYONE, 0), "s", 0).0;
    assert After(cfg, created) == Create(cfg, NEW, "s", ANYONE, 0);
    assert After(cfg, events) == st;
    CeilOfWhole(cfg.cacheTtlSec);
    assert Step(cfg, Restart(st), e).1 != Step(cfg, st, e).1 by {
      hide CeilSeconds;
    }
    hide Step, After;
    assert events + [] + [e] == [Created("s", ANYONE, 0), Validated("s", 0), e];
    assert !Unnoticed(cfg, events, [], e);
  }

  /** Restarts go unnoticed in every run whose closes reach their sessions if and only if Redis is on, both
      lifetimes are the same and they are at least a minute. */
  lemma RestartsGoUnnoticedIff(cfg: Config)
    ensures RestartsGoUnnoticed(cfg) <==> Aligned(cfg)
  {
    if Aligned(cfg) {
      hide Aligned, Step, Tied, ClosesReach, Behind, Unnoticed;
      forall events: seq<Event>, more: seq<Event>, e: Event |
        Run(events + more + [e]) && ClosesReach(cfg, Restart(After(cfg, events)), more)
        ensures Unnoticed(cfg, events, more, e)
      {
        RestartGoesUnnoticed(cfg, events, more, e);
      }
    } else if !cfg.redisEnabled || cfg.ttlMs != cfg.cacheTtlSec * 1000 {
      CreationShows(cfg);
    } else {
      ValidationShows(cfg);
    }
  }

  lemma RestartGoesUnnoticed(cfg: Config, events: seq<Event>, more: seq<Event>, e: Event)
    requires Aligned(cfg) && Run(events + more + [e])
    requires ClosesReach(cfg, Restart(After(cfg, events)), more)
    ensures Unnoticed(cfg, events, more, e)
  {
    hide Aligned, Step, Tied, ClosesReach, Behind, Continue;
    assert Run(more + [e]) by {
      assert forall i :: 0 <= i < |more + [e]| ==> (more + [e])[i] == (events + more + [e])[|events| + i];
    }
    RunKeepsTied(cfg, events);
    RestartIsBehind(After(cfg, events), (more + [e])[0].at);
    ContinuationsStayBehind(cfg, Restart(After(cfg, events)), After(cfg, events), more, e);
  }

  /** A close that does not reach its session is noticed under any setting with Redis on. */
  lemma UnreachedCloseShows(cfg: Config) returns (events: seq<Event>, more: seq<Event>, e: Event)
    requires cfg.redisEnabled
    ensures Run(events + more + [e]) && !Unnoticed(cfg, events, more, e)
    ensures !ClosesReach(cfg, Restart(After(cfg, events)), more)
  {
    events, more, e := [Created("s", ANYONE, 0)], [Closed("s", 0)], Validated("s", 0);
    assert events + more + [e] == [Created("s", ANYONE, 0), Closed("s", 0), e];
    assert events[..0] == [] && After(cfg, []) == NEW;
    var st := Create(cfg, NEW, "s", ANYONE, 0);
    assert After(cfg, events) == st;
    assert more[1..] == [] && Continue(cfg, Restart(st), more) == Restart(st);
    assert Continue(cfg, st, more) == Close(cfg, st, "s", false);
  }

  // Sessions that are gone.

  /** Nothing is left of the session, or nothing that could be seen from the given time on. */
  predicate Gone(cfg: Config, st: State, id: string, from: int)
  {
    id !in st.memory && (cfg.redisEnabled ==> !Visible(st.redis, id, from))
  }

  /** The event makes a session of this id. */
  predicate Makes(e: Event, id: string)
  {
    (e.Created? && e.id == id) || (e.RotatedTo? && e.newId == id)
  }

  lemma GoneStays(cfg: Config, st: State, e: Event, id: string, from: int)
    requires Gone(cfg, st, id, from) && !Makes(e, id) && from <= e.at
    ensures Gone(cfg, Step(cfg, st, e).0, id, from)
  {
    hide CeilSeconds;
  }

  /** What follows happens at or after the given time and does not make a session of this id. */
  ghost predicate Leaves(events: seq<Event>, id: string, from: int)
  {
    forall i :: 0 <= i < |events| ==> !Makes(events[i], id) && from <= events[i].at
  }

  lemma {:induction false} GoneForGood(cfg: Config, st: State, events: seq<Event>, id: string, from: int, now: int)
    requires Gone(cfg, st, id, from) && Leaves(events, id, from) && from <= now
    ensures Gone(cfg, Continue(cfg, st, events), id, from)
    ensures Validate(cfg, Continue(cfg, st, events), id, now).1 == None
    decreases |events|
  {
    if events != [] {
      GoneStays(cfg, st, events[0], id, from);
      hide Step, Gone;
      GoneForGood(cfg, Step(cfg, st, events[0]).0, events[1..], id, from, now);
    }
  }

  /** A time before all others. */
  function Earliest(events: seq<Event>, now: int): (t: int)
    ensures t <= now && forall i :: 0 <= i < |events| ==> t <= events[i].at
    decreases |events|
  {
    if events == [] then now
    else Earliest(events[1..], if events[0].at < now then events[0].at else now)
  }

  /** A rotated id never validates again, whatever follows, unless a session of that very id is made anew. */
  lemma RotatedNeverValidates(
    cfg: Config, st: State, id: string, newId: string, at: int, events: seq<Event>, now: int)
    requires newId != id && Rotate(cfg, st, id, newId, at).1.Rotated?
    requires forall i :: 0 <= i < |events| ==> !Makes(events[i], id)
    ensures Validate(cfg, Continue(cfg, Rotate(cfg, st, id, newId, at).0, events), id, now).1 == None
  {
    var from := Earliest(events, now);
    assert Gone(cfg, Rotate(cfg, st, id, newId, at).0, id, from);
    hide Rotate, Validate;
    GoneForGood(cfg, Rotate(cfg, st, id, newId, at).0, events, id, from, now);
  }

  /** A rotated session hands its whole authorization to the new id, from either tier. */
  lemma RotationCarriesAuth(cfg: Config, st: State, id: string, newId: string, at: int)
    requires newId != id && Rotate(cfg, st, id, newId, at).1.Rotated?
    ensures var st' := Rotate(cfg, st, id, newId, at).0;
      && newId in st'.memory && Existing(cfg, st, id, at).Some?
      && Validate(cfg, st', newId, at).1 == Some(Existing(cfg, st, id, at).value.auth)
  {
  }

  /** A close is complete exactly when the session was in memory, Redis is off or it had nothing to show: closing a
      session that only Redis has does nothing, and the id still validates. */
  lemma CloseIsCompleteIff(cfg: Config, st: State, id: string, now: int)
    ensures Validate(cfg, Close(cfg, st, id, false), id, now).1 == None
            <==> id in st.memory || !cfg.redisEnabled || !Visible(st.redis, id, now)
  {
  }

  /** After a complete close the id never validates again, whatever follows from then on, unless a session of
      that very id is made anew. */
  lemma ClosedNeverValidates(cfg: Config, st: State, id: string, at: int, events: seq<Event>, now: int)
    requires id in st.memory || !cfg.redisEnabled || !Visible(st.redis, id, at)
    requires Leaves(events, id, at) && at <= now
    ensures Validate(cfg, Continue(cfg, Close(cfg, st, id, false), events), id, now).1 == None
  {
    hide Validate;
    GoneForGood(cfg, Close(cfg, st, id, false), events, id, at, now);
  }

  /** The run that shows it: create, restart, close, validate. */
  lemma CloseAfterRestartIsLost(auth: Auth)
    ensures var cfg := Config(60000, 60, true);
      var st := Close(cfg, Restart(Create(cfg, State(map[], map[]), "s", auth, 0)), "s", false);
      Validate(cfg, st, "s", 1).1 == Some(auth)
  {
  }
}
