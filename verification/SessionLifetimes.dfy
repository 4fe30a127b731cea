/** How long sessions live under any settings: in memory, with Redis off, and across a restart. */
module SessionLifetimes {
  import opened Collections
  import opened Sessions
  import opened SessionRuns

  // Without Redis.

  /** The one map when nothing backs it: a shutdown closes, and a restart loses everything. */
  function AloneStep(cfg: Config, m: OneMap, e: Event): (OneMap, Option<Auth>)
  {
    match e
    case Suspended(id, at) => (m - {id}, None)
    case Restarted(at) => (map[], None)
    case _ => SimpleStep(cfg, m, e)
  }

  function AloneAfter(cfg: Config, events: seq<Event>): OneMap
  {
    if events == [] then map[]
    else AloneStep(cfg, AloneAfter(cfg, events[..|events| - 1]), events[|events| - 1]).0
  }

  lemma AloneStepsAgree(cfg: Config, st: State, e: Event)
    requires !cfg.redisEnabled
    ensures Step(cfg, st, e).0.memory == AloneStep(cfg, st.memory, e).0
    ensures Renames(e) ==> Step(cfg, st, e).1 == AloneStep(cfg, st.memory, e).1
  {
    hide CeilSeconds;
    if e.RotatedTo? || e.Validated? || e.Closed? || e.Suspended? {
      assert e.id !in st.memory ==> st.memory - {e.id} == st.memory;
    }
  }

  lemma {:induction false} AloneRunsAgree(cfg: Config, events: seq<Event>)
    requires !cfg.redisEnabled
    ensures After(cfg, events).memory == AloneAfter(cfg, events)
  {
    if events != [] {
      var front := events[..|events| - 1];
      AloneRunsAgree(cfg, front);
      AloneStepsAgree(cfg, After(cfg, front), events[|events| - 1]);
      hide Step, AloneStep;
    }
  }

  /** With Redis off every answer of every run, whatever the lifetimes, is the one that the map alone would give. */
  lemma MemoryAloneIsOneMap(cfg: Config, events: seq<Event>, e: Event)
    requires !cfg.redisEnabled && Renames(e)
    ensures Step(cfg, After(cfg, events), e).1 == AloneStep(cfg, AloneAfter(cfg, events), e).1
  {
    AloneRunsAgree(cfg, events);
    AloneStepsAgree(cfg, After(cfg, events), e);
    hide Step, AloneStep;
  }

  // The sliding expiry.

  /** The event makes the session or is answered with it. */
  predicate Touches(cfg: Config, st: State, e: Event, id: string)
  {
    || (e.Created? && e.id == id)
    || (e.Validated? && e.id == id && Step(cfg, st, e).1.Some?)
    || (e.RotatedTo? && e.newId == id != e.id && Step(cfg, st, e).1.Some?)
  }

  /** The event has nothing to do with the session and does not end the process. */
  predicate Spares(e: Event, id: string)
  {
    match e
    case Created(x, _, _) => x != id
    case Validated(x, _) => x != id
    case RotatedTo(x, y, _) => x != id && y != id
    case Closed(x, _) => x != id
    case Suspended(x, _) => x != id
    case CleanedUp(_) => true
    case Restarted(_) => false
  }

  /** The session is in memory as it was, or it is expired and nothing is left of it. */
  predicate Rests(cfg: Config, st: State, id: string, s: Session, now: int)
  {
    if id in st.memory then st.memory[id] == s
    else now > s.expiresAt && (cfg.redisEnabled ==> id !in st.redis)
  }

  lemma SparedRests(cfg: Config, st: State, e: Event, id: string, s: Session, now: int)
    requires Rests(cfg, st, id, s, now) && Spares(e, id) && e.at <= now
    ensures Rests(cfg, Step(cfg, st, e).0, id, s, now)
  {
    hide CeilSeconds;
  }

  lemma {:induction false} RunRests(cfg: Config, st: State, events: seq<Event>, id: string, s: Session, now: int)
    requires Rests(cfg, st, id, s, now)
    requires forall i :: 0 <= i < |events| ==> Spares(events[i], id) && events[i].at <= now
    ensures Rests(cfg, Continue(cfg, st, events), id, s, now)
    decreases |events|
  {
    if events != [] {
      SparedRests(cfg, st, events[0], id, s, now);
      hide Step, Rests, Spares;
      RunRests(cfg, Step(cfg, st, events[0]).0, events[1..], id, s, now);
    }
  }

  /** A session that is made, or validated, or that another one was rotated to, has its lifetime ahead of it. */
  lemma TouchedLives(cfg: Config, st: State, e: Event, id: string)
    requires Touches(cfg, st, e, id)
    ensures var st' := Step(cfg, st, e).0;
      && id in st'.memory && st'.memory[id].expiresAt == e.at + cfg.ttlMs
      && st'.memory[id].lastAccessedAt == e.at
      && (!e.Validated? ==> st'.memory[id].createdAt == e.at)
      && st'.memory[id].auth == if e.Created? then e.auth else Step(cfg, st, e).1.value
  {
    hide CeilSeconds;
  }

  /** Under any settings a session lives for the session lifetime from the last event that touched it, and no
      longer: whatever else the process does meanwhile, it validates with its authorization exactly until then. */
  lemma LivesItsTime(cfg: Config, st: State, e: Event, id: string, events: seq<Event>, now: int)
    requires Touches(cfg, st, e, id)
    requires forall i :: 0 <= i < |events| ==> Spares(events[i], id) && events[i].at <= now
    ensures Validate(cfg, Continue(cfg, Step(cfg, st, e).0, events), id, now).1
            == if now > e.at + cfg.ttlMs then None
               else if e.Created? then Some(e.auth) else Step(cfg, st, e).1
  {
    TouchedLives(cfg, st, e, id);
    var st' := Step(cfg, st, e).0;
    RunRests(cfg, st', events, id, st'.memory[id], now);
    hide Continue, Step, Spares, Touches;
    ValidatesIff(cfg, Continue(cfg, st', events), id, now);
    hide Validate;
  }

  /** When an id validates: what is in memory until it expires, and what only Redis has as long as it is visible
      there, whatever expiry it was stored with. */
  lemma ValidatesIff(cfg: Config, st: State, id: string, now: int)
    ensures id in st.memory ==>
              Validate(cfg, st, id, now).1
              == if now <= st.memory[id].expiresAt then Some(st.memory[id].auth) else None
    ensures id !in st.memory ==>
              Validate(cfg, st, id, now).1
              == if cfg.redisEnabled && Visible(st.redis, id, now) then Some(st.redis[id].session.auth) else None
    ensures Validate(cfg, st, id, now).1.None? ==> Gone(cfg, Validate(cfg, st, id, now).0, id, now)
    ensures Validate(cfg, st, id, now).1.Some? ==>
              var s := if id in st.memory then st.memory[id] else st.redis[id].session;
              id in Validate(cfg, st, id, now).0.memory
              && Validate(cfg, st, id, now).0.memory[id] == Session(s.auth, s.createdAt, now + cfg.ttlMs, now)
  {
    hide CeilSeconds;
  }

  /** What a rotation answers and leaves, under any settings: the session in memory comes before the one in Redis; an
      expired one is not rotated; else the new id gets the whole authorization and a new lifetime, and the old id is
      gone from both tiers. */
  lemma RotatesIff(cfg: Config, st: State, id: string, newId: string, now: int)
    requires id != newId
    ensures var inRedis := cfg.redisEnabled && Visible(st.redis, id, now);
      var (st', r) := Rotate(cfg, st, id, newId, now);
      && (r.NotFound? <==> id !in st.memory && !inRedis)
      && (id in st.memory ==> Rotates(cfg, st, id, newId, now, st.memory[id]))
      && (id !in st.memory && inRedis ==> Rotates(cfg, st, id, newId, now, st.redis[id].session))
  {
    hide CeilSeconds;
    var existing := Existing(cfg, st, id, now);
    if existing.Some? && now <= existing.value.expiresAt {
      var c := Create(cfg, st, newId, existing.value.auth, now);
      assert id !in st.memory ==> c.memory - {id} == c.memory;
    }
  }

  /** The session `s` of the old id is rotated if it has not expired. */
  predicate Rotates(cfg: Config, st: State, id: string, newId: string, now: int, s: Session)
  {
    var (st', r) := Rotate(cfg, st, id, newId, now);
    var moved := Session(s.auth, now, now + cfg.ttlMs, now);
    && (r.Expired? <==> now > s.expiresAt)
    && (r.Expired? || r == Rotated(now + cfg.ttlMs, s.auth.keyId, s.auth.workspace))
    && (r.Rotated? ==>
          && st'.memory == st.memory[newId := moved] - {id}
          && st'.redis == if cfg.redisEnabled
                          then st.redis[newId := Stored(moved, now + cfg.cacheTtlSec * 1000)] - {id} else st.redis)
  }

  // Across a restart.

  /** With Redis on, a session that was made, or that another one was rotated to, survives a restart exactly for the
      Redis lifetime. */
  lemma NewSurvivesIff(cfg: Config, st: State, e: Event, id: string, now: int)
    requires cfg.redisEnabled && Touches(cfg, st, e, id) && !e.Validated?
    ensures Validate(cfg, Restart(Step(cfg, st, e).0), id, now).1.Some? <==> now <= e.at + cfg.cacheTtlSec * 1000
  {
    hide CeilSeconds;
  }

  /** One that was validated survives it exactly for the least whole number of seconds that covers the session
      lifetime and a minute. */
  lemma ValidatedSurvivesIff(cfg: Config, st: State, e: Event, id: string, now: int) returns (seconds: nat)
    requires cfg.redisEnabled && Touches(cfg, st, e, id) && e.Validated?
    ensures Validate(cfg, Restart(Step(cfg, st, e).0), id, now).1.Some? <==> now <= e.at + seconds * 1000
    ensures seconds >= 60 && seconds * 1000 >= cfg.ttlMs
    ensures forall n: nat :: n >= 60 && n * 1000 >= cfg.ttlMs ==> n >= seconds
  {
    seconds := Renewal(cfg.ttlMs);
  }
}
