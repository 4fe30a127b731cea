/** The streamable sessions: a map in memory, backed by Redis entries with a time to live. Operations are atomic
    and Redis writes succeed; times are milliseconds. */
module Sessions {
  import opened Collections

  datatype Config = Config(ttlMs: nat, cacheTtlSec: nat, redisEnabled: bool)

  /** What a request is authorized by. */
  datatype Auth = Auth(
    authenticated: bool, keyId: Option<string>, groupKeyIds: Option<seq<string>>, permissions: Option<seq<string>>,
    workspace: Option<string>, mode: Option<string>)

  datatype Session = Session(auth: Auth, createdAt: int, expiresAt: int, lastAccessedAt: int)

  /** A Redis entry is visible until its time to live has passed. */
  datatype Stored = Stored(session: Session, until: int)

  datatype State = State(memory: map<string, Session>, redis: map<string, Stored>)

  predicate Visible(redis: map<string, Stored>, id: string, now: int)
  {
    id in redis && now <= redis[id].until
  }

  /** The lifetime of a renewed Redis entry: the session's own, but at least a minute. */
  function Renewal(ms: int): int
  {
    if CeilSeconds(ms) < 60 then 60 else CeilSeconds(ms)
  }

  function Save(
    cfg: Config, redis: map<string, Stored>, id: string, s: Session, ttlSec: int, now: int): map<string, Stored>
  {
    if cfg.redisEnabled then redis[id := Stored(s, now + ttlSec * 1000)] else redis
  }

  function NewSession(cfg: Config, auth: Auth, now: int): Session
  {
    Session(auth, now, now + cfg.ttlMs, now)
  }

  function Create(cfg: Config, st: State, id: string, auth: Auth, now: int): State
  {
    var s := NewSession(cfg, auth, now);
    State(st.memory[id := s], Save(cfg, st.redis, id, s, cfg.cacheTtlSec, now))
  }

  /** Closing knows only the sessions in memory: for any other id it does nothing. */
  function Close(cfg: Config, st: State, id: string, preserveRedis: bool): State
  {
    if id !in st.memory then st
    else State(st.memory - {id}, if cfg.redisEnabled && !preserveRedis then st.redis - {id} else st.redis)
  }

  function Touched(cfg: Config, s: Session, now: int): Session
  {
    s.(lastAccessedAt := now, expiresAt := now + cfg.ttlMs)
  }

  /** Brings a session that only Redis has back into memory, with a new expiry. */
  function Restored(cfg: Config, st: State, id: string, now: int): State
  {
    if id in st.memory || !cfg.redisEnabled || !Visible(st.redis, id, now) then st
    else
      var s := Touched(cfg, st.redis[id].session, now);
      State(st.memory[id := s], Save(cfg, st.redis, id, s, CeilSeconds(cfg.ttlMs), now))
  }

  /** Validation answers with the session's authorization, or with nothing. */
  function Validate(cfg: Config, st: State, id: string, now: int): (State, Option<Auth>)
  {
    var r := Restored(cfg, st, id, now);
    if id !in r.memory then (r, None)
    else if now > r.memory[id].expiresAt then (Close(cfg, r, id, false), None)
    else
      var s := Touched(cfg, r.memory[id], now);
      (State(r.memory[id := s], Save(cfg, r.redis, id, s, Renewal(cfg.ttlMs), now)), Some(s.auth))
  }

  datatype Rotation = Rotated(expiresAt: int, keyId: Option<string>, workspace: Option<string>) | NotFound | Expired

  function Existing(cfg: Config, st: State, id: string, now: int): Option<Session>
  {
    if id in st.memory then Some(st.memory[id])
    else if cfg.redisEnabled && Visible(st.redis, id, now) then Some(st.redis[id].session)
    else None
  }

  function Rotate(cfg: Config, st: State, id: string, newId: string, now: int): (State, Rotation)
  {
    var existing := Existing(cfg, st, id, now);
    if existing.None? then (st, NotFound)
    else if now > existing.value.expiresAt then (Close(cfg, st, id, false), Expired)
    else
      var auth := existing.value.auth;
      var c := Create(cfg, st, newId, auth, now);
      (if id in c.memory then Close(cfg, c, id, false)
       else if cfg.redisEnabled then c.(redis := c.redis - {id}) else c,
       Rotated(now + cfg.ttlMs, auth.keyId, auth.workspace))
  }

  function Overdue(memory: map<string, Session>, now: int): set<string>
  {
    set id | id in memory && now > memory[id].expiresAt
  }

  function CleanUp(cfg: Config, st: State, now: int): State
  {
    var gone := Overdue(st.memory, now);
    State(st.memory - gone, if cfg.redisEnabled then st.redis - gone else st.redis)
  }

  /** A restart loses the memory; Redis stays. */
  function Restart(st: State): State
  {
    st.(memory := map[])
  }

  /** The session map of the process, together with the Redis database it writes to. */
  class SessionStore {
    const cfg: Config
    var streamableSessions: map<string, Session>
    var redis: map<string, Stored>

    function Contents(): State
      reads this
    {
      State(streamableSessions, redis)
    }

    /** A process starts with an empty map and whatever Redis still has. */
    constructor (cfg: Config, redis: map<string, Stored>)
      ensures this.cfg == cfg && Contents() == State(map[], redis)
    {
      this.cfg, this.streamableSessions, this.redis := cfg, map[], redis;
    }

    method SaveSession(id: string, s: Session, ttlSec: int, now: int)
      modifies this`redis
      ensures redis == Save(cfg, old(redis), id, s, ttlSec, now)
    {
      if cfg.redisEnabled {
        redis := redis[id := Stored(s, now + ttlSec * 1000)];
      }
    }

    method CreateStreamableSessionWithId(id: string, auth: Auth, now: int)
      modifies this
      ensures Contents() == Create(cfg, old(Contents()), id, auth, now)
    {
      var s := Session(auth, now, now + cfg.ttlMs, now);
      streamableSessions := streamableSessions[id := s];
      SaveSession(id, s, cfg.cacheTtlSec, now);
    }

    method CloseStreamableSession(id: string, preserveRedis: bool)
      modifies this
      ensures Contents() == Close(cfg, old(Contents()), id, preserveRedis)
    {
      if id !in streamableSessions {
        return;
      }
      streamableSessions := streamableSessions - {id};
      if cfg.redisEnabled && !preserveRedis {
        redis := redis - {id};
      }
    }

    method ValidateStreamableSession(id: string, now: int) returns (auth: Option<Auth>)
      modifies this
      ensures (Contents(), auth) == Validate(cfg, old(Contents()), id, now)
      ensures auth.Some? <==> if id in old(streamableSessions) then now <= old(streamableSessions)[id].expiresAt
                              else cfg.redisEnabled && Visible(old(redis), id, now)
      ensures auth.None? ==> id !in streamableSessions
    {
      if id !in streamableSessions && cfg.redisEnabled && Visible(redis, id, now) {
        var restored := redis[id].session.(lastAccessedAt := now, expiresAt := now + cfg.ttlMs);
        streamableSessions := streamableSessions[id := restored];
        SaveSession(id, restored, CeilSeconds(cfg.ttlMs), now);
      }
      if id !in streamableSessions {
        return None;
      }
      var session := streamableSessions[id];
      if now > session.expiresAt {
        CloseStreamableSession(id, false);
        return None;
      }
      session := session.(lastAccessedAt := now, expiresAt := now + cfg.ttlMs);
      streamableSessions := streamableSessions[id := session];
      SaveSession(id, session, Renewal(session.expiresAt - now), now);
      auth := Some(session.auth);
    }

    method RotateSession(oldId: string, newId: string, now: int) returns (r: Rotation)
      modifies this
      ensures (Contents(), r) == Rotate(cfg, old(Contents()), oldId, newId, now)
    {
      var existing := None;
      if oldId in streamableSessions {
        existing := Some(streamableSessions[oldId]);
      } else if cfg.redisEnabled && Visible(redis, oldId, now) {
        existing := Some(redis[oldId].session);
      }
      if existing.None? {
        return NotFound;
      }
      if now > existing.value.expiresAt {
        CloseStreamableSession(oldId, false);
        return Expired;
      }
      var auth := existing.value.auth;
      CreateStreamableSessionWithId(newId, auth, now);
      if oldId in streamableSessions {
        CloseStreamableSession(oldId, false);
      } else if cfg.redisEnabled {
        redis := redis - {oldId};
      }
      var expiresAt := if newId in streamableSessions then streamableSessions[newId].expiresAt else now + cfg.ttlMs;
      r := Rotated(expiresAt, auth.keyId, auth.workspace);
    }

    method CleanupExpiredSessions(now: int)
      modifies this
      ensures Contents() == CleanUp(cfg, old(Contents()), now)
      ensures forall id :: id in streamableSessions <==>
                id in old(streamableSessions) && now <= old(streamableSessions)[id].expiresAt
    {
      var ids, gone := streamableSessions.Keys, {};
      while ids != {}
        invariant ids <= old(streamableSessions).Keys && ids !! gone
        invariant gone <= Overdue(old(streamableSessions), now) <= gone + ids
        invariant streamableSessions == old(streamableSessions) - gone
        invariant redis == if cfg.redisEnabled then old(redis) - gone else old(redis)
        decreases ids
      {
        var id :| id in ids;
        if now > streamableSessions[id].expiresAt {
          CloseStreamableSession(id, false);
          gone := gone + {id};
        }
        ids := ids - {id};
      }
    }
  }
}
