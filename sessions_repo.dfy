/**
  The Redis-backed session repository.  Its state is two indexes in one Redis
  key space:
    - `session:<jti>`          holds the session record with that id (`byId`);
    - `user_session:<email>`   holds the list of that owner's session records (`byOwner`).
  Records are compared as values, standing in for the comparison of their
  JSON serialisations that `LREM` performs.
 */
module Sessions {
  import opened Redis

  type Uuid = string

  /** One authenticated login: its id, its device id, its owner and the token pair issued to it. */
  datatype Session = Session(
    jti: Uuid,
    deviceId: Uuid,
    email: string,
    refreshToken: string,
    accessToken: string)

  datatype Result<T> = Ok(value: T) | Err(message: string)

  const SessionNotFound := "Session is not found. Code: 41."

  /** The two indexes of the Redis key space that the repository uses. */
  datatype Keyspace = Keyspace(byId: map<Uuid, Session>, byOwner: map<string, seq<Session>>)

  const EmptyKeyspace := Keyspace(map[], map[])

  /** getSessions: `LRANGE user_session:<email> 0 -1`, most recently saved first. */
  function OwnerSessions(ks: Keyspace, email: string): seq<Session>
  {
    LRange(ks.byOwner, email)
  }

  /** getSession: `GET session:<jti>`, an error when nothing is stored under that id. */
  function Lookup(ks: Keyspace, jti: Uuid): (r: Result<Session>)
    ensures r.Err? ==> r.message == SessionNotFound
  {
    if jti in ks.byId then Ok(ks.byId[jti]) else Err(SessionNotFound)
  }

  /** saveSession: `SET session:<jti>` and `LPUSH user_session:<email>` in one MULTI/EXEC batch. */
  function Saved(ks: Keyspace, p: Session): (r: Keyspace)
    ensures Lookup(r, p.jti) == Ok(p)
    ensures OwnerSessions(r, p.email) == [p] + OwnerSessions(ks, p.email)
    ensures forall j :: j != p.jti ==> Lookup(r, j) == Lookup(ks, j)
    ensures forall e :: e != p.email ==> OwnerSessions(r, e) == OwnerSessions(ks, e)
  {
    Keyspace(ks.byId[p.jti := p], LPush(ks.byOwner, p.email, p))
  }

  /** removeSession: `DEL session:<jti>` and `LREM user_session:<email> 0 p` in one MULTI/EXEC batch. */
  function Removed(ks: Keyspace, p: Session): (r: Keyspace)
    ensures Lookup(r, p.jti) == Err(SessionNotFound)
    ensures OwnerSessions(r, p.email) == RemoveAll(OwnerSessions(ks, p.email), p)
    ensures p !in OwnerSessions(r, p.email)
    ensures multiset(OwnerSessions(r, p.email)) == multiset(OwnerSessions(ks, p.email))[p := 0]
    ensures forall j :: j != p.jti ==> Lookup(r, j) == Lookup(ks, j)
    ensures forall e :: e != p.email ==> OwnerSessions(r, e) == OwnerSessions(ks, e)
  {
    Keyspace(ks.byId - {p.jti}, LRem(ks.byOwner, p.email, p))
  }

  /**
    The two indexes agree: every stored record is listed under its owner,
    every listed record is the one stored under its id, and Redis keeps no
    empty list.
   */
  ghost predicate Consistent(ks: Keyspace)
  {
    && NoEmptyLists(ks.byOwner)
    && (forall j :: j in ks.byId ==> ks.byId[j].jti == j && ks.byId[j] in OwnerSessions(ks, ks.byId[j].email))
    && (forall e, s :: s in OwnerSessions(ks, e) ==> s.email == e && Lookup(ks, s.jti) == Ok(s))
  }

  /** In a consistent key space a record is stored under its id exactly when its owner's list holds it. */
  lemma StoredIffListed(ks: Keyspace, s: Session)
    requires Consistent(ks)
    ensures Lookup(ks, s.jti) == Ok(s) <==> s in OwnerSessions(ks, s.email)
  {
  }

  /** A Redis with neither kind of key has agreeing indexes and lists no sessions for anyone. */
  lemma EmptyKeyspaceConsistent()
    ensures Consistent(EmptyKeyspace)
    ensures forall e :: OwnerSessions(EmptyKeyspace, e) == []
  {
  }

  /** Saving a record under an id that is not yet stored keeps the indexes in agreement. */
  lemma SaveFreshPreservesConsistent(ks: Keyspace, p: Session)
    requires Consistent(ks)
    requires p.jti !in ks.byId
    ensures Consistent(Saved(ks, p))
  {
  }

  /**
    Removing the record that is stored under its id (or one whose id is not
    stored at all) keeps the indexes in agreement.
   */
  lemma RemovePreservesConsistent(ks: Keyspace, p: Session)
    requires Consistent(ks)
    requires p.jti in ks.byId ==> ks.byId[p.jti] == p
    ensures Consistent(Removed(ks, p))
  {
  }

  /** Saving a record with a new id and then removing it restores both indexes exactly. */
  lemma {:induction false} SaveRemoveRoundTrip(ks: Keyspace, p: Session)
    requires Consistent(ks)
    requires p.jti !in ks.byId
    ensures Removed(Saved(ks, p), p) == ks
  {
    var r := Removed(Saved(ks, p), p);
    assert p !in OwnerSessions(ks, p.email);
    RemoveAllAbsent(OwnerSessions(ks, p.email), p);
    assert r.byId == ks.byId;
    forall e
      ensures LRange(r.byOwner, e) == LRange(ks.byOwner, e)
    {
      if e == p.email {
        assert OwnerSessions(Saved(ks, p), e) == [p] + OwnerSessions(ks, e);
      }
    }
    LRangeDeterminesKeySpace(r.byOwner, ks.byOwner);
  }

  /** Saving is not idempotent: the by-id entry is overwritten, but the owner's list gains a second copy. */
  lemma SaveTwiceListsTwice(ks: Keyspace, p: Session)
    ensures Saved(Saved(ks, p), p).byId == Saved(ks, p).byId
    ensures OwnerSessions(Saved(Saved(ks, p), p), p.email) == [p, p] + OwnerSessions(ks, p.email)
  {
  }

  /** The key space after saving `ps` one after another, oldest first. */
  function SavedAll(ks: Keyspace, ps: seq<Session>): Keyspace
  {
    if ps == [] then ks else Saved(SavedAll(ks, ps[..|ps| - 1]), ps[|ps| - 1])
  }

  /** The records of `ps` owned by `email`, newest first. */
  function NewestFirst(ps: seq<Session>, email: string): (r: seq<Session>)
    ensures forall s :: s in r <==> s in ps && s.email == email
  {
    if ps == [] then []
    else
      var last := ps[|ps| - 1];
      assert ps == ps[..|ps| - 1] + [last];
      (if last.email == email then [last] else []) + NewestFirst(ps[..|ps| - 1], email)
  }

  /**
    getSessions after a run of saves lists exactly the saved records of that
    owner, most recent first, ahead of what was listed before; from an empty
    key space an owner with no saves gets the empty list.
   */
  lemma {:induction false} SessionsAfterSaves(ks: Keyspace, ps: seq<Session>, email: string)
    ensures OwnerSessions(SavedAll(ks, ps), email) == NewestFirst(ps, email) + OwnerSessions(ks, email)
  {
    if ps != [] {
      SessionsAfterSaves(ks, ps[..|ps| - 1], email);
    }
  }

  /** The repository, holding the two indexes it keeps in Redis. */
  class RedisSessionRepo {
    var byId: map<Uuid, Session>
    var byOwner: map<string, seq<Session>>

    function State(): Keyspace
      reads this
    {
      Keyspace(byId, byOwner)
    }

    /** The repository over whatever the Redis connection already holds. */
    constructor (ks: Keyspace)
      ensures State() == ks
    {
      byId := ks.byId;
      byOwner := ks.byOwner;
    }

    /** Both writes are applied in one step, as the MULTI/EXEC transaction applies them. */
    method SaveSession(payload: Session)
      modifies this
      ensures State() == Saved(old(State()), payload)
      ensures Consistent(old(State())) && payload.jti !in old(byId) ==> Consistent(State())
    {
      ghost var before := State();
      byId, byOwner := byId[payload.jti := payload], LPush(byOwner, payload.email, payload);
      if Consistent(before) && payload.jti !in before.byId {
        SaveFreshPreservesConsistent(before, payload);
      }
    }

    method GetSessions(userEmail: string) returns (sessions: seq<Session>)
      ensures sessions == OwnerSessions(State(), userEmail)
    {
      sessions := if userEmail in byOwner then byOwner[userEmail] else [];
    }

    method GetSession(jti: Uuid) returns (r: Result<Session>)
      ensures r == Lookup(State(), jti)
    {
      if jti !in byId {
        return Err(SessionNotFound);
      }
      r := Ok(byId[jti]);
    }

    /** Both writes are applied in one step, as the MULTI/EXEC transaction applies them. */
    method RemoveSession(payload: Session)
      modifies this
      ensures State() == Removed(old(State()), payload)
      ensures Consistent(old(State())) && (payload.jti in old(byId) ==> old(byId)[payload.jti] == payload)
        ==> Consistent(State())
    {
      ghost var before := State();
      byId, byOwner := byId - {payload.jti}, LRem(byOwner, payload.email, payload);
      if Consistent(before) && (payload.jti in before.byId ==> before.byId[payload.jti] == payload) {
        RemovePreservesConsistent(before, payload);
      }
    }
  }
}
