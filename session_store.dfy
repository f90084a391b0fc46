/**
 The local session store: every trip session by id plus a pointer to the
 current one, as persisted by the browser. The `Store` object's fields are
 the persisted content; reading it (`Load`) gives a copy with the expired
 sessions purged, and only `Save` writes back. Time is a parameter `now` in
 milliseconds, fresh identifiers and the page's base URL are parameters too.
 */
module SessionStore {
  import opened Wrappers
  import opened Text
  import opened SessionTypes
  import opened MemberRegistry

  /** Twenty-four hours in milliseconds. */
  const SessionDuration: int := 24 * 60 * 60 * 1000

  /**
   The leader reference: a leader member, when there is one, is the first
   member and the one `leaderMemberId` names; every other member has no role.
   */
  predicate LeaderShape(s: TripSession)
  {
    match s.leaderMemberId
    case None =>
      forall i :: 0 <= i < |s.members| ==> s.members[i].role.None?
    case Some(lid) =>
      && |s.members| > 0 && s.members[0].id == lid && s.members[0].role == Some(LeaderRole)
      && forall i :: 1 <= i < |s.members| ==> s.members[i].role.None?
  }

  /** What every session made by `createSession` and changed by the member operations satisfies. */
  predicate WellFormed(s: TripSession)
  {
    && s.expiresAt == s.createdAt + SessionDuration
    && s.leaderCode == s.id
    && NamesDistinct(s.members)
    && LeaderShape(s)
  }

  /** `leaderName && leaderName.trim()`: a leader is seeded. */
  predicate SeedsLeader(leaderName: Option<string>)
  {
    leaderName.Some? && Trim(leaderName.value) != []
  }

  /** The record `createSession` builds before saving it. */
  function BuildSession(id: string, name: string, leaderName: Option<string>, leaderPhone: Option<string>,
                        leaderId: string, baseUrl: string, now: int): (r: TripSession)
    ensures WellFormed(r) && r.expiresAt > r.createdAt
  {
    var leader := Member(leaderId, if SeedsLeader(leaderName) then Trim(leaderName.value) else [],
                         TrimOpt(leaderPhone), now, Present, now, Some(LeaderRole));
    TripSession(
      id, name, now, now + SessionDuration,
      if SeedsLeader(leaderName) then [leader] else [],
      id, leaderName,
      if SeedsLeader(leaderName) then Some(leaderId) else None,
      baseUrl + "/join/" + id,
      Some(baseUrl + "/checkout/" + id))
  }

  /** A new session expires one day after it is created, and its leader code is its id. */
  lemma CreateSessionExpiry(id: string, name: string, leaderName: Option<string>, leaderPhone: Option<string>,
                            leaderId: string, baseUrl: string, now: int)
    ensures var s := BuildSession(id, name, leaderName, leaderPhone, leaderId, baseUrl, now);
      && s.id == id && s.leaderCode == id && s.name == name && s.createdAt == now
      && s.expiresAt - s.createdAt == 86400000
  {
  }

  /**
   A leader is seeded exactly when the leader name is not blank: then the
   members are that one leader, present since creation under the trimmed
   name, and `leaderMemberId` names it; otherwise there are no members.
   */
  lemma CreateSessionSeedsLeader(id: string, name: string, leaderName: Option<string>, leaderPhone: Option<string>,
                                 leaderId: string, baseUrl: string, now: int)
    ensures var s := BuildSession(id, name, leaderName, leaderPhone, leaderId, baseUrl, now);
      && (s.members != [] <==> SeedsLeader(leaderName))
      && (s.leaderMemberId.Some? <==> SeedsLeader(leaderName))
      && (SeedsLeader(leaderName) ==>
            && |s.members| == 1 && s.leaderMemberId == Some(s.members[0].id)
            && s.members[0] == Member(leaderId, Trim(leaderName.value), TrimOpt(leaderPhone), now, Present, now, Some(LeaderRole)))
  {
  }

  /** The sessions the expiry purge keeps: those not yet past their expiry (`expiresAt < now` is purged). */
  function Purged(sessions: map<string, TripSession>, now: int): map<string, TripSession>
  {
    map k | k in sessions && !(sessions[k].expiresAt < now) :: sessions[k]
  }

  /** The current pointer after the purge. */
  function PurgedCurrent(current: Option<string>, sessions: map<string, TripSession>, now: int): Option<string>
  {
    if current.Some? && current.value in sessions && sessions[current.value].expiresAt < now then None else current
  }

  /** Purging again later is the same as purging once at the later time, so purging is idempotent. */
  lemma PurgeLater(sessions: map<string, TripSession>, t: int, t': int)
    requires t <= t'
    ensures Purged(Purged(sessions, t), t') == Purged(sessions, t')
    ensures forall c :: PurgedCurrent(PurgedCurrent(c, sessions, t), Purged(sessions, t), t') == PurgedCurrent(c, sessions, t')
  {
  }

  /** A session that expires at the very instant of the purge survives it. */
  lemma PurgeKeepsExpiringNow(sessions: map<string, TripSession>, id: string, now: int)
    requires id in sessions && sessions[id].expiresAt == now
    ensures id in Purged(sessions, now) && Purged(sessions, now)[id] == sessions[id]
  {
  }

  /** Joining keeps a session well formed: names stay distinct and no member but the leader gets a role. */
  lemma JoinKeepsWellFormed(s: TripSession, name: string, phone: Option<string>, newId: string, now: int)
    requires WellFormed(s)
    ensures WellFormed(s.(members := Join(s.members, name, phone, newId, now).members))
  {
    JoinKeepsNamesDistinct(s.members, name, phone, newId, now);
    match FirstIndex(s.members, NameMatcher(name))
    case Some(i) =>
      UpdateKeepsLeaderShape(s, i, Rejoined(s.members[i], phone, now));
    case None =>
      AppendKeepsLeaderShape(s, NewMember(newId, name, phone, now));
  }

  lemma UpdateKeepsLeaderShape(s: TripSession, i: nat, m: Member)
    requires LeaderShape(s) && i < |s.members|
    requires m.id == s.members[i].id && m.role == s.members[i].role
    ensures LeaderShape(s.(members := s.members[i := m]))
  {
  }

  lemma AppendKeepsLeaderShape(s: TripSession, m: Member)
    requires LeaderShape(s) && m.role.None?
    ensures LeaderShape(s.(members := s.members + [m]))
  {
  }

  /** A status update keeps a session well formed. */
  lemma SetStatusKeepsWellFormed(s: TripSession, memberId: string, status: Status, now: int)
    requires WellFormed(s)
    requires SetStatus(s.members, memberId, status, now).Some?
    ensures WellFormed(s.(members := SetStatus(s.members, memberId, status, now).value))
  {
    SetStatusKeepsNames(s.members, memberId, status, now);
  }

  class Store {
    var sessions: map<string, TripSession>
    var currentSessionId: Option<string>

    /** Every session is stored under its own id, and the current pointer names a stored session. */
    ghost predicate Valid()
      reads this
    {
      && (forall k :: k in sessions ==> sessions[k].id == k)
      && (currentSessionId.Some? ==> currentSessionId.value in sessions)
    }

    /** `Valid`, and every stored session is well formed. */
    ghost predicate Consistent()
      reads this
    {
      Valid() && forall k :: k in sessions ==> WellFormed(sessions[k])
    }

    /** The empty store `getSessionStore` starts from when nothing is persisted. */
    constructor ()
      ensures Consistent()
      ensures sessions == map[] && currentSessionId == None
    {
      sessions := map[];
      currentSessionId := None;
    }

    /**
     `getSessionStore`: a copy of the store without the sessions that expired
     strictly before `now`; the current pointer is cleared exactly when it
     named a purged session. The persisted store is not changed.
     */
    method Load(now: int) returns (snap: StoreSnapshot)
      ensures forall k :: k in snap.sessions <==> k in sessions && sessions[k].expiresAt >= now
      ensures forall k :: k in snap.sessions ==> snap.sessions[k] == sessions[k]
      ensures snap.currentSessionId.None? <==>
                currentSessionId.None? ||
                (currentSessionId.value in sessions && sessions[currentSessionId.value].expiresAt < now)
      ensures snap.currentSessionId.Some? ==> snap.currentSessionId == currentSessionId
      ensures snap.sessions == Purged(sessions, now)
      ensures snap.currentSessionId == PurgedCurrent(currentSessionId, sessions, now)
    {
      var kept := sessions;
      var current := currentSessionId;
      var pending := sessions.Keys;
      while pending != {}
        invariant pending <= sessions.Keys
        invariant forall k :: k in kept <==> k in sessions && (k in pending || sessions[k].expiresAt >= now)
        invariant forall k :: k in kept ==> kept[k] == sessions[k]
        invariant current == if currentSessionId.Some? && currentSessionId.value in sessions
                                 && currentSessionId.value !in pending
                                 && sessions[currentSessionId.value].expiresAt < now
                             then None else currentSessionId
        decreases pending
      {
        var id :| id in pending;
        if kept[id].expiresAt < now {
          kept := kept - {id};
          if current == Some(id) {
            current := None;
          }
        }
        pending := pending - {id};
      }
      assert kept == Purged(sessions, now);
      snap := StoreSnapshot(kept, current);
    }

    /** `getSession`: the stored session under `id` unless it is absent or expired. */
    method GetSession(id: string, now: int) returns (r: Option<TripSession>)
      ensures r.Some? <==> id in sessions && sessions[id].expiresAt >= now
      ensures r.Some? ==> r.value == sessions[id]
    {
      var snap := Load(now);
      if id in snap.sessions {
        r := Some(snap.sessions[id]);
      } else {
        r := None;
      }
    }

    /**
     `saveSession`: writes back the purged store with `s` stored under its id
     and made current.
     */
    method Save(s: TripSession, now: int)
      requires Valid()
      modifies this
      ensures Valid()
      ensures sessions == Purged(old(sessions), now)[s.id := s]
      ensures currentSessionId == Some(s.id)
      ensures old(Consistent()) && WellFormed(s) ==> Consistent()
    {
      var snap := Load(now);
      sessions := snap.sessions[s.id := s];
      currentSessionId := Some(s.id);
    }

    /**
     `createSession`: builds a session with id `id` (the generated code) and
     saves it, which makes it the current session. `leaderId` is the
     generated identifier of the leader member, used only when one is seeded.
     */
    method CreateSession(id: string, name: string, leaderName: Option<string>, leaderPhone: Option<string>,
                         leaderId: string, baseUrl: string, now: int) returns (s: TripSession)
      requires Valid()
      modifies this
      ensures Valid()
      ensures s == BuildSession(id, name, leaderName, leaderPhone, leaderId, baseUrl, now)
      ensures sessions == Purged(old(sessions), now)[id := s]
      ensures currentSessionId == Some(id)
      ensures old(Consistent()) ==> Consistent()
    {
      s := BuildSession(id, name, leaderName, leaderPhone, leaderId, baseUrl, now);
      Save(s, now);
    }

    /**
     `addMember`: on a live session, joins `name` (re-joining a member whose
     name matches up to case) and saves the session; on an absent or expired
     session returns `None` and writes nothing. `newId` is the generated
     identifier a new member receives.
     */
    method AddMember(sessionId: string, name: string, phone: Option<string>, newId: string, now: int)
      returns (r: Option<Member>)
      requires Valid()
      modifies this
      ensures Valid()
      ensures r.None? <==> old(sessionId !in sessions || sessions[sessionId].expiresAt < now)
      ensures r.None? ==> sessions == old(sessions) && currentSessionId == old(currentSessionId)
      ensures r.Some? ==>
        var j := Join(old(sessions)[sessionId].members, name, phone, newId, now);
        && r.value == j.member
        && sessions == Purged(old(sessions), now)[sessionId := old(sessions)[sessionId].(members := j.members)]
        && currentSessionId == Some(sessionId)
      ensures old(Consistent()) ==> Consistent()
    {
      var found := GetSession(sessionId, now);
      if found.None? {
        return None;
      }
      var session := found.value;
      var j := Join(session.members, name, phone, newId, now);
      ghost var wellFormed := WellFormed(session);
      if wellFormed {
        JoinKeepsWellFormed(session, name, phone, newId, now);
      }
      Save(session.(members := j.members), now);
      r := Some(j.member);
    }

    /**
     `updateMemberStatus`: on a live session holding a member with id
     `memberId`, sets that member's status and last activity and saves the
     session; otherwise returns false and writes nothing.
     */
    method UpdateMemberStatus(sessionId: string, memberId: string, status: Status, now: int) returns (ok: bool)
      requires Valid()
      modifies this
      ensures Valid()
      ensures ok <==> old(sessionId in sessions && sessions[sessionId].expiresAt >= now
                          && SetStatus(sessions[sessionId].members, memberId, status, now).Some?)
      ensures !ok ==> sessions == old(sessions) && currentSessionId == old(currentSessionId)
      ensures ok ==>
        && sessions == Purged(old(sessions), now)[sessionId :=
             old(sessions)[sessionId].(members := SetStatus(old(sessions)[sessionId].members, memberId, status, now).value)]
        && currentSessionId == Some(sessionId)
      ensures old(Consistent()) ==> Consistent()
    {
      var found := GetSession(sessionId, now);
      if found.None? {
        return false;
      }
      var session := found.value;
      var updated := SetStatus(session.members, memberId, status, now);
      if updated.None? {
        return false;
      }
      ghost var wellFormed := WellFormed(session);
      if wellFormed {
        SetStatusKeepsWellFormed(session, memberId, status, now);
      }
      Save(session.(members := updated.value), now);
      ok := true;
    }
  }
}
