/**
 The records of the local session store. Timestamps are integer milliseconds
 since the epoch; optional fields are `Option`s.
 */
module SessionTypes {
  import opened Wrappers

  datatype Status = Joined | Missing | Present

  /** `role?: 'leader' | 'member'`. */
  datatype Role = LeaderRole | MemberRole

  /**
   A participant of one trip session. `phoneNumber` is written by the session
   code although the declared interface omits it.
   */
  datatype Member = Member(
    id: string,
    name: string,
    phoneNumber: Option<string>,
    joinedAt: int,
    status: Status,
    lastActivity: int,
    role: Option<Role>)

  datatype TripSession = TripSession(
    id: string,
    name: string,
    createdAt: int,
    expiresAt: int,
    members: seq<Member>,
    leaderCode: string,
    leaderName: Option<string>,
    leaderMemberId: Option<string>,
    checkInUrl: string,
    checkOutUrl: Option<string>)

  /** The value `getSessionStore` hands out: every stored session by id, and the current one. */
  datatype StoreSnapshot = StoreSnapshot(
    sessions: map<string, TripSession>,
    currentSessionId: Option<string>)
}
