/**
 The member-list logic of the local session store: the case-insensitive
 name lookup and re-join of `addMember`, the in-place status change of
 `updateMemberStatus`, and the counts of `getMemberStats`. A session's
 members are a sequence kept in join order.
 */
module MemberRegistry {
  import opened Wrappers
  import opened Text
  import opened SessionTypes

  /** `a.toLowerCase() === b.toLowerCase()`. */
  predicate SameName(a: string, b: string)
  {
    Lower(a) == Lower(b)
  }

  /** No two members of the list have names equal up to case. */
  predicate NamesDistinct(ms: seq<Member>)
  {
    forall i, j :: 0 <= i < j < |ms| ==> !SameName(ms[i].name, ms[j].name)
  }

  /** The index `Array.prototype.find` stops at: the first element satisfying `p`. */
  function FirstIndex<T>(s: seq<T>, p: T -> bool): (r: Option<nat>)
    ensures r.Some? ==> r.value < |s| && p(s[r.value])
    ensures r.Some? ==> forall j :: 0 <= j < r.value ==> !p(s[j])
    ensures r.None? <==> forall j :: 0 <= j < |s| ==> !p(s[j])
  {
    if s == [] then None
    else if p(s[0]) then Some(0)
    else match FirstIndex(s[1..], p)
      case None => None
      case Some(i) => Some(i + 1)
  }

  function NameMatcher(name: string): Member -> bool
  {
    (m: Member) => SameName(m.name, name)
  }

  function IdMatcher(memberId: string): Member -> bool
  {
    (m: Member) => m.id == memberId
  }

  /** `phoneNumber?.trim()`. */
  function TrimOpt(p: Option<string>): Option<string>
  {
    match p
    case None => None
    case Some(x) => Some(Trim(x))
  }

  /** The record a re-joining member is updated to. */
  function Rejoined(m: Member, phone: Option<string>, now: int): Member
  {
    var phone' := if phone.Some? && Trim(phone.value) != [] then Some(Trim(phone.value)) else m.phoneNumber;
    m.(status := Present, lastActivity := now, phoneNumber := phone')
  }

  /** The record a first-time joiner is appended as. */
  function NewMember(id: string, name: string, phone: Option<string>, now: int): Member
  {
    Member(id, name, TrimOpt(phone), now, Joined, now, None)
  }

  datatype JoinResult = JoinResult(members: seq<Member>, member: Member)

  /**
   The member-list part of `addMember`: the new list and the member returned.
   `newId` is the identifier a fresh member would receive.
   */
  function Join(ms: seq<Member>, name: string, phone: Option<string>, newId: string, now: int): JoinResult
  {
    match FirstIndex(ms, NameMatcher(name))
    case Some(i) =>
      var m := Rejoined(ms[i], phone, now);
      JoinResult(ms[i := m], m)
    case None =>
      var m := NewMember(newId, name, phone, now);
      JoinResult(ms + [m], m)
  }

  /** A join whose name matches member `i` (the first match) updates that member and appends nothing. */
  lemma JoinRejoins(ms: seq<Member>, name: string, phone: Option<string>, newId: string, now: int, i: nat)
    requires i < |ms| && SameName(ms[i].name, name)
    requires forall j :: 0 <= j < i ==> !SameName(ms[j].name, name)
    ensures var r := Join(ms, name, phone, newId, now);
      && |r.members| == |ms|
      && r.members[i] == r.member
      && (forall j :: 0 <= j < |ms| && j != i ==> r.members[j] == ms[j])
      && r.member.id == ms[i].id && r.member.name == ms[i].name
      && r.member.joinedAt == ms[i].joinedAt && r.member.role == ms[i].role
      && r.member.status == Present && r.member.lastActivity == now
      && r.member.phoneNumber == (if phone.Some? && Trim(phone.value) != [] then Some(Trim(phone.value)) else ms[i].phoneNumber)
  {
    assert NameMatcher(name)(ms[i]);
  }

  /** With distinct names, the matching member is the only one, so it is the one re-joined. */
  lemma JoinRejoinsUnique(ms: seq<Member>, name: string, phone: Option<string>, newId: string, now: int, i: nat)
    requires NamesDistinct(ms)
    requires i < |ms| && SameName(ms[i].name, name)
    ensures var r := Join(ms, name, phone, newId, now);
      |r.members| == |ms| && r.members[i] == r.member && r.member.id == ms[i].id
  {
    forall j | 0 <= j < i
      ensures !SameName(ms[j].name, name)
    {
      assert !SameName(ms[j].name, ms[i].name);
    }
    JoinRejoins(ms, name, phone, newId, now, i);
  }

  /** A join whose name matches nobody appends exactly one new member at the end. */
  lemma JoinAppends(ms: seq<Member>, name: string, phone: Option<string>, newId: string, now: int)
    requires forall j :: 0 <= j < |ms| ==> !SameName(ms[j].name, name)
    ensures var r := Join(ms, name, phone, newId, now);
      && r.members == ms + [r.member]
      && r.member.id == newId && r.member.name == name
      && r.member.status == Joined && r.member.role == None
      && r.member.joinedAt == now && r.member.lastActivity == now
      && r.member.phoneNumber == TrimOpt(phone)
  {
    forall j | 0 <= j < |ms|
      ensures !NameMatcher(name)(ms[j])
    {
    }
  }

  /** Joining keeps the member names pairwise distinct up to case. */
  lemma JoinKeepsNamesDistinct(ms: seq<Member>, name: string, phone: Option<string>, newId: string, now: int)
    requires NamesDistinct(ms)
    ensures NamesDistinct(Join(ms, name, phone, newId, now).members)
  {
    match FirstIndex(ms, NameMatcher(name))
    case Some(i) =>
      UpdateKeepsNamesDistinct(ms, i, Rejoined(ms[i], phone, now));
    case None =>
      forall j | 0 <= j < |ms|
        ensures !SameName(ms[j].name, name)
      {
        assert !NameMatcher(name)(ms[j]);
      }
      AppendKeepsNamesDistinct(ms, NewMember(newId, name, phone, now));
  }

  lemma UpdateKeepsNamesDistinct(ms: seq<Member>, i: nat, m: Member)
    requires NamesDistinct(ms) && i < |ms| && m.name == ms[i].name
    ensures NamesDistinct(ms[i := m])
  {
    var ms' := ms[i := m];
    assert forall j :: 0 <= j < |ms| ==> ms'[j].name == ms[j].name;
  }

  lemma AppendKeepsNamesDistinct(ms: seq<Member>, m: Member)
    requires NamesDistinct(ms) && forall j :: 0 <= j < |ms| ==> !SameName(ms[j].name, m.name)
    ensures NamesDistinct(ms + [m])
  {
  }

  /**
   Joining twice under names that agree up to case yields one member: the
   second join appends nothing and returns the member of the first.
   */
  lemma JoinIdempotentByName(ms: seq<Member>, name: string, name': string,
                             phone: Option<string>, phone': Option<string>,
                             newId: string, newId': string, now: int, now': int)
    requires SameName(name, name')
    ensures var r := Join(ms, name, phone, newId, now);
      var r' := Join(r.members, name', phone', newId', now');
      |r'.members| == |r.members| && r'.member.id == r.member.id
  {
    var r := Join(ms, name, phone, newId, now);
    match FirstIndex(ms, NameMatcher(name))
    case Some(i) =>
      assert NameMatcher(name)(ms[i]);
      assert r.members[i].name == ms[i].name;
      assert NameMatcher(name')(r.members[i]);
      forall j | 0 <= j < i
        ensures !NameMatcher(name')(r.members[j])
      {
        assert !NameMatcher(name)(ms[j]);
      }
    case None =>
      var last := |ms|;
      assert r.members[last] == r.member;
      assert NameMatcher(name')(r.members[last]);
      forall j | 0 <= j < last
        ensures !NameMatcher(name')(r.members[j])
      {
        assert !NameMatcher(name)(ms[j]);
      }
  }

  /** The member-list part of `updateMemberStatus`: `None` when no member has the id. */
  function SetStatus(ms: seq<Member>, memberId: string, status: Status, now: int): Option<seq<Member>>
  {
    match FirstIndex(ms, IdMatcher(memberId))
    case None => None
    case Some(i) => Some(ms[i := ms[i].(status := status, lastActivity := now)])
  }

  /** A status update fails exactly when no member carries the id. */
  lemma SetStatusMisses(ms: seq<Member>, memberId: string, status: Status, now: int)
    ensures SetStatus(ms, memberId, status, now).None? <==> forall j :: 0 <= j < |ms| ==> ms[j].id != memberId
  {
    if SetStatus(ms, memberId, status, now).None? {
      forall j | 0 <= j < |ms|
        ensures ms[j].id != memberId
      {
        assert !IdMatcher(memberId)(ms[j]);
      }
    } else {
      var i := FirstIndex(ms, IdMatcher(memberId)).value;
      assert IdMatcher(memberId)(ms[i]);
    }
  }

  /**
   A status update that finds its member (the first with the id) changes that
   member's status and last activity and nothing else.
   */
  lemma SetStatusUpdatesOnly(ms: seq<Member>, memberId: string, status: Status, now: int, i: nat)
    requires i < |ms| && ms[i].id == memberId
    requires forall j :: 0 <= j < i ==> ms[j].id != memberId
    ensures var r := SetStatus(ms, memberId, status, now);
      && r.Some? && |r.value| == |ms|
      && r.value[i] == ms[i].(status := status, lastActivity := now)
      && (forall j :: 0 <= j < |ms| && j != i ==> r.value[j] == ms[j])
  {
    assert IdMatcher(memberId)(ms[i]);
  }

  /** A status update keeps the names, and so keeps them distinct. */
  lemma SetStatusKeepsNames(ms: seq<Member>, memberId: string, status: Status, now: int)
    requires SetStatus(ms, memberId, status, now).Some?
    ensures var r := SetStatus(ms, memberId, status, now).value;
      |r| == |ms| && (forall j :: 0 <= j < |ms| ==> r[j].name == ms[j].name && r[j].id == ms[j].id && r[j].role == ms[j].role)
      && (NamesDistinct(ms) ==> NamesDistinct(r))
  {
  }

  datatype Stats = Stats(total: nat, present: nat, missing: nat)

  /** The number of members whose status lies in `st`. */
  function Count(ms: seq<Member>, st: set<Status>): nat
  {
    if ms == [] then 0 else (if ms[0].status in st then 1 else 0) + Count(ms[1..], st)
  }

  /** Statuses in disjoint sets are counted separately and add up. */
  lemma {:induction false} CountSplit(ms: seq<Member>, a: set<Status>, b: set<Status>)
    requires a !! b
    ensures Count(ms, a) + Count(ms, b) == Count(ms, a + b)
  {
    if ms != [] {
      CountSplit(ms[1..], a, b);
    }
  }

  lemma {:induction false} CountAll(ms: seq<Member>)
    ensures Count(ms, {Joined, Missing, Present}) == |ms|
  {
    if ms != [] {
      assert ms[0].status.Joined? || ms[0].status.Missing? || ms[0].status.Present?;
      CountAll(ms[1..]);
    }
  }

  /** Replacing member `i` changes a count only by what the old and new statuses contribute. */
  lemma {:induction false} CountUpdate(ms: seq<Member>, i: nat, m: Member, st: set<Status>)
    requires i < |ms|
    ensures Count(ms[i := m], st) + (if ms[i].status in st then 1 else 0)
         == Count(ms, st) + (if m.status in st then 1 else 0)
  {
    if i > 0 {
      assert ms[i := m][1..] == ms[1..][i - 1 := m];
      CountUpdate(ms[1..], i - 1, m, st);
    } else {
      assert ms[i := m][1..] == ms[1..];
    }
  }

  lemma {:induction false} CountAppend(ms: seq<Member>, m: Member, st: set<Status>)
    ensures Count(ms + [m], st) == Count(ms, st) + (if m.status in st then 1 else 0)
  {
    if ms != [] {
      assert (ms + [m])[1..] == ms[1..] + [m];
      CountAppend(ms[1..], m, st);
    }
  }

  /**
   `getMemberStats`: `present` counts the members who are present or have
   joined, `missing` those who are missing; the two split the list.
   */
  function MemberStats(ms: seq<Member>): (r: Stats)
    ensures r.total == |ms|
    ensures r.present + r.missing == r.total
  {
    CountSplit(ms, {Present, Joined}, {Missing});
    assert {Present, Joined} + {Missing} == {Joined, Missing, Present};
    CountAll(ms);
    Stats(|ms|, Count(ms, {Present, Joined}), Count(ms, {Missing}))
  }

  /** A count is zero exactly when no member has a status in `st`. */
  lemma {:induction false} CountZero(ms: seq<Member>, st: set<Status>)
    ensures Count(ms, st) == 0 <==> forall i :: 0 <= i < |ms| ==> ms[i].status !in st
  {
    if ms != [] {
      CountZero(ms[1..], st);
      assert forall i :: 1 <= i < |ms| ==> ms[i] == ms[1..][i - 1];
    }
  }

  /** Nobody is reported missing exactly when no member has the missing status. */
  lemma NoneMissing(ms: seq<Member>)
    ensures MemberStats(ms).missing == 0 <==> forall i :: 0 <= i < |ms| ==> ms[i].status != Missing
  {
    CountZero(ms, {Missing});
  }

  /**
   How a join moves the counts: a new member adds one present member; a
   re-join makes a missing member present and leaves the other counts alone.
   */
  lemma JoinStats(ms: seq<Member>, name: string, phone: Option<string>, newId: string, now: int)
    ensures var before := MemberStats(ms);
      var after := MemberStats(Join(ms, name, phone, newId, now).members);
      match FirstIndex(ms, NameMatcher(name))
      case None => after == Stats(before.total + 1, before.present + 1, before.missing)
      case Some(i) =>
        if ms[i].status == Missing then after.total == before.total && after.present == before.present + 1 && after.missing + 1 == before.missing
        else after == before
  {
    var r := Join(ms, name, phone, newId, now);
    match FirstIndex(ms, NameMatcher(name))
    case None =>
      CountAppend(ms, r.member, {Present, Joined});
      CountAppend(ms, r.member, {Missing});
    case Some(i) =>
      CountUpdate(ms, i, r.member, {Present, Joined});
      CountUpdate(ms, i, r.member, {Missing});
  }

  /** How a successful status update moves the counts. */
  lemma SetStatusStats(ms: seq<Member>, memberId: string, status: Status, now: int)
    requires SetStatus(ms, memberId, status, now).Some?
    ensures var before := MemberStats(ms);
      var after := MemberStats(SetStatus(ms, memberId, status, now).value);
      var i := FirstIndex(ms, IdMatcher(memberId)).value;
      && after.total == before.total
      && after.missing == before.missing - (if ms[i].status == Missing then 1 else 0) + (if status == Missing then 1 else 0)
  {
    var i := FirstIndex(ms, IdMatcher(memberId)).value;
    CountUpdate(ms, i, ms[i].(status := status, lastActivity := now), {Missing});
  }
}
