/**
  The moderation controller (server/src/controllers/moderationController.ts)
  as pure transitions over an explicit state: the user collection, the
  append-only ban ledger (server/src/models/BanRecord.ts) and the report
  collection (server/src/models/Report.ts).

  Every transition takes the authenticated caller and the clock reading `now`
  and answers a status together with the new state. The role check is "the
  caller's role is one of the allowed roles"; the caller's id is an input.
 */
module Moderation {
  import opened Common
  import opened UserModel
  import opened Sorting

  type ReportId = string

  datatype Caller = Caller(id: UserId, role: Role)

  /** A ban-ledger entry; `bannedUntil == None` is a permanent ban. */
  datatype BanRecord = BanRecord(
    userId: UserId,
    reason: string,
    bannedBy: UserId,
    bannedAt: Millis,
    bannedUntil: Option<Millis>)

  datatype ReportStatus = Pending | Resolved

  datatype Report = Report(
    id: ReportId,
    reportedUser: UserId,
    reportedBy: UserId,
    reason: string,
    status: ReportStatus,
    resolution: Option<string>,
    resolvedBy: Option<UserId>,
    resolvedAt: Option<Millis>,
    createdAt: Millis)

  datatype State = State(users: seq<Account>, bans: seq<BanRecord>, reports: seq<Report>)

  const Staff: set<Role> := {Moderator, Admin}
  const AdminOnly: set<Role> := {Admin}

  const MillisPerHour: int := 60 * 60 * 1000

  /** `checkRole(req, allowed)`. */
  predicate HasRole(c: Caller, allowed: set<Role>) {
    c.role in allowed
  }

  /** Mongoose's `required` on a string: present and not empty. */
  predicate RequiredString(v: Option<string>) {
    v.Some? && v.value != ""
  }

  // ---------------------------------------------------------------- invariants

  /** The most recent ledger entry (in append order) about `uid`. */
  function LastBan(bans: seq<BanRecord>, uid: UserId): (r: Option<BanRecord>)
    ensures r.Some? ==> r.value in bans && r.value.userId == uid
    ensures r.None? <==> forall b :: b in bans ==> b.userId != uid
  {
    if |bans| == 0 then None
    else if bans[|bans| - 1].userId == uid then Some(bans[|bans| - 1])
    else
      var r := LastBan(bans[..|bans| - 1], uid);
      assert bans == bans[..|bans| - 1] + [bans[|bans| - 1]];
      r
  }

  lemma LastBanAppend(bans: seq<BanRecord>, b: BanRecord, uid: UserId)
    ensures LastBan(bans + [b], uid) == if b.userId == uid then Some(b) else LastBan(bans, uid)
  {
    assert (bans + [b])[..|bans|] == bans;
  }

  /** A banned user's flags repeat their latest ledger entry; an unbanned user
      carries no ban details. */
  predicate BanFlagsAgree(users: seq<Account>, bans: seq<BanRecord>) {
    forall u :: u in users ==>
      if u.isBanned then
        LastBan(bans, u.id).Some?
        && u.banReason == Some(LastBan(bans, u.id).value.reason)
        && u.bannedUntil == LastBan(bans, u.id).value.bannedUntil
      else u.banReason.None? && u.bannedUntil.None?
  }

  predicate ReportWellFormed(r: Report) {
    && r.reason != ""
    && (r.status == Pending ==> r.resolution.None? && r.resolvedBy.None? && r.resolvedAt.None?)
    && (r.status == Resolved ==> r.resolvedBy.Some? && r.resolvedAt.Some?)
  }

  predicate UniqueReportIds(reports: seq<Report>) {
    forall i, j :: 0 <= i < j < |reports| ==> reports[i].id != reports[j].id
  }

  /** What every reachable state satisfies. */
  predicate Valid(s: State) {
    && UniqueIds(s.users)
    && (forall b :: b in s.bans ==> b.reason != "")
    && UniqueReportIds(s.reports)
    && (forall r :: r in s.reports ==> ReportWellFormed(r))
    && BanFlagsAgree(s.users, s.bans)
  }

  // ---------------------------------------------------------------- operations

  /** getUsers: every account, password left out, in collection order. The
      controller itself checks no role; the route does. */
  function GetUsers(s: State): (r: seq<UserView>)
    ensures |r| == |s.users|
    ensures forall i :: 0 <= i < |r| ==> r[i] == View(s.users[i])
  {
    seq(|s.users|, i requires 0 <= i < |s.users| => View(s.users[i]))
  }

  /** promoteModerator / revokeModerator: admin only, checked before the
      target is looked up; the role is overwritten whatever it was. */
  function ChangeRole(c: Caller, target: UserId, newRole: Role, s: State): (r: (Status, State))
    ensures !HasRole(c, AdminOnly) ==> r == (Forbidden, s)
    ensures HasRole(c, AdminOnly) && FindUser(s.users, target).None? ==> r == (NotFound, s)
    ensures r.0 == Ok <==> HasRole(c, AdminOnly) && FindUser(s.users, target).Some?
    ensures r.0 == Ok ==>
      var i := FindUser(s.users, target).value;
      && r.1.users == s.users[i := s.users[i].(role := newRole)]
      && r.1.bans == s.bans && r.1.reports == s.reports
  {
    if !HasRole(c, AdminOnly) then (Forbidden, s)
    else match FindUser(s.users, target)
      case None => (NotFound, s)
      case Some(i) => (Ok, s.(users := s.users[i := s.users[i].(role := newRole)]))
  }

  function Promote(c: Caller, target: UserId, s: State): (r: (Status, State))
    ensures r.0 == Ok ==> FindUser(r.1.users, target).Some? && r.1.users[FindUser(r.1.users, target).value].role == Moderator
  {
    var r := ChangeRole(c, target, Moderator, s);
    if r.0 == Ok then
      var i := FindUser(s.users, target).value;
      FindUserAfterUpdate(s.users, i, s.users[i].(role := Moderator));
      r
    else r
  }

  function Revoke(c: Caller, target: UserId, s: State): (r: (Status, State))
    ensures r.0 == Ok ==> FindUser(r.1.users, target).Some? && r.1.users[FindUser(r.1.users, target).value].role == User
  {
    var r := ChangeRole(c, target, User, s);
    if r.0 == Ok then
      var i := FindUser(s.users, target).value;
      FindUserAfterUpdate(s.users, i, s.users[i].(role := User));
      r
    else r
  }

  /** The end of a ban: `None` is permanent (duration -1); otherwise `now` plus
      the duration in hours. `Invalid` stands for an Invalid Date: a missing
      duration (NaN) or one outside the `Date` range. */
  datatype Expiry = Expires(until: Option<Millis>) | Invalid

  function BanExpiry(duration: Option<int>, now: Millis): (e: Expiry)
    ensures duration == Some(-1) ==> e == Expires(None)
    ensures duration.None? ==> e == Invalid
    ensures duration.Some? && duration.value != -1 ==>
      var t := now + duration.value * MillisPerHour;
      e == if ValidDate(t) then Expires(Some(t)) else Invalid
  {
    match duration
    case None => Invalid
    case Some(d) =>
      if d == -1 then Expires(None)
      else
        var t := now + d * MillisPerHour;
        if ValidDate(t) then Expires(Some(t)) else Invalid
  }

  /** banUser: staff only, then the target must exist; the ledger entry is
      written first and its validators (reason required, a valid date) decide
      whether anything is written at all. */
  function Ban(c: Caller, target: UserId, reason: Option<string>, duration: Option<int>,
               now: Millis, s: State): (r: (Status, State))
    ensures !HasRole(c, Staff) ==> r == (Forbidden, s)
    ensures HasRole(c, Staff) && FindUser(s.users, target).None? ==> r == (NotFound, s)
    ensures r.0 != Ok ==> r.1 == s
    ensures r.0 == Ok <==>
      HasRole(c, Staff) && FindUser(s.users, target).Some?
      && RequiredString(reason) && BanExpiry(duration, now).Expires?
    ensures r.0 == Ok ==>
      var i := FindUser(s.users, target).value;
      var until := BanExpiry(duration, now).until;
      && r.1.bans == s.bans + [BanRecord(target, reason.value, c.id, now, until)]
      && r.1.users == s.users[i := s.users[i].(isBanned := true, banReason := reason, bannedUntil := until)]
      && r.1.reports == s.reports
  {
    if !HasRole(c, Staff) then (Forbidden, s)
    else match FindUser(s.users, target)
      case None => (NotFound, s)
      case Some(i) =>
        match BanExpiry(duration, now)
        case Invalid => (ServerError, s)
        case Expires(until) =>
          if !RequiredString(reason) then (ServerError, s)
          else
            var record := BanRecord(target, reason.value, c.id, now, until);
            var u := s.users[i].(isBanned := true, banReason := reason, bannedUntil := until);
            (Ok, State(s.users[i := u], s.bans + [record], s.reports))
  }

  /** unbanUser: staff only, target must exist; clears the flags and leaves
      the ledger alone. */
  function Unban(c: Caller, target: UserId, s: State): (r: (Status, State))
    ensures !HasRole(c, Staff) ==> r == (Forbidden, s)
    ensures HasRole(c, Staff) && FindUser(s.users, target).None? ==> r == (NotFound, s)
    ensures r.0 == Ok <==> HasRole(c, Staff) && FindUser(s.users, target).Some?
    ensures r.1.bans == s.bans && r.1.reports == s.reports
    ensures r.0 == Ok ==>
      var i := FindUser(s.users, target).value;
      r.1.users == s.users[i := s.users[i].(isBanned := false, banReason := None, bannedUntil := None)]
  {
    if !HasRole(c, Staff) then (Forbidden, s)
    else match FindUser(s.users, target)
      case None => (NotFound, s)
      case Some(i) =>
        var u := s.users[i].(isBanned := false, banReason := None, bannedUntil := None);
        (Ok, s.(users := s.users[i := u]))
  }

  /** getBanHistory: the target's ledger entries, newest first. The controller
      checks no role. */
  function BanHistory(target: UserId, s: State): (r: seq<BanRecord>)
    ensures SortedDesc(r, (b: BanRecord) => b.bannedAt)
    ensures forall b :: multiset(r)[b] == if b.userId == target then multiset(s.bans)[b] else 0
  {
    FilterMultiset(s.bans, (b: BanRecord) => b.userId == target);
    SortDesc(UserBans(s.bans, target), (b: BanRecord) => b.bannedAt)
  }

  /** The ledger entries about one user, in ledger order. */
  function UserBans(bans: seq<BanRecord>, target: UserId): seq<BanRecord> {
    Filter(bans, (b: BanRecord) => b.userId == target)
  }

  /** reportUser: any caller, any target (no existence or self check); the
      report's `required` reason decides. `newId` is the id the database
      assigns; an id already taken fails as a duplicate key. */
  function ReportUser(c: Caller, target: UserId, reason: Option<string>, newId: ReportId,
                      now: Millis, s: State): (r: (Status, State))
    ensures r.0 != Ok ==> r.1 == s
    ensures r.0 == Ok <==> RequiredString(reason) && forall k :: 0 <= k < |s.reports| ==> s.reports[k].id != newId
    ensures r.0 == Ok ==>
      && r.1.reports == s.reports + [Report(newId, target, c.id, reason.value, Pending, None, None, None, now)]
      && r.1.users == s.users && r.1.bans == s.bans
  {
    if !RequiredString(reason) then (ServerError, s)
    else match IndexWhere(s.reports, (p: Report) => p.id == newId)
      case Some(_) => (ServerError, s)
      case None =>
        var report := Report(newId, target, c.id, reason.value, Pending, None, None, None, now);
        (Ok, s.(reports := s.reports + [report]))
  }

  /** getReports: staff only; every report, newest first. */
  function GetReports(c: Caller, s: State): (r: (Status, seq<Report>))
    ensures !HasRole(c, Staff) ==> r == (Forbidden, [])
    ensures HasRole(c, Staff) ==> r.0 == Ok && multiset(r.1) == multiset(s.reports)
    ensures SortedDesc(r.1, (p: Report) => p.createdAt)
  {
    if !HasRole(c, Staff) then (Forbidden, [])
    else (Ok, SortDesc(s.reports, (p: Report) => p.createdAt))
  }

  function FindReport(reports: seq<Report>, id: ReportId): (r: Option<nat>)
    ensures r.Some? ==> r.value < |reports| && reports[r.value].id == id
    ensures r.None? <==> forall j :: 0 <= j < |reports| ==> reports[j].id != id
  {
    IndexWhere(reports, (p: Report) => p.id == id)
  }

  /** resolveReport: staff only, then the report must exist; status, resolution,
      resolver and time are written together, whatever the status was. */
  function ResolveReport(c: Caller, reportId: ReportId, resolution: Option<string>,
                         now: Millis, s: State): (r: (Status, State))
    ensures !HasRole(c, Staff) ==> r == (Forbidden, s)
    ensures HasRole(c, Staff) && FindReport(s.reports, reportId).None? ==> r == (NotFound, s)
    ensures r.0 == Ok <==> HasRole(c, Staff) && FindReport(s.reports, reportId).Some?
    ensures r.1.users == s.users && r.1.bans == s.bans && |r.1.reports| == |s.reports|
    ensures r.0 == Ok ==>
      var k := FindReport(s.reports, reportId).value;
      r.1.reports == s.reports[k := s.reports[k].(status := Resolved, resolution := resolution,
                                                    resolvedBy := Some(c.id), resolvedAt := Some(now))]
  {
    if !HasRole(c, Staff) then (Forbidden, s)
    else match FindReport(s.reports, reportId)
      case None => (NotFound, s)
      case Some(k) =>
        var p := s.reports[k].(status := Resolved, resolution := resolution,
                               resolvedBy := Some(c.id), resolvedAt := Some(now));
        (Ok, s.(reports := s.reports[k := p]))
  }
}
