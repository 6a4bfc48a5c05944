/**
  Properties of the moderation transitions that relate several calls or hold
  across the whole state: the invariant `Valid` is kept by every transition,
  promotion and revocation undo each other on a plain user, unbanning is
  idempotent, and ban history reflects exactly the ledger.
 */
module ModerationProps {
  import opened Common
  import opened UserModel
  import opened Sorting
  import opened Moderation

  // ------------------------------------------------------------ roles

  /** Revoking a freshly promoted plain user gives back the state as it was. */
  lemma {:induction false} PromoteRevokeRoundTrip(c: Caller, target: UserId, s: State)
    requires HasRole(c, AdminOnly)
    requires FindUser(s.users, target).Some? && s.users[FindUser(s.users, target).value].role == User
    ensures Promote(c, target, s).0 == Ok
    ensures Revoke(c, target, Promote(c, target, s).1) == (Ok, s)
  {
    var i := FindUser(s.users, target).value;
    var s1 := Promote(c, target, s).1;
    FindUserAfterUpdate(s.users, i, s.users[i].(role := Moderator));
    assert s1.users[i := s1.users[i].(role := User)] == s.users;
  }

  /** Promotion has no guard on the target's current role: an admin target
      comes out a moderator, and a following revoke leaves it a plain user. */
  lemma {:induction false} PromoteDemotesAdmin(c: Caller, target: UserId, s: State)
    requires HasRole(c, AdminOnly)
    requires FindUser(s.users, target).Some? && s.users[FindUser(s.users, target).value].role == Admin
    ensures var s1 := Promote(c, target, s).1;
      && s1.users[FindUser(s.users, target).value].role == Moderator
      && Revoke(c, target, s1).1.users[FindUser(s.users, target).value].role == User
  {
    var i := FindUser(s.users, target).value;
    FindUserAfterUpdate(s.users, i, s.users[i].(role := Moderator));
  }

  /** The role check comes before the lookup: a caller who is not an admin is
      refused whether or not the target exists, and nothing changes. */
  lemma RoleCheckPrecedesLookup(c: Caller, present: UserId, absent: UserId, s: State)
    requires !HasRole(c, AdminOnly)
    requires FindUser(s.users, present).Some? && FindUser(s.users, absent).None?
    ensures Promote(c, present, s) == Promote(c, absent, s) == (Forbidden, s)
    ensures Revoke(c, present, s) == Revoke(c, absent, s) == (Forbidden, s)
  {
  }

  // ------------------------------------------------------------ bans

  /** A ban is permanent exactly when the requested duration is -1; otherwise
      it ends `duration` hours after `now`. */
  lemma BanExpiryMeaning(c: Caller, target: UserId, reason: Option<string>, d: int, now: Millis, s: State)
    requires Ban(c, target, reason, Some(d), now, s).0 == Ok
    ensures var rec := Ban(c, target, reason, Some(d), now, s).1.bans[|s.bans|];
      && (rec.bannedUntil.None? <==> d == -1)
      && (d != -1 ==> rec.bannedUntil.value - rec.bannedAt == d * 3_600_000)
      && rec.bannedAt == now && rec.bannedBy == c.id && rec.userId == target
  {
  }

  /** Nothing forbids banning oneself: the actor and the target are separate
      fields that may hold the same id. */
  lemma SelfBanRecordsActorAsTarget(c: Caller, reason: string, d: int, now: Millis, s: State)
    requires HasRole(c, Staff) && FindUser(s.users, c.id).Some?
    requires reason != "" && d == -1
    ensures var r := Ban(c, c.id, Some(reason), Some(d), now, s);
      r.0 == Ok && r.1.bans[|s.bans|].bannedBy == r.1.bans[|s.bans|].userId
  {
  }

  /** Unbanning twice is unbanning once. */
  lemma {:induction false} UnbanIdempotent(c: Caller, target: UserId, s: State)
    ensures Unban(c, target, Unban(c, target, s).1) == Unban(c, target, s)
  {
    if HasRole(c, Staff) && FindUser(s.users, target).Some? {
      var i := FindUser(s.users, target).value;
      var u := s.users[i].(isBanned := false, banReason := None, bannedUntil := None);
      FindUserAfterUpdate(s.users, i, u);
      assert s.users[i := u][i := u] == s.users[i := u];
    }
  }

  /** After a ban the target's history holds exactly one more entry: the one
      just written. */
  lemma {:induction false} BanExtendsHistory(c: Caller, target: UserId, reason: Option<string>,
                                             duration: Option<int>, now: Millis, s: State)
    requires Ban(c, target, reason, duration, now, s).0 == Ok
    ensures var s1 := Ban(c, target, reason, duration, now, s).1;
      multiset(BanHistory(target, s1)) == multiset(BanHistory(target, s)) + multiset{s1.bans[|s.bans|]}
  {
    var s1 := Ban(c, target, reason, duration, now, s).1;
    HistoryAppend(target, s, s1, s1.bans[|s.bans|]);
  }

  lemma HistoryAppend(target: UserId, s: State, s1: State, rec: BanRecord)
    requires s1.bans == s.bans + [rec] && rec.userId == target
    ensures multiset(BanHistory(target, s1)) == multiset(BanHistory(target, s)) + multiset{rec}
  {
    FilterAppend(s.bans, rec, (b: BanRecord) => b.userId == target);
    assert UserBans(s1.bans, target) == UserBans(s.bans, target) + [rec];
  }

  /** A history never mentions another user, and lists every entry about the
      target. */
  lemma HistoryIsExactlyTheTargets(target: UserId, s: State, b: BanRecord)
    ensures b in BanHistory(target, s) <==> b in s.bans && b.userId == target
  {
    var h := BanHistory(target, s);
    assert b in h <==> multiset(h)[b] > 0;
    assert b in s.bans <==> multiset(s.bans)[b] > 0;
  }

  // ------------------------------------------------------------ reports

  /** Resolving an already resolved report overwrites its resolution fields;
      the status stays resolved. */
  lemma {:induction false} ReResolveOverwrites(c1: Caller, c2: Caller, id: ReportId,
                                               res1: Option<string>, res2: Option<string>,
                                               t1: Millis, t2: Millis, s: State)
    requires ResolveReport(c1, id, res1, t1, s).0 == Ok && HasRole(c2, Staff)
    ensures var s1 := ResolveReport(c1, id, res1, t1, s).1;
      var r2 := ResolveReport(c2, id, res2, t2, s1);
      var k := FindReport(s.reports, id).value;
      && r2.0 == Ok
      && r2.1.reports[k].status == Resolved
      && r2.1.reports[k].resolution == res2
      && r2.1.reports[k].resolvedBy == Some(c2.id)
      && r2.1.reports[k].resolvedAt == Some(t2)
  {
    var s1 := ResolveReport(c1, id, res1, t1, s).1;
    var k := FindReport(s.reports, id).value;
    assert s1.reports[k].id == id;
    assert forall j :: 0 <= j < k ==> s1.reports[j] == s.reports[j];
    assert FindReport(s1.reports, id) == Some(k);
  }

  /** A report filed by anyone, against anyone, is pending and listed by
      getReports afterwards. */
  lemma {:induction false} ReportThenListed(c: Caller, target: UserId, reason: string, id: ReportId,
                                            now: Millis, s: State, staff: Caller)
    requires reason != "" && FindReport(s.reports, id).None? && HasRole(staff, Staff)
    ensures var s1 := ReportUser(c, target, Some(reason), id, now, s).1;
      var p := Report(id, target, c.id, reason, Pending, None, None, None, now);
      && ReportUser(c, target, Some(reason), id, now, s).0 == Ok
      && p in GetReports(staff, s1).1
  {
    var s1 := ReportUser(c, target, Some(reason), id, now, s).1;
    var p := Report(id, target, c.id, reason, Pending, None, None, None, now);
    var listed := GetReports(staff, s1).1;
    assert p in multiset(s1.reports);
    assert p in multiset(listed);
  }

  // ------------------------------------------------------------ the invariant

  lemma {:induction false} ChangeRolePreservesValid(c: Caller, target: UserId, role: Role, s: State)
    requires Valid(s)
    ensures Valid(ChangeRole(c, target, role, s).1)
  {
    var r := ChangeRole(c, target, role, s);
    if r.0 == Ok {
      var i := FindUser(s.users, target).value;
      var s1 := r.1;
      assert forall j :: 0 <= j < |s.users| ==> s1.users[j].id == s.users[j].id;
      forall u | u in s1.users
        ensures if u.isBanned then
                  LastBan(s1.bans, u.id).Some?
                  && u.banReason == Some(LastBan(s1.bans, u.id).value.reason)
                  && u.bannedUntil == LastBan(s1.bans, u.id).value.bannedUntil
                else u.banReason.None? && u.bannedUntil.None?
      {
        var j :| 0 <= j < |s1.users| && s1.users[j] == u;
        assert s.users[j] in s.users;
      }
    }
  }

  lemma {:induction false} BanPreservesValid(c: Caller, target: UserId, reason: Option<string>,
                                             duration: Option<int>, now: Millis, s: State)
    requires Valid(s)
    ensures Valid(Ban(c, target, reason, duration, now, s).1)
  {
    var r := Ban(c, target, reason, duration, now, s);
    if r.0 == Ok {
      var i := FindUser(s.users, target).value;
      var s1 := r.1;
      var rec := s1.bans[|s.bans|];
      assert s1.bans == s.bans + [rec];
      assert forall j :: 0 <= j < |s.users| ==> s1.users[j].id == s.users[j].id;
      forall u | u in s1.users
        ensures if u.isBanned then
                  LastBan(s1.bans, u.id).Some?
                  && u.banReason == Some(LastBan(s1.bans, u.id).value.reason)
                  && u.bannedUntil == LastBan(s1.bans, u.id).value.bannedUntil
                else u.banReason.None? && u.bannedUntil.None?
      {
        var j :| 0 <= j < |s1.users| && s1.users[j] == u;
        LastBanAppend(s.bans, rec, u.id);
        if j != i {
          assert s.users[j] in s.users;
          assert u.id != target;
        }
      }
    }
  }

  lemma {:induction false} UnbanPreservesValid(c: Caller, target: UserId, s: State)
    requires Valid(s)
    ensures Valid(Unban(c, target, s).1)
  {
    var r := Unban(c, target, s);
    if r.0 == Ok {
      var i := FindUser(s.users, target).value;
      var s1 := r.1;
      assert forall j :: 0 <= j < |s.users| ==> s1.users[j].id == s.users[j].id;
      forall u | u in s1.users
        ensures if u.isBanned then
                  LastBan(s1.bans, u.id).Some?
                  && u.banReason == Some(LastBan(s1.bans, u.id).value.reason)
                  && u.bannedUntil == LastBan(s1.bans, u.id).value.bannedUntil
                else u.banReason.None? && u.bannedUntil.None?
      {
        var j :| 0 <= j < |s1.users| && s1.users[j] == u;
        if j != i {
          assert s.users[j] in s.users;
        }
      }
    }
  }

  lemma {:induction false} ReportUserPreservesValid(c: Caller, target: UserId, reason: Option<string>,
                                                    id: ReportId, now: Millis, s: State)
    requires Valid(s)
    ensures Valid(ReportUser(c, target, reason, id, now, s).1)
  {
    var r := ReportUser(c, target, reason, id, now, s);
    if r.0 == Ok {
      var s1 := r.1;
      var p := s1.reports[|s.reports|];
      assert s1.reports == s.reports + [p];
      assert ReportWellFormed(p);
      forall q | q in s1.reports ensures ReportWellFormed(q) {
        if q != p { assert q in s.reports; }
      }
    }
  }

  lemma {:induction false} ResolvePreservesValid(c: Caller, id: ReportId, resolution: Option<string>,
                                                 now: Millis, s: State)
    requires Valid(s)
    ensures Valid(ResolveReport(c, id, resolution, now, s).1)
  {
    var r := ResolveReport(c, id, resolution, now, s);
    if r.0 == Ok {
      var k := FindReport(s.reports, id).value;
      var s1 := r.1;
      assert s.reports[k] in s.reports;
      assert forall j :: 0 <= j < |s.reports| ==> s1.reports[j].id == s.reports[j].id;
      forall q | q in s1.reports ensures ReportWellFormed(q) {
        var j :| 0 <= j < |s1.reports| && s1.reports[j] == q;
        if j != k { assert s.reports[j] in s.reports; }
      }
    }
  }
}
