/**
  The moderation router (server/src/routes/moderationRoutes.ts): every route
  sits behind token authentication, then a per-route role gate, then the
  controller, which may check the role a second time. The middleware that
  authenticates the token and the route-level `checkRole` are not part of the
  model's sources; authentication is an optional caller (absent is a 401) and
  a route-level role refusal is a 403 whose body is not modelled.
 */
module ModerationRoutes {
  import opened Common
  import opened UserModel
  import opened Sorting
  import opened Moderation
  import opened ModerationProps

  datatype Endpoint =
    | ListUsers | BanUserAt | UnbanUserAt | BanHistoryAt | ListReports
    | ResolveReportAt | PromoteAt | RevokeAt | ReportUserAt

  /** A request with its path parameter and the body fields the handler reads.
      `newId` on a report is the id the database assigns to the new document. */
  datatype Request =
    | GetUsersReq
    | BanReq(userId: UserId, reason: Option<string>, duration: Option<int>)
    | UnbanReq(userId: UserId)
    | BanHistoryReq(userId: UserId)
    | GetReportsReq
    | ResolveReq(reportId: ReportId, resolution: Option<string>)
    | PromoteReq(userId: UserId)
    | RevokeReq(userId: UserId)
    | ReportReq(userId: UserId, reason: Option<string>, newId: ReportId)

  datatype Body =
    | Info(message: string)
    | Error(error: string)
    | Users(users: seq<UserView>)
    | Bans(bans: seq<BanRecord>)
    | Reports(reports: seq<Report>)
    | Refused   // answered by the authentication or role middleware

  datatype Response = Response(status: Status, body: Body)

  function EndpointOf(r: Request): Endpoint {
    match r
    case GetUsersReq => ListUsers
    case BanReq(_, _, _) => BanUserAt
    case UnbanReq(_) => UnbanUserAt
    case BanHistoryReq(_) => BanHistoryAt
    case GetReportsReq => ListReports
    case ResolveReq(_, _) => ResolveReportAt
    case PromoteReq(_) => PromoteAt
    case RevokeReq(_) => RevokeAt
    case ReportReq(_, _, _) => ReportUserAt
  }

  /** The role list the router puts in front of each handler; `None` for the
      route open to every authenticated user. */
  function RouteGate(e: Endpoint): Option<set<Role>> {
    match e
    case PromoteAt | RevokeAt => Some(AdminOnly)
    case ReportUserAt => None
    case _ => Some(Staff)
  }

  /** The role list the handler itself checks, if any. */
  function ControllerGate(e: Endpoint): Option<set<Role>> {
    match e
    case PromoteAt | RevokeAt => Some(AdminOnly)
    case BanUserAt | UnbanUserAt | ListReports | ResolveReportAt => Some(Staff)
    case ListUsers | BanHistoryAt | ReportUserAt => None
  }

  predicate Admits(gate: Option<set<Role>>, r: Role) {
    gate.None? || r in gate.value
  }

  /** The roles each endpoint serves, as a table; the ensures checks the table
      against the two gates. */
  function Effective(e: Endpoint): (roles: set<Role>)
    ensures forall r :: r in roles <==> Passes(e, r)
  {
    match e
    case PromoteAt | RevokeAt => {Admin}
    case ReportUserAt =>
      assert forall r :: Passes(e, r) ==> r in {User, Moderator, Admin} by {
        forall r | Passes(e, r) ensures r in {User, Moderator, Admin} { RoleCases(r); }
      }
      {User, Moderator, Admin}
    case _ => {Moderator, Admin}
  }

  lemma RoleCases(r: Role)
    ensures r in {User, Moderator, Admin}
  {
  }

  predicate Passes(e: Endpoint, r: Role) {
    Admits(RouteGate(e), r) && Admits(ControllerGate(e), r)
  }

  const ServerErrorText := "Erreur serveur"
  const PermissionDenied := "Permission refusée"
  const UserNotFound := "Utilisateur non trouvé"
  const ReportNotFound := "Signalement non trouvé"

  /** Turns a transition's status into the handler's JSON answer. */
  function Answer(status: Status, success: string, notFound: string): (r: Response)
    ensures r.status == status
    ensures status == Ok ==> r.body == Info(success)
  {
    if status == Ok then Response(Ok, Info(success))
    else if status == Forbidden then Response(Forbidden, Error(PermissionDenied))
    else if status == NotFound then Response(NotFound, Error(notFound))
    else Response(status, Error(ServerErrorText))
  }

  /** The handler alone, as if it were reached with an authenticated caller. */
  function Controller(req: Request, c: Caller, now: Millis, s: State): (r: (Response, State))
    ensures r.0.status in {Ok, Forbidden, NotFound, ServerError}
    ensures r.0.status != Ok ==> r.1 == s
    ensures r.0.status == Forbidden ==> !Admits(ControllerGate(EndpointOf(req)), c.role)
    ensures Admits(ControllerGate(EndpointOf(req)), c.role) ==> r.0.status != Forbidden
    ensures req.GetUsersReq? ==> r == (Response(Ok, Users(GetUsers(s))), s)
    ensures req.BanHistoryReq? ==> r == (Response(Ok, Bans(BanHistory(req.userId, s))), s)
    ensures req.GetReportsReq? ==>
      var t := GetReports(c, s);
      r.1 == s && r.0.status == t.0 && (t.0 == Ok ==> r.0.body == Reports(t.1))
    ensures req.BanReq? ==>
      var t := Ban(c, req.userId, req.reason, req.duration, now, s);
      r.0.status == t.0 && r.1 == t.1
    ensures req.UnbanReq? ==> var t := Unban(c, req.userId, s); r.0.status == t.0 && r.1 == t.1
    ensures req.ResolveReq? ==>
      var t := ResolveReport(c, req.reportId, req.resolution, now, s);
      r.0.status == t.0 && r.1 == t.1
    ensures req.PromoteReq? ==> var t := Promote(c, req.userId, s); r.0.status == t.0 && r.1 == t.1
    ensures req.RevokeReq? ==> var t := Revoke(c, req.userId, s); r.0.status == t.0 && r.1 == t.1
    ensures req.ReportReq? ==>
      var t := ReportUser(c, req.userId, req.reason, req.newId, now, s);
      r.0.status == t.0 && r.1 == t.1
  {
    match req
    case GetUsersReq => (Response(Ok, Users(GetUsers(s))), s)
    case BanReq(u, reason, d) =>
      var t := Ban(c, u, reason, d, now, s);
      (Answer(t.0, "Utilisateur banni", UserNotFound), t.1)
    case UnbanReq(u) =>
      var t := Unban(c, u, s);
      (Answer(t.0, "Utilisateur débanni", UserNotFound), t.1)
    case BanHistoryReq(u) => (Response(Ok, Bans(BanHistory(u, s))), s)
    case GetReportsReq =>
      var t := GetReports(c, s);
      if t.0 == Ok then (Response(Ok, Reports(t.1)), s) else (Answer(t.0, "", ""), s)
    case ResolveReq(id, res) =>
      var t := ResolveReport(c, id, res, now, s);
      (Answer(t.0, "Signalement résolu", ReportNotFound), t.1)
    case PromoteReq(u) =>
      var t := Promote(c, u, s);
      (Answer(t.0, "Utilisateur promu modérateur", UserNotFound), t.1)
    case RevokeReq(u) =>
      var t := Revoke(c, u, s);
      (Answer(t.0, "Statut de modérateur révoqué", UserNotFound), t.1)
    case ReportReq(u, reason, id) =>
      var t := ReportUser(c, u, reason, id, now, s);
      (Answer(t.0, "Utilisateur signalé", ""), t.1)
  }

  /** The full route: authentication, the route's role gate, the handler. */
  function Dispatch(req: Request, caller: Option<Caller>, now: Millis, s: State): (r: (Response, State))
    ensures caller.None? ==> r == (Response(Unauthorized, Refused), s)
    ensures r.0.status != Ok ==> r.1 == s
    ensures r.0.status == Ok ==> caller.Some? && caller.value.role in Effective(EndpointOf(req))
    ensures caller.Some? && caller.value.role in Effective(EndpointOf(req)) ==>
      r.0.status != Unauthorized && r.0.status != Forbidden
    ensures caller.Some? && !Admits(RouteGate(EndpointOf(req)), caller.value.role) ==>
      r == (Response(Forbidden, Refused), s)
    ensures caller.Some? && Admits(RouteGate(EndpointOf(req)), caller.value.role) ==>
      r == Controller(req, caller.value, now, s)
  {
    match caller
    case None => (Response(Unauthorized, Refused), s)
    case Some(c) =>
      if !Admits(RouteGate(EndpointOf(req)), c.role) then (Response(Forbidden, Refused), s)
      else Controller(req, c, now, s)
  }

  // ------------------------------------------------------------ properties

  /** Ban history is guarded by the route alone: its handler answers any
      authenticated caller, a plain user included. */
  lemma BanHistoryGuardedByRouteOnly(u: UserId, c: Caller, now: Millis, s: State)
    requires c.role == User
    ensures Controller(BanHistoryReq(u), c, now, s).0.status == Ok
    ensures Dispatch(BanHistoryReq(u), Some(c), now, s).0.status == Forbidden
  {
    assert Controller(BanHistoryReq(u), c, now, s) == (Response(Ok, Bans(BanHistory(u, s))), s);
  }

  /** Every request keeps the state valid. */
  lemma {:induction false} DispatchPreservesValid(req: Request, caller: Option<Caller>, now: Millis, s: State)
    requires Valid(s)
    ensures Valid(Dispatch(req, caller, now, s).1)
  {
    if caller.Some? {
      var c := caller.value;
      match req
      case BanReq(u, reason, d) => BanPreservesValid(c, u, reason, d, now, s);
      case UnbanReq(u) => UnbanPreservesValid(c, u, s);
      case ResolveReq(id, res) => ResolvePreservesValid(c, id, res, now, s);
      case PromoteReq(u) => ChangeRolePreservesValid(c, u, Moderator, s);
      case RevokeReq(u) => ChangeRolePreservesValid(c, u, User, s);
      case ReportReq(u, reason, id) => ReportUserPreservesValid(c, u, reason, id, now, s);
      case _ =>
    }
  }

  /** The ban ledger only grows: no request removes or rewrites an entry. */
  lemma {:induction false} LedgerAppendOnly(req: Request, caller: Option<Caller>, now: Millis, s: State)
    ensures var s1 := Dispatch(req, caller, now, s).1;
      |s.bans| <= |s1.bans| && s1.bans[..|s.bans|] == s.bans
  {
    var s1 := Dispatch(req, caller, now, s).1;
    assert s.bans + [] == s.bans;
    if s1 != s && req.BanReq? {
      assert (s1.bans)[..|s.bans|] == s.bans;
    }
  }

  /** A resolved report stays resolved, and no request removes or reorders
      reports. */
  lemma {:induction false} ResolvedStaysResolved(req: Request, caller: Option<Caller>, now: Millis, s: State, k: nat)
    requires k < |s.reports| && s.reports[k].status == Resolved
    ensures var s1 := Dispatch(req, caller, now, s).1;
      k < |s1.reports| && s1.reports[k].status == Resolved && s1.reports[k].id == s.reports[k].id
  {
  }
}
