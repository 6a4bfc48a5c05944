/**
  The moderator panel of the client
  (src/components/Moderation/ModeratorPanel.tsx), without its rendering:
  the search filter over the loaded users, which action buttons a viewer
  sees for each user, and the ban form (reason, duration, validation and
  reset). The requests it sends are returned as values; the server's answer
  is a flag.
 */
module ModeratorPanel {
  import opened Common
  import opened Text
  import opened JsNumber
  import opened UserModel
  import Moderation
  import ModerationRoutes

  /** A user as the panel lists it. */
  datatype PanelUser = PanelUser(id: UserId, name: string, email: string, role: Role, isBanned: bool)

  // ------------------------------------------------------------ loading

  /** The text fields of one user in the listing's JSON answer, under the
      document's own names: a Mongoose document's JSON has `_id` and
      `username`, and neither `id` nor `name`. `role` and `isBanned` carry
      the same names on both sides and are passed along as they are. */
  function ListingJson(v: UserView): (j: map<string, string>)
    ensures j.Keys == {"_id", "username", "email"}
    ensures j["_id"] == v.id && j["username"] == v.username && j["email"] == v.email
  {
    map["_id" := v.id, "username" := v.username, "email" := v.email]
  }

  /** The panel's reading of a listed user as written: `id`, `name` and
      `email`. A missing `name` is `undefined`, on which the search filter's
      `toLowerCase()` throws; `None` stands for that failure (a missing `id`
      is refused alike). */
  function ReadAsWritten(j: map<string, string>, role: Role, isBanned: bool): (r: Option<PanelUser>)
    ensures r.Some? <==> "id" in j && "name" in j && "email" in j
    ensures r.Some? ==> r.value.id == j["id"] && r.value.name == j["name"] && r.value.email == j["email"]
  {
    if "id" in j && "name" in j && "email" in j then Some(PanelUser(j["id"], j["name"], j["email"], role, isBanned))
    else None
  }

  /** The reading the panel evidently intends: the document's `_id` as the
      id and its `username` as the name. */
  function ReadListing(j: map<string, string>, role: Role, isBanned: bool): (r: Option<PanelUser>)
    ensures r.Some? <==> "_id" in j && "username" in j && "email" in j
    ensures r.Some? ==> r.value.id == j["_id"] && r.value.name == j["username"] && r.value.email == j["email"]
    ensures r.Some? ==> r.value.role == role && r.value.isBanned == isBanned
  {
    if "_id" in j && "username" in j && "email" in j then
      Some(PanelUser(j["_id"], j["username"], j["email"], role, isBanned))
    else None
  }

  /** As written, the panel cannot read any user the listing sends. */
  lemma {:induction false} ListingUnreadableAsWritten(v: UserView)
    ensures ReadAsWritten(ListingJson(v), v.role, v.isBanned).None?
  {
    var j := ListingJson(v);
    assert "name" !in j by {
      assert "name" != "_id" && "name" != "username" && "name" != "email";
    }
  }

  /** Read by its own field names, every listed user comes back with the
      account's id, username, e-mail, role and ban flag. */
  lemma {:induction false} ListingRoundTrip(v: UserView)
    ensures var r := ReadListing(ListingJson(v), v.role, v.isBanned);
      r == Some(PanelUser(v.id, v.username, v.email, v.role, v.isBanned))
  {
  }

  // ------------------------------------------------------------ search

  predicate Matches(u: PanelUser, term: string) {
    Contains(ToLower(u.name), ToLower(term)) || Contains(ToLower(u.email), ToLower(term))
  }

  /** filteredUsers: the users whose lower-cased name or email contains the
      lower-cased term, in their loaded order. */
  function Search(users: seq<PanelUser>, term: string): (r: seq<PanelUser>)
    ensures |r| <= |users|
    ensures forall u :: u in r <==> u in users && Matches(u, term)
  {
    forall u ensures u in Filter(users, (v: PanelUser) => Matches(v, term)) <==> u in users && Matches(u, term) {
      FilterMembership(users, (v: PanelUser) => Matches(v, term), u);
    }
    Filter(users, (v: PanelUser) => Matches(v, term))
  }

  /** An empty search keeps everybody. */
  lemma {:induction false} EmptySearchKeepsAll(users: seq<PanelUser>)
    ensures forall u :: u in Search(users, "") <==> u in users
  {
    forall u | u in users ensures Matches(u, "") {
      ContainsEmpty(ToLower(u.name));
    }
  }

  // ------------------------------------------------------------ action buttons

  datatype RoleAction = PromoteButton | RevokeButton
  datatype BanAction = BanButton | UnbanButton

  /** The promote/revoke button: for an admin viewer and a non-admin user. */
  function RoleButton(viewer: Option<Role>, u: PanelUser): (r: Option<RoleAction>)
    ensures r.Some? <==> viewer == Some(Admin) && u.role != Admin
    ensures r == Some(RevokeButton) <==> viewer == Some(Admin) && u.role == Moderator
  {
    if viewer == Some(Admin) && u.role != Admin then
      Some(if u.role == Moderator then RevokeButton else PromoteButton)
    else None
  }

  /** The ban/unban button: for staff viewers, unban when the user is banned. */
  function BanControl(viewer: Option<Role>, u: PanelUser): (r: Option<BanAction>)
    ensures r.Some? <==> viewer == Some(Admin) || viewer == Some(Moderator)
    ensures r == Some(UnbanButton) <==> r.Some? && u.isBanned
  {
    if viewer == Some(Admin) || viewer == Some(Moderator) then
      Some(if u.isBanned then UnbanButton else BanButton)
    else None
  }

  /** The server endpoint each button calls. */
  function RoleEndpoint(a: RoleAction): ModerationRoutes.Endpoint {
    match a
    case PromoteButton => ModerationRoutes.PromoteAt
    case RevokeButton => ModerationRoutes.RevokeAt
  }

  function BanEndpoint(a: BanAction): ModerationRoutes.Endpoint {
    match a
    case BanButton => ModerationRoutes.BanUserAt
    case UnbanButton => ModerationRoutes.UnbanUserAt
  }

  /** A button is shown only to viewers the server's route and controller
      checks both let through. */
  lemma ButtonsMatchServerPermissions(viewer: Option<Role>, u: PanelUser)
    ensures RoleButton(viewer, u).Some? ==> viewer.value in ModerationRoutes.Effective(RoleEndpoint(RoleButton(viewer, u).value))
    ensures BanControl(viewer, u).Some? ==> viewer.value in ModerationRoutes.Effective(BanEndpoint(BanControl(viewer, u).value))
  {
  }

  // ------------------------------------------------------------ ban form

  /** The values the duration list offers, in hours; `-1` is permanent. */
  const DurationChoices: seq<string> := ["1", "12", "24", "72", "168", "720", "-1"]

  const DefaultDuration := "24"

  const ReasonRequired := "Veuillez spécifier une raison"

  datatype BanForm = BanForm(selected: Option<PanelUser>, reason: string, duration: string, error: Option<string>)

  /** The ban request: the reason as typed and `parseInt` of the duration. */
  datatype BanRequest = BanRequest(userId: UserId, reason: string, duration: Option<int>)

  /** Closing the form, by cancelling or after a ban went through. */
  function ResetForm(f: BanForm): (r: BanForm)
    ensures r.selected.None? && r.reason == "" && r.duration == DefaultDuration
    ensures r.error == f.error
  {
    f.(selected := None, reason := "", duration := DefaultDuration)
  }

  /** handleBanUser: a blank reason sets the error and sends nothing; else the
      request is sent, and the form resets only if the server accepted it. */
  function SubmitBan(f: BanForm, userId: UserId, ok: bool): (r: (BanForm, Option<BanRequest>))
    ensures r.1.None? <==> Trim(f.reason) == ""
    ensures r.1.None? ==> r.0 == f.(error := Some(ReasonRequired))
    ensures r.1.Some? ==> r.1.value == BanRequest(userId, f.reason, ParseInt(f.duration))
    ensures r.1.Some? && ok ==> r.0 == ResetForm(f)
    ensures r.1.Some? && !ok ==> r.0 == f
  {
    if Trim(f.reason) == "" then (f.(error := Some(ReasonRequired)), None)
    else
      var req := BanRequest(userId, f.reason, ParseInt(f.duration));
      (if ok then ResetForm(f) else f, Some(req))
  }

  // ------------------------------------------------------------ properties

  /** The hours the offered durations stand for. */
  const DurationHours: seq<int> := [1, 12, 24, 72, 168, 720, -1]

  /** The decimal spellings of the offered hours. */
  lemma ShortSpellings()
    ensures NatToString(1) == "1" && NatToString(12) == "12" && NatToString(24) == "24"
    ensures NatToString(72) == "72" && "-" + NatToString(1) == "-1"
  {
  }

  lemma LongSpellings()
    ensures NatToString(168) == "168" && NatToString(720) == "720"
  {
  }

  /** Every offered duration parses to the number of hours it stands for. */
  lemma {:induction false} DurationChoicesParse(i: nat)
    requires i < |DurationChoices|
    ensures ParseInt(DurationChoices[i]) == Some(DurationHours[i])
  {
    if i < 4 || i == 6 { ShortSpellings(); } else { LongSpellings(); }
    if i == 6 { ParseIntNegativeRoundTrip(1); }
    else { ParseIntRoundTrip(DurationHours[i] as nat); }
  }

  /** Each offered duration gives the server a valid expiry. */
  lemma {:induction false} ChoiceExpires(i: nat, now: Millis)
    requires i < |DurationHours|
    requires 0 <= now <= MaxDateMillis - 720 * Moderation.MillisPerHour
    ensures Moderation.BanExpiry(Some(DurationHours[i]), now).Expires?
  {
    assert DurationHours[i] <= 720;
  }

  /** A ban the panel sends for an offered duration with a non-blank
      reason, by a staff caller, on a user read from the server's own
      listing, is accepted by the server. */
  lemma {:induction false} PanelBanAccepted(f: BanForm, v: UserView, ok: bool, c: Moderation.Caller,
                                            now: Millis, s: Moderation.State)
    requires v in Moderation.GetUsers(s)
    requires f.duration in DurationChoices && Trim(f.reason) != ""
    requires Moderation.HasRole(c, Moderation.Staff)
    requires 0 <= now <= MaxDateMillis - 720 * Moderation.MillisPerHour
    ensures ReadListing(ListingJson(v), v.role, v.isBanned).Some?
    ensures var p := ReadListing(ListingJson(v), v.role, v.isBanned).value;
      var req := SubmitBan(f, p.id, ok).1;
      req.Some? && Moderation.Ban(c, req.value.userId, Some(req.value.reason), req.value.duration, now, s).0 == Ok
  {
    var users := Moderation.GetUsers(s);
    var k :| 0 <= k < |users| && users[k] == v;
    assert s.users[k].id == v.id;
    var p := ReadListing(ListingJson(v), v.role, v.isBanned).value;
    var req := SubmitBan(f, p.id, ok).1.value;
    var i :| 0 <= i < |DurationChoices| && DurationChoices[i] == f.duration;
    DurationChoicesParse(i);
    ChoiceExpires(i, now);
    assert Trim("") == "";
    assert Moderation.RequiredString(Some(req.reason));
  }

  /** A reason of blanks only is refused by the panel although the server
      would store it. */
  lemma BlankReasonPanelOnly(f: BanForm, target: UserId, ok: bool)
    requires f.reason == " "
    ensures SubmitBan(f, target, ok).1.None?
    ensures Moderation.RequiredString(Some(f.reason))
  {
    assert IsSpace(' ');
    assert AllChars(" ", IsSpace);
  }
}
