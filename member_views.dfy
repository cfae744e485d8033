/**
 * The request handling around the membership services: reading flags and
 * filters from the query string or the posted form, the page's own
 * permission test, and the service inputs each view builds.
 */
module MemberViews {
  import opened Wrappers
  import opened Text
  import opened Auth
  import opened Orgs
  import opened MemberServices

  /** The words `_parse_bool` reads as true. */
  const TrueWords := {"1", "true", "on", "yes"}

  /** `_parse_bool(value, default)`: the default for a missing value, else whether its normal form is a true word. */
  function ParseBool(value: Option<string>, default: bool): bool
  {
    if value.None? then default else Lower(Strip(value.value)) in TrueWords
  }

  /**
   * The default only matters when the value is missing, and a value reads
   * the same once it is stripped and lower-cased.
   */
  lemma ParseBoolProps(s: string, d1: bool, d2: bool)
    ensures ParseBool(Some(s), d1) == ParseBool(Some(s), d2)
    ensures ParseBool(Some(Lower(Strip(s))), d1) == ParseBool(Some(s), d2)
    ensures ParseBool(None, d1) == d1
  {
    NormaliseIdempotent(s);
  }

  /** A blank or unknown word reads as false, whatever the default. */
  lemma ParseBoolBlank(s: string, d: bool)
    requires Strip(s) == ""
    ensures !ParseBool(Some(s), d)
  {
  }

  /** `request.GET.get(key) or None` */
  function NoneIfBlank(value: Option<string>): (r: Option<string>)
    ensures r.Some? <==> value.Some? && value.value != ""
    ensures r.Some? ==> r == value
  {
    if value.Some? && value.value != "" then value else None
  }

  /** The status filter: "active" and "inactive" choose a flag, anything else none. */
  function StatusFlag(status: Option<string>): (r: Option<bool>)
    ensures r == Some(true) <==> status == Some("active")
    ensures r == Some(false) <==> status == Some("inactive")
    ensures r.None? <==> status != Some("active") && status != Some("inactive")
  {
    if status == Some("active") then Some(true)
    else if status == Some("inactive") then Some(false)
    else None
  }

  /** The list query the index and export views build: inactive members included unless the status says otherwise. */
  function ViewQuery(org: nat, q: Option<string>, role: Option<string>, status: Option<string>): MemberQuery
  {
    MemberQuery(org, true, NoneIfBlank(q), NoneIfBlank(role), StatusFlag(NoneIfBlank(status)))
  }

  /**
   * The views list every member regardless of status unless the status
   * parameter is exactly "active" or "inactive", which then keeps only
   * that status.
   */
  lemma ViewQueryStatus(org: nat, q: Option<string>, role: Option<string>, status: Option<string>, active: bool)
    ensures StatusMatches(ViewQuery(org, q, role, status), active) <==>
              (status == Some("active") ==> active) && (status == Some("inactive") ==> !active)
  {
  }

  /** `_get_actor_membership`: none without an organization or a signed-in user, else the actor's active membership. */
  function ViewActorMembership(t: Tables, user: Option<Actor>, org: Option<nat>): Option<nat>
  {
    if org.None? || !Authenticated(user) then None else ActorMembership(t, user.value.pk, org.value)
  }

  /** `can_manage`: the actor's active membership there is an admin one. */
  predicate CanManageMembers(t: Tables, user: Option<Actor>, org: Option<nat>)
  {
    var m := ViewActorMembership(t, user, org);
    m.Some? && t.memberships[m.value].role == RoleAdmin
  }

  /**
   * The page shows the management controls exactly to the actors the
   * services let manage: signed in, with an active admin membership in the
   * organization.
   */
  lemma CanManageMembersAgrees(t: Tables, user: Option<Actor>, org: nat)
    requires Valid(t)
    ensures CanManageMembers(t, user, Some(org)) <==>
              Authenticated(user) &&
              exists id :: id in t.memberships && t.memberships[id].user == user.value.pk && t.memberships[id].org == org &&
                           t.memberships[id].isActive && t.memberships[id].role == RoleAdmin
  {
    if Authenticated(user) {
      CanManageIff(t, user.value.pk, org);
    }
  }

  /** The export format: `format` from the query string, "csv" when missing or blank, lower-cased. */
  function ExportFormat(format: Option<string>): (f: string)
    ensures f != ""
    ensures format.None? || format.value == "" ==> f == "csv"
    ensures format.Some? && format.value != "" ==> f == Lower(format.value)
  {
    Lower(if format.Some? && format.value != "" then format.value else "csv")
  }

  /**
   * Without a format, an export by an admin of the organization always
   * produces a CSV file of the listed members.
   */
  lemma DefaultExportIsCsv(t: Tables, actor: Option<Actor>, org: nat, q: Option<string>, role: Option<string>,
                           status: Option<string>, env: ExportEnv)
    requires Authenticated(actor) && CanManage(t, actor.value.pk, org)
    ensures var s := ExportMembers(t, actor, ViewQuery(org, q, role, status), Some(ExportFormat(None)), env);
            Succeeded(s) && s.reply.view.data["http_response"].file.CsvFile?
  {
    assert ExportFormat(None) == "csv";
    ExportMembersOutcome(t, actor, ViewQuery(org, q, role, status), Some("csv"), env);
  }

  /** `request.POST.get(key, default)` */
  function PostGet(post: map<string, string>, key: string, default: string): string
  {
    if key in post then post[key] else default
  }

  /** The create input built from the posted form. */
  function CreateRequest(org: nat, post: map<string, string>): CreateInput
  {
    CreateInput(org, Some(PostGet(post, "email", "")), Some(PostGet(post, "first_name", "")),
                Some(PostGet(post, "last_name", "")), PostGet(post, "role", "member"))
  }

  /** The update input built from the posted form; an unticked `is_active` box sends nothing. */
  function UpdateRequest(org: nat, memberId: nat, post: map<string, string>): UpdateInput
  {
    UpdateInput(org, memberId, Some(PostGet(post, "first_name", "")), Some(PostGet(post, "last_name", "")),
                PostGet(post, "role", "member"),
                ParseBool(if "is_active" in post then Some(post["is_active"]) else None, false))
  }

  /** The toggle input built from the posted form: a missing `active` deactivates. */
  function ToggleRequest(org: nat, memberId: nat, post: map<string, string>): ToggleInput
  {
    ToggleInput(org, memberId, ParseBool(if "active" in post then Some(post["active"]) else None, false))
  }

  /**
   * A form without a role asks for "member"; an edit form without the
   * active box asks to deactivate, and so does a toggle without `active`.
   */
  lemma FormDefaults(org: nat, memberId: nat, post: map<string, string>)
    ensures "role" !in post ==> CreateRequest(org, post).role == RoleMember && UpdateRequest(org, memberId, post).role == RoleMember
    ensures "is_active" !in post ==> !UpdateRequest(org, memberId, post).isActive
    ensures "active" !in post ==> !ToggleRequest(org, memberId, post).active
  {
  }

  /**
   * Submitting the edit form for the organization's only active admin with
   * the active box unticked is refused, whatever else the form holds.
   */
  lemma EditCannotDropLastAdmin(t: Tables, actor: Option<Actor>, org: nat, memberId: nat, post: map<string, string>)
    requires Authenticated(actor) && CanManage(t, actor.value.pk, org)
    requires MemberOf(t, memberId, org) && ActiveAdmins(t, org) == {memberId}
    requires "is_active" !in post && IsRole(PostGet(post, "role", "member"))
    ensures var s := UpdateMember(t, actor, UpdateRequest(org, memberId, post));
            Code(s) == Some("last_admin_forbidden") && s.after == t
  {
    assert memberId in ActiveAdmins(t, org);
    assert |ActiveAdmins(t, org)| == 1;
  }
}
