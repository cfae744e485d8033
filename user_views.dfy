/**
 * The users admin views: the parameters read back from the browser's URL
 * after a modal, the activate/deactivate view (users are never deleted),
 * its confirmation prompt, and the export views.
 */
module UserViews {
  import opened Wrappers
  import opened Text
  import opened Rows
  import opened Auth
  import opened CrudConfigs
  import opened QueryStrings
  import opened UserCrud
  import opened ItemViews

  // ---------------------------------------------------------------------
  // Parameters

  /** `_params_from_hx_current_url(request)`, given the `HX-Current-URL` header. */
  function UserHxParams(header: Option<string>): Option<CrudParams>
  {
    var current := header.GetOr("");
    if current == "" then None
    else
      var query := UrlQuery(current);
      if query == "" then None
      else
        var flat := Flat(ParseQsl(query));
        var d := Lower(Strip(GetOr(flat, "dir", "")));
        var page := Strip(GetOr(flat, "page", "1"));
        Some(CrudParams(
          q := Strip(GetOr(flat, "q", "")),
          status := Strip(GetOr(flat, "status", "")),
          sort := Strip(GetOr(flat, "sort", "")),
          dir := if d == "asc" || d == "desc" then d else "asc",
          page := if page != "" then page else "1",
          dateFrom := Strip(GetOr(flat, "from", "")),
          dateTo := Strip(GetOr(flat, "to", ""))))
  }

  /**
   * There are no parameters without the header or without a query; when
   * there are, they are what `parse_params` makes of the URL's flat query
   * dict except that a blank page becomes "1", so the page is never blank.
   */
  lemma UserHxParamsShape(header: Option<string>)
    ensures UserHxParams(header).None? <==> header.None? || UrlQuery(header.value) == ""
    ensures UserHxParams(header).Some? ==>
              var p := ParseParams(Flat(ParseQsl(UrlQuery(header.value))));
              UserHxParams(header).value == p.(page := if p.page == "" then "1" else p.page) &&
              UserHxParams(header).value.page != ""
  {
    if header.Some? && header.value == "" {
      assert UrlQuery("") == "";
    }
  }

  /** `_params_from_hx_current_url(request) or config.parse_params(request)` */
  function UserRefreshParams(header: Option<string>, get: map<string, string>): CrudParams
  {
    match UserHxParams(header)
    case Some(p) => p
    case None => ParseParams(get)
  }

  // ---------------------------------------------------------------------
  // Activation and deactivation

  /** The fields of a user account the toggle view reads and writes. */
  datatype Account = Account(
    username: string,
    firstName: string,
    lastName: string,
    email: string,
    isActive: bool,
    isSuperuser: bool)

  /** What the toggle view answers. */
  datatype ToggleOutcome =
    | LoginRedirect
    | Forbidden
    | NotFound
    | Refused(message: string, detail: string)
    | Toggled
    | Confirm(confirmLabel: string, variant: string, message: string, detail: string)
    | Raised(error: string)

  const SelfMessage := "No puedes desactivar tu propio usuario."
  const SuperuserMessage := "Solo superusuarios pueden desactivar cuentas de administrador."

  /** `user_detail`: the username, then the names in parentheses, then the email. */
  function UserDetail(a: Account): string
  {
    a.username +
    (if a.firstName != "" || a.lastName != "" then Strip(" (" + a.firstName + " " + a.lastName + ")") else "") +
    (if a.email != "" then " - " + a.email else "")
  }

  const DeactivateLabel := "Desactivar Usuario"
  const ActivateLabel := "Activar Usuario"
  const DeactivateMessage :=
    "¿Estás seguro de desactivar este usuario? El usuario no podrá acceder al sistema pero su información se conservará para auditoría."
  const ActivateMessage := "¿Deseas reactivar este usuario? Recuperará el acceso al sistema."

  /** The confirmation prompt the view shows on GET. */
  function ConfirmPrompt(a: Account): ToggleOutcome
  {
    if a.isActive then
      Confirm(DeactivateLabel, "danger", DeactivateMessage, UserDetail(a))
    else
      Confirm(ActivateLabel, "success", ActivateMessage, UserDetail(a))
  }

  /** Whether a POST would deactivate the account against one of the two protections. */
  predicate DeactivationBlocked(a: Account, id: nat, actor: Actor)
  {
    a.isActive && (id == actor.pk || (a.isSuperuser && !actor.isSuperuser))
  }

  /** What `toggle_view` answers for the account `id` of `accounts`. */
  function ToggleDecision(accounts: map<nat, Account>, c: CrudConfig, actor: Actor,
                          orgRoles: Option<set<string>>, id: nat, isPost: bool): ToggleOutcome
  {
    if !actor.isAuthenticated then LoginRedirect
    else if !CanEdit(c, actor, orgRoles) then Forbidden
    else if id !in accounts then NotFound
    else
      var a := accounts[id];
      if !isPost then ConfirmPrompt(a)
      else if a.isActive && id == actor.pk then Refused(SelfMessage, "Usuario: " + a.username)
      else if a.isSuperuser && a.isActive && !actor.isSuperuser then Refused(SuperuserMessage, "Usuario: " + a.username)
      else Toggled
  }

  /** The `User` table as far as the toggle view sees it. */
  class UserTable {
    var accounts: map<nat, Account>

    constructor (initial: map<nat, Account>)
      ensures accounts == initial
    {
      accounts := initial;
    }

    /** `toggle_view(request, id)`; only a permitted POST changes anything. */
    method Toggle(c: CrudConfig, actor: Actor, orgRoles: Option<set<string>>, id: nat, isPost: bool)
      returns (out: ToggleOutcome)
      modifies this
      ensures out == ToggleDecision(old(accounts), c, actor, orgRoles, id, isPost)
      ensures out.Toggled? ==> accounts == old(accounts)[id := old(accounts)[id].(isActive := !old(accounts)[id].isActive)]
      ensures !out.Toggled? ==> accounts == old(accounts)
    {
      if !actor.isAuthenticated {
        return LoginRedirect;
      }
      if !CanEdit(c, actor, orgRoles) {
        return Forbidden;
      }
      if id !in accounts {
        return NotFound;
      }
      var obj := accounts[id];
      var isDeactivating := obj.isActive;
      if !isPost {
        return ConfirmPrompt(obj);
      }
      if id == actor.pk && isDeactivating {
        return Refused(SelfMessage, "Usuario: " + obj.username);
      }
      if obj.isSuperuser && isDeactivating {
        if !actor.isSuperuser {
          return Refused(SuperuserMessage, "Usuario: " + obj.username);
        }
      }
      accounts := accounts[id := obj.(isActive := !obj.isActive)];
      out := Toggled;
    }
  }

  /**
   * A permitted POST flips the account exactly when neither protection
   * applies; activation is never blocked, a user never deactivates their own
   * account, and only a superuser deactivates a superuser.
   */
  lemma ToggleRules(accounts: map<nat, Account>, c: CrudConfig, actor: Actor,
                    orgRoles: Option<set<string>>, id: nat)
    requires actor.isAuthenticated && CanEdit(c, actor, orgRoles) && id in accounts
    ensures ToggleDecision(accounts, c, actor, orgRoles, id, true).Toggled? <==> !DeactivationBlocked(accounts[id], id, actor)
    ensures !accounts[id].isActive ==> ToggleDecision(accounts, c, actor, orgRoles, id, true).Toggled?
    ensures accounts[id].isActive && id == actor.pk ==>
              ToggleDecision(accounts, c, actor, orgRoles, id, true) == Refused(SelfMessage, "Usuario: " + accounts[id].username)
    ensures accounts[id].isActive && id != actor.pk && accounts[id].isSuperuser && !actor.isSuperuser ==>
              ToggleDecision(accounts, c, actor, orgRoles, id, true) == Refused(SuperuserMessage, "Usuario: " + accounts[id].username)
  {
  }

  /** The accounts after a toggle view answered `out`. */
  function AfterToggle(accounts: map<nat, Account>, id: nat, out: ToggleOutcome): map<nat, Account>
    requires out.Toggled? ==> id in accounts
  {
    if out.Toggled? then accounts[id := accounts[id].(isActive := !accounts[id].isActive)] else accounts
  }

  /**
   * Across any toggle request the acting user's own active account stays
   * active, an active superuser account is deactivated only by a superuser,
   * and no other account changes.
   */
  lemma ToggleProtects(accounts: map<nat, Account>, c: CrudConfig, actor: Actor,
                       orgRoles: Option<set<string>>, id: nat, isPost: bool, k: nat)
    requires k in accounts
    ensures var out := ToggleDecision(accounts, c, actor, orgRoles, id, isPost);
            var after := AfterToggle(accounts, id, out);
            k in after &&
            (k == actor.pk && accounts[k].isActive ==> after[k].isActive) &&
            (accounts[k].isSuperuser && accounts[k].isActive && !after[k].isActive ==> actor.isSuperuser) &&
            (k != id ==> after[k] == accounts[k])
  {
  }

  /** Two permitted toggles of an account that is not protected give back the original accounts. */
  lemma ToggleTwiceRestores(accounts: map<nat, Account>, id: nat)
    requires id in accounts
    ensures AfterToggle(AfterToggle(accounts, id, Toggled), id, Toggled) == accounts
  {
  }

  /** The GET prompt: deactivation in red for an active account, activation in green otherwise. */
  lemma ConfirmPromptCases(a: Account)
    ensures a.isActive ==> ConfirmPrompt(a).confirmLabel == DeactivateLabel && ConfirmPrompt(a).variant == "danger"
    ensures !a.isActive ==> ConfirmPrompt(a).confirmLabel == ActivateLabel && ConfirmPrompt(a).variant == "success"
    ensures ConfirmPrompt(a).detail == UserDetail(a)
  {
  }

  // ---------------------------------------------------------------------
  // The routes the toggle view reverses

  /** The route names the users admin URL configuration declares. */
  const DeclaredRoutes: set<string> := {"list"}

  /** The routes `_crud_urls()` reverses for the refreshed table. */
  const CrudUrlRoutes: seq<string> := ["list", "table", "create", "export_csv", "export_xlsx", "export_pdf"]

  const NoReverseMatch := "NoReverseMatch"

  predicate CrudUrlsResolve(routes: set<string>)
  {
    forall n :: n in CrudUrlRoutes ==> n in routes
  }

  /**
   * `toggle_view` against the route names `routes` declares, with the
   * accounts it leaves behind: the GET prompt reverses "toggle" before it
   * is rendered, and a saved flip answers through
   * `_hx_modal_success_refresh`, whose context reverses every route of
   * `_crud_urls()`, so a missing route raises after the save.
   */
  function ToggleAsWritten(accounts: map<nat, Account>, c: CrudConfig, actor: Actor,
                           orgRoles: Option<set<string>>, id: nat, isPost: bool,
                           routes: set<string>): (ToggleOutcome, map<nat, Account>)
  {
    var out := ToggleDecision(accounts, c, actor, orgRoles, id, isPost);
    var after := AfterToggle(accounts, id, out);
    if out.Confirm? && "toggle" !in routes then (Raised(NoReverseMatch), after)
    else if out.Toggled? && !CrudUrlsResolve(routes) then (Raised(NoReverseMatch), after)
    else (out, after)
  }

  /**
   * With the routes the application declares, a permitted GET for an
   * existing account raises instead of showing the prompt, and a POST the
   * protections let through raises after the flip has been saved.
   */
  lemma ToggleAsWrittenRaises(accounts: map<nat, Account>, c: CrudConfig, actor: Actor,
                              orgRoles: Option<set<string>>, id: nat, isPost: bool)
    requires actor.isAuthenticated && CanEdit(c, actor, orgRoles) && id in accounts
    requires isPost ==> !DeactivationBlocked(accounts[id], id, actor)
    ensures ToggleAsWritten(accounts, c, actor, orgRoles, id, isPost, DeclaredRoutes).0 == Raised(NoReverseMatch)
    ensures ToggleAsWritten(accounts, c, actor, orgRoles, id, isPost, DeclaredRoutes).1 ==
              if isPost then accounts[id := accounts[id].(isActive := !accounts[id].isActive)] else accounts
  {
    assert "toggle" !in DeclaredRoutes;
    if isPost {
      ToggleRules(accounts, c, actor, orgRoles, id);
      assert CrudUrlRoutes[1] == "table" && "table" !in DeclaredRoutes;
      assert !CrudUrlsResolve(DeclaredRoutes);
    }
  }

  /**
   * Whatever routes are declared, the view saves exactly what
   * `ToggleDecision` decides, and its refusals are answered unchanged; once
   * the toggle route and every route of `_crud_urls()` exist, the answer is
   * `ToggleDecision`'s, which is what `UserTable.Toggle` follows.
   */
  lemma ToggleAsWrittenAgrees(accounts: map<nat, Account>, c: CrudConfig, actor: Actor,
                              orgRoles: Option<set<string>>, id: nat, isPost: bool, routes: set<string>)
    ensures var out := ToggleDecision(accounts, c, actor, orgRoles, id, isPost);
            var (answer, after) := ToggleAsWritten(accounts, c, actor, orgRoles, id, isPost, routes);
            after == AfterToggle(accounts, id, out) &&
            (!out.Confirm? && !out.Toggled? ==> answer == out) &&
            ("toggle" in routes && CrudUrlsResolve(routes) ==> answer == out) &&
            (answer.Raised? ==> answer == Raised(NoReverseMatch) && (out.Confirm? || out.Toggled?))
  {
  }

  /**
   * The names are appended with their leading space stripped, so they
   * follow the username with no space: "ana(Ana Diaz) - ana@x.com".
   */
  lemma UserDetailJoinsNames(a: Account)
    requires a.firstName != "" || a.lastName != ""
    ensures UserDetail(a) ==
              a.username + "(" + a.firstName + " " + a.lastName + ")" + (if a.email != "" then " - " + a.email else "")
  {
    var inner := "(" + a.firstName + " " + a.lastName + ")";
    assert " (" + a.firstName + " " + a.lastName + ")" == " " + inner;
    assert TrimLeft(" " + inner) == TrimLeft(inner) by {
      assert (" " + inner)[1..] == inner;
    }
    TrimLeftNoop(inner);
    assert TrimLeft(inner) == inner;
    TrimRightNoop(inner);
  }

  // ---------------------------------------------------------------------
  // Export views

  const UserFallbackFields: seq<string> :=
    ["username", "first_name", "last_name", "email", "is_active", "is_staff", "is_superuser", "date_joined", "last_login"]
  const UserFallbackHeaders: seq<string> :=
    ["Usuario", "Nombre", "Apellido", "Email", "Activo", "Es Staff", "Es Superusuario", "Fecha Alta", "Último Acceso"]

  /** The declared header of each export field is the fallback header at the same place. */
  lemma HeaderOfField(i: nat)
    requires i < 9
    ensures UserExportHeaders[UserExportFields[i]] == UserFallbackHeaders[i]
  {
    if i == 0 { assert UserExportFields[0] == "username"; }
    else if i == 1 { assert UserExportFields[1] == "first_name"; }
    else if i == 2 { assert UserExportFields[2] == "last_name"; }
    else if i == 3 { assert UserExportFields[3] == "email"; }
    else if i == 4 { assert UserExportFields[4] == "is_active"; }
    else if i == 5 { assert UserExportFields[5] == "is_staff"; }
    else if i == 6 { assert UserExportFields[6] == "is_superuser"; }
    else if i == 7 { assert UserExportFields[7] == "date_joined"; }
    else { assert UserExportFields[8] == "last_login"; }
  }

  /** The users descriptor declares the fallback fields, under the fallback headers. */
  lemma UserDeclaredColumns(strftime: (Value, string) -> string)
    ensures GetExportFields(UserCrudConfig(strftime)) == Some(UserFallbackFields)
    ensures GetExportHeaders(UserCrudConfig(strftime)) == Some(UserFallbackHeaders)
  {
    UserExportHeadersComplete(strftime);
    FallbackFieldsDeclared();
    FallbackHeadersDeclared(GetExportHeaders(UserCrudConfig(strftime)).value);
  }

  /** The views' fallback field list is the descriptor's. */
  lemma FallbackFieldsDeclared()
    ensures UserExportFields == UserFallbackFields
  {
  }

  /** A header list taking each export field's declared header is the views' fallback header list. */
  lemma FallbackHeadersDeclared(hs: seq<string>)
    requires |hs| == 9 && forall i :: 0 <= i < 9 ==> hs[i] == UserExportHeaders[UserExportFields[i]]
    ensures hs == UserFallbackHeaders
  {
    forall i | 0 <= i < 9 ensures hs[i] == UserFallbackHeaders[i] {
      HeaderOfField(i);
    }
  }

  /**
   * A users export that goes ahead writes the nine declared fields, each
   * under its declared header, which is also the fallback list.
   */
  lemma UserExportColumns(strftime: (Value, string) -> string, user: Actor, orgRoles: Option<set<string>>,
                          fmt: string, get: map<string, string>, base: seq<Row>)
    requires ExportView(UserCrudConfig(strftime), user, orgRoles, fmt, get, base, UserFallbackFields, UserFallbackHeaders).Ok?
    ensures var job := ExportView(UserCrudConfig(strftime), user, orgRoles, fmt, get, base, UserFallbackFields, UserFallbackHeaders).value;
            job.fields == UserFallbackFields && job.headers == UserFallbackHeaders &&
            |job.fields| == |job.headers| == 9
  {
    UserDeclaredColumns(strftime);
  }
}
