/**
 * `UserCrudConfig`, the descriptor of the user administration list: status
 * and role filters, seven computed columns, and a nine-field export.
 *
 * `strftime(value, format)` is the datetime formatter of the date columns;
 * calendar arithmetic is not part of this model, so it is a parameter.
 */
module UserCrud {
  import opened Wrappers
  import opened Text
  import opened Rows
  import opened Auth
  import opened CrudDefs
  import opened CrudConfigs
  import CrudPermissions

  const UsersSlug := "users_admin.users"

  /** A boolean model field that holds `True`. */
  predicate Flag(r: Row, name: string)
  {
    Field(r, name) == VBool(true)
  }

  /** `_filter_by_status` */
  function FilterByStatus(qs: seq<Row>, value: string): seq<Row>
  {
    if value == "active" then Where(qs, r => Field(r, "is_active") == VBool(true))
    else if value == "inactive" then Where(qs, r => Field(r, "is_active") == VBool(false))
    else qs
  }

  /** `_filter_by_role` */
  function FilterByRole(qs: seq<Row>, value: string): seq<Row>
  {
    if value == "superuser" then Where(qs, r => Field(r, "is_superuser") == VBool(true))
    else if value == "staff" then Where(qs, r => Field(r, "is_staff") == VBool(true) && Field(r, "is_superuser") == VBool(false))
    else if value == "regular" then Where(qs, r => Field(r, "is_staff") == VBool(false) && Field(r, "is_superuser") == VBool(false))
    else qs
  }

  const StatusFilter := FilterDef("status", FilterByStatus)
  const RoleFilter := FilterDef("role", FilterByRole)

  /** The "full_name" cell: first and last name joined by a space and stripped, or "-". */
  function FullName(r: Row): string
  {
    var s := Strip(TextOf(Field(r, "first_name")) + " " + TextOf(Field(r, "last_name")));
    if s == "" then "-" else s
  }

  /** Python truthiness of a value. */
  predicate Truthy(v: Value)
  {
    match v
    case VNone => false
    case VBool(b) => b
    case VInt(i) => i != 0
    case VStr(s) => s != ""
    case VDateTime(_, _) => true
  }

  /** The "email" cell: `u.email or "-"`. */
  function EmailCell(r: Row): Value
  {
    if Truthy(Field(r, "email")) then Field(r, "email") else VStr("-")
  }

  /** The "role" cell. */
  function RoleLabel(r: Row): string
  {
    if Truthy(Field(r, "is_superuser")) then "Superusuario"
    else if Truthy(Field(r, "is_staff")) then "Staff"
    else "Usuario"
  }

  function ActiveLabel(r: Row): string
  {
    if Truthy(Field(r, "is_active")) then "Activo" else "Inactivo"
  }

  /** A date cell: the formatted datetime, or `missing` when there is none. */
  function DateCell(strftime: (Value, string) -> string, r: Row, name: string, format: string, missing: string): Value
  {
    if Truthy(Field(r, name)) then VStr(strftime(Field(r, name), format)) else VStr(missing)
  }

  function UserColumns(strftime: (Value, string) -> string): seq<ColumnDef>
  {
    [ ColumnDef("username", "Usuario", "text", map[], true, true, Fields(["username"]), Some(r => Field(r, "username"))),
      ColumnDef("full_name", "Nombre Completo", "text", map[], true, false, Fields(["first_name", "last_name"]),
                Some(r => VStr(FullName(r)))),
      ColumnDef("email", "Email", "text", map[], true, false, Fields(["email"]), Some(EmailCell)),
      ColumnDef("role", "Rol", "badge",
                map["colors" := map["Superusuario" := "danger", "Staff" := "warning", "Usuario" := "secondary"],
                    "labels" := map[]],
                true, true, Fields(["is_superuser", "is_staff"]), Some(r => VStr(RoleLabel(r)))),
      ColumnDef("is_active", "Estado", "badge",
                map["colors" := map["Activo" := "success", "Inactivo" := "secondary"], "labels" := map[]],
                true, true, Fields(["is_active"]), Some(r => VStr(ActiveLabel(r)))),
      ColumnDef("date_joined", "Fecha de Alta", "date", map[], true, true, Fields(["date_joined"]),
                Some(r => DateCell(strftime, r, "date_joined", "%d/%m/%Y", "-"))),
      ColumnDef("last_login", "Último Acceso", "date", map[], true, true, Fields(["last_login"]),
                Some(r => DateCell(strftime, r, "last_login", "%d/%m/%Y %H:%M", "Nunca")))
    ]
  }

  /** The edit path of one user, under the `users/` prefix. */
  function UserEditPath(pk: nat): string
  {
    "/users/" + NatToString(pk) + "/edit/"
  }

  /** `row_urls(obj, ...)`: only an edit link. */
  function UserRowUrls(r: Row): RowUrls
  {
    RowUrls(None, Some(UserEditPath(r.pk)), None)
  }

  const UserExportFields: seq<string> :=
    ["username", "first_name", "last_name", "email", "is_active", "is_staff", "is_superuser", "date_joined", "last_login"]

  const UserExportHeaders: map<string, string> :=
    map["username" := "Usuario", "first_name" := "Nombre", "last_name" := "Apellido", "email" := "Email",
        "is_active" := "Activo", "is_staff" := "Es Staff", "is_superuser" := "Es Superusuario",
        "date_joined" := "Fecha Alta", "last_login" := "Último Acceso"]

  function UserCrudConfig(strftime: (Value, string) -> string): CrudConfig
  {
    CrudConfig(
      crudSlug := UsersSlug,
      pageTitle := Some("Gestión de Usuarios"),
      entityLabel := Some("Usuario"),
      entityLabelPlural := Some("Usuarios"),
      listColumns := UserColumns(strftime),
      filters := [StatusFilter, RoleFilter],
      searchFields := ["username", "email", "first_name", "last_name"],
      defaultSortKey := "date_joined",
      defaultDir := "desc",
      pageSize := 20,
      statusOptions := Some([("all", "Todos"), ("active", "Activos"), ("inactive", "Inactivos")]),
      createTitle := Some("Nuevo Usuario"),
      editTitle := Some("Editar Usuario: {pk}"),
      deleteTitle := Some("Cambiar Estado del Usuario"),
      createSubmitLabel := Some("Crear Usuario"),
      editSubmitLabel := Some("Guardar Cambios"),
      deleteConfirmLabel := Some("Confirmar"),
      permissionList := Some("auth.view_user"),
      permissionCreate := Some("auth.add_user"),
      permissionEdit := Some("auth.change_user"),
      permissionDelete := Some("auth.change_user"),
      exportEnabled := true,
      exportFields := Some(UserExportFields),
      exportHeaders := Some(UserExportHeaders),
      exportFormats := Some(["csv", "xlsx", "pdf"]),
      rowUrls := UserRowUrls)
  }

  /** "active" and "inactive" keep the users with that `is_active`; any other value keeps everyone. */
  lemma UserStatusFilter(qs: seq<Row>, value: string)
    ensures value == "active" ==>
              forall r :: r in FilterByStatus(qs, value) <==> r in qs && Field(r, "is_active") == VBool(true)
    ensures value == "inactive" ==>
              forall r :: r in FilterByStatus(qs, value) <==> r in qs && Field(r, "is_active") == VBool(false)
    ensures value != "active" && value != "inactive" ==> FilterByStatus(qs, value) == qs
    ensures SubsequenceOf(FilterByStatus(qs, value), qs)
  {
    if value == "active" {
      WhereMembers(qs, r => Field(r, "is_active") == VBool(true));
    } else if value == "inactive" {
      WhereMembers(qs, r => Field(r, "is_active") == VBool(false));
    } else {
      SubsequenceOfSelf(qs);
    }
  }

  /**
   * "superuser", "staff" and "regular" keep the superusers, the staff who
   * are not superusers, and the users who are neither; any other value
   * keeps everyone.
   */
  lemma UserRoleFilter(qs: seq<Row>, value: string)
    ensures value == "superuser" ==>
              forall r :: r in FilterByRole(qs, value) <==> r in qs && Field(r, "is_superuser") == VBool(true)
    ensures value == "staff" ==>
              forall r :: r in FilterByRole(qs, value) <==>
                r in qs && Field(r, "is_staff") == VBool(true) && Field(r, "is_superuser") == VBool(false)
    ensures value == "regular" ==>
              forall r :: r in FilterByRole(qs, value) <==>
                r in qs && Field(r, "is_staff") == VBool(false) && Field(r, "is_superuser") == VBool(false)
    ensures value !in {"superuser", "staff", "regular"} ==> FilterByRole(qs, value) == qs
  {
    if value == "superuser" {
      WhereMembers(qs, r => Field(r, "is_superuser") == VBool(true));
    } else if value == "staff" {
      WhereMembers(qs, r => Field(r, "is_staff") == VBool(true) && Field(r, "is_superuser") == VBool(false));
    } else if value == "regular" {
      WhereMembers(qs, r => Field(r, "is_staff") == VBool(false) && Field(r, "is_superuser") == VBool(false));
    }
  }

  /**
   * The role filter is declared but never runs: "role" is not a key of the
   * parameter dict, so the listing is filtered by status alone.
   */
  lemma RoleFilterNeverApplied(strftime: (Value, string) -> string, qs: seq<Row>, p: CrudParams)
    ensures Filtered(qs, UserCrudConfig(strftime).filters, AsDict(p)) == Filtered(qs, [StatusFilter], AsDict(p))
    ensures FilterValue(RoleFilter, AsDict(p)).None?
  {
    UnknownFilterSkipped(RoleFilter, p);
    var fs := [StatusFilter, RoleFilter];
    assert fs[..1] == [StatusFilter];
  }

  /** The role cell is "Superusuario", else "Staff", else "Usuario". */
  lemma RoleLabelCases(r: Row)
    ensures Flag(r, "is_superuser") ==> RoleLabel(r) == "Superusuario"
    ensures Field(r, "is_superuser") == VBool(false) && Flag(r, "is_staff") ==> RoleLabel(r) == "Staff"
    ensures Field(r, "is_superuser") == VBool(false) && Field(r, "is_staff") == VBool(false) ==> RoleLabel(r) == "Usuario"
    ensures RoleLabel(r) in {"Superusuario", "Staff", "Usuario"}
  {
  }

  /**
   * The full-name cell is "-" when both names are blank; otherwise it is
   * the two names joined by a space, stripped, and never empty.
   */
  lemma FullNameDash(r: Row, first: string, last: string)
    requires Field(r, "first_name") == VStr(first) && Field(r, "last_name") == VStr(last)
    ensures (forall k :: 0 <= k < |first| ==> IsSpace(first[k])) && (forall k :: 0 <= k < |last| ==> IsSpace(last[k]))
            ==> FullName(r) == "-"
    ensures (exists k :: 0 <= k < |first| && !IsSpace(first[k])) || (exists k :: 0 <= k < |last| && !IsSpace(last[k]))
            ==> FullName(r) == Strip(first + " " + last) && FullName(r) != ""
  {
    var s := first + " " + last;
    StripEmptyIff(s);
    if exists k :: 0 <= k < |first| && !IsSpace(first[k]) {
      var k :| 0 <= k < |first| && !IsSpace(first[k]);
      assert s[k] == first[k];
    } else if exists k :: 0 <= k < |last| && !IsSpace(last[k]) {
      var k :| 0 <= k < |last| && !IsSpace(last[k]);
      assert s[|first| + 1 + k] == last[k];
    } else {
      forall k | 0 <= k < |s| ensures IsSpace(s[k]) {
        if k < |first| {
          assert s[k] == first[k];
        } else if k > |first| {
          assert s[k] == last[k - |first| - 1];
        }
      }
    }
  }

  /** Only the edit link exists, so only it ever receives the list state. */
  lemma UserLinks(strftime: (Value, string) -> string, r: Row, qs: string)
    ensures var u := ItemFor(UserCrudConfig(strftime), r, qs).urls;
            u.detail.None? && u.delete.None? &&
            u.edit == Some(if qs == "" then UserEditPath(r.pk) else UserEditPath(r.pk) + "?" + qs)
  {
    assert '?' !in UserEditPath(r.pk) by {
      forall k | 0 <= k < |NatToString(r.pk)| ensures NatToString(r.pk)[k] != '?' { }
    }
  }

  lemma UserHeaderKeys()
    ensures forall f :: f in UserExportFields ==> f in UserExportHeaders
  {
  }

  /** Every one of the nine export fields has its own header, so there are nine headers. */
  lemma UserExportHeadersComplete(strftime: (Value, string) -> string)
    ensures GetExportFields(UserCrudConfig(strftime)) == Some(UserExportFields)
    ensures var hs := GetExportHeaders(UserCrudConfig(strftime));
            hs.Some? && |hs.value| == |UserExportFields| == 9 &&
            forall i :: 0 <= i < 9 ==> hs.value[i] == UserExportHeaders[UserExportFields[i]]
  {
    ExportHeadersMatchFields(UserCrudConfig(strftime));
    UserHeaderKeys();
  }

  /** The "date_joined" column is found by its key; it is sortable and orders by that field alone. */
  lemma DateJoinedColumn(strftime: (Value, string) -> string)
    ensures var col := FindColumn(UserColumns(strftime), "date_joined");
            col.Some? && col.value.sortable && col.value.orderBy == Fields(["date_joined"])
  {
    var cols := UserColumns(strftime);
    FindColumnFirst(cols, "date_joined", 5);
  }

  /**
   * The declared descending default never takes effect: a request with
   * neither `sort` nor `dir` lists users by date joined ascending, then pk.
   */
  lemma UserDefaultOrderAscending(strftime: (Value, string) -> string, get: map<string, string>)
    requires "sort" !in get && "dir" !in get
    ensures ApplyOrdering(UserCrudConfig(strftime), ParseParams(get)) == [OrderKey("date_joined", false), OrderKey("pk", false)]
  {
    var c := UserCrudConfig(strftime);
    var p := ParseParams(get);
    assert p.dir == "asc" && p.sort == "";
    assert SortKey(c, p) == "date_joined" && Direction(c, p) == "asc";
    DateJoinedColumn(strftime);
    assert SortSpec(c, p) == Fields(["date_joined"]);
    assert Keys(["date_joined", "pk"], false) == [OrderKey("date_joined", false), OrderKey("pk", false)];
  }

  /** Changing a user's state requires the same permission as editing it. */
  lemma UserDeleteIsEdit(strftime: (Value, string) -> string, user: Actor, orgRoles: Option<set<string>>)
    ensures CanDelete(UserCrudConfig(strftime), user, orgRoles) == CanEdit(UserCrudConfig(strftime), user, orgRoles)
    ensures CanDelete(UserCrudConfig(strftime), user, orgRoles) == HasPerm(user, "auth.change_user")
  {
    StripNoop("auth.change_user");
    CrudPermissions.PermSpecAllows("auth.change_user", user, orgRoles);
  }
}
