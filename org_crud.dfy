/**
 * `OrganizationCrudConfig`, the descriptor of the company settings page: a
 * singleton with no list columns, export switched off and no delete
 * permission declared.
 */
module OrgCrud {
  import opened Wrappers
  import opened Text
  import opened Rows
  import opened Auth
  import opened CrudDefs
  import opened CrudConfigs
  import CrudPermissions

  const OrganizationSlug := "organization_admin.config"

  function OrganizationCrudConfig(): CrudConfig
  {
    CrudConfig(
      crudSlug := OrganizationSlug,
      pageTitle := Some("Configuración de Empresa"),
      entityLabel := Some("Empresa"),
      entityLabelPlural := Some("Empresa"),
      listColumns := [],
      filters := [],
      searchFields := ["site_name"],
      defaultSortKey := "",
      defaultDir := "asc",
      pageSize := 1,
      statusOptions := None,
      createTitle := Some("Configurar Empresa"),
      editTitle := Some("Editar Configuración"),
      deleteTitle := Some("Empresa"),
      createSubmitLabel := Some("Guardar Configuración"),
      editSubmitLabel := Some("Guardar Cambios"),
      deleteConfirmLabel := Some("Confirmar"),
      permissionList := Some("core.view_globalconfig"),
      permissionCreate := Some("core.add_globalconfig"),
      permissionEdit := Some("core.change_globalconfig"),
      permissionDelete := None,
      exportEnabled := false,
      exportFields := Some([]),
      exportHeaders := None,
      exportFormats := Some([]),
      rowUrls := DefaultRowUrls)
  }

  /** With no columns, every request is ordered by pk alone, in its direction. */
  lemma OrgOrderingIsPk(p: CrudParams)
    ensures ApplyOrdering(OrganizationCrudConfig(), p) == [OrderKey("pk", Direction(OrganizationCrudConfig(), p) == "desc")]
  {
  }

  /** Export is switched off and no export fields are declared. */
  lemma OrgExportDisabled()
    ensures !IsExportEnabled(OrganizationCrudConfig())
    ensures GetExportFields(OrganizationCrudConfig()).None? && GetExportHeaders(OrganizationCrudConfig()).None?
  {
  }

  /** The empty format set allows csv, xlsx and pdf. */
  lemma OrgAllowsAllFormats(fmt: string)
    ensures AllowsFormat(OrganizationCrudConfig(), Some(fmt)) <==> Lower(Strip(fmt)) in AllFormats
  {
    UndeclaredFormatsAllowAll(OrganizationCrudConfig(), fmt);
  }

  /** No delete permission is declared, so every request, even an anonymous one, may delete. */
  lemma OrgDeleteAlwaysAllowed(user: Actor, orgRoles: Option<set<string>>)
    ensures CanDelete(OrganizationCrudConfig(), user, orgRoles)
  {
  }

  /** Listing the singleton needs the view permission. */
  lemma OrgListNeedsView(user: Actor, orgRoles: Option<set<string>>)
    ensures CanList(OrganizationCrudConfig(), user, orgRoles) <==> HasPerm(user, "core.view_globalconfig")
  {
    StripNoop("core.view_globalconfig");
    CrudPermissions.PermSpecAllows("core.view_globalconfig", user, orgRoles);
  }
}
