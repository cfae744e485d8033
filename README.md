# Agency dashboard core, modelled in Dafny

This project models the logic of a Django admin dashboard template. It is built
around a declarative CRUD list engine and an organization/membership layer.

- **CRUD list engine** (`CrudConfigs`, `CrudDefs`, `CrudEngine`,
  `CrudRegistry`, `CrudPermissions`, with the three descriptors `ItemCrud`,
  `UserCrud` and `OrgCrud`).
  - A request's query string is normalised into `CrudParams`.
  - A queryset (a `seq<Row>`) goes through search, then the declared
    filters, then `order_by`. `order_by` is a list of `OrderKey`s that always
    ends in `pk`.
  - The page is cut and the table rows are built. The row links carry the
    list state (the query string of the non-blank parameters).
  - Export is gated by permission, an enabled flag and a format allow-list.
  - The database's `ORDER BY` is modelled in `Rows` as "any permutation
    sorted by the keys". `Rows.OrderByIsTheOrder` shows that once the keys
    end in `pk` there is only one such answer.
- **Older hand-written list helpers** of the Item and User views
  (`ItemViews`, `UserViews`), proved to agree with the engine or shown
  where they differ.
- **Export writers** (`Exporting`): the safe file name, and the CSV, XLSX
  and PDF cell grids with their length guard.
- **Service results** (`Services`, `ServiceCore`): the two `ServiceResult`
  classes.
- **Membership services** (`Orgs`, `MemberServices`, `MemberDatabase`,
  `MemberViews`).
  - Organizations, users and memberships are three tables keyed by primary
    key.
  - The create, update, toggle, list and export services are specified as
    pure decisions. The imperative `MemberDatabase.Database` methods are
    proved to follow them.
  - Update and toggle never leave an organization without an active admin.
- **Active organization** (`OrgSession`): the session entry, the
  `organization_required` gate, the select and activate views, and the
  per-user current organization with its cache.
- **Forms** (`Forms`, `UserForms`, `AccountForms`, `ConfigForms`,
  `ItemForms`): each `clean_<field>` is a pure function over the submitted
  value. `Form.add_error` and the saved user instance are small classes
  updated in place.
- **Singleton configuration and setup gate** (`SiteConfig`,
  `SetupMiddleware`): the global configuration row with its cache, and the
  middleware that redirects to the setup wizard.
- **Navigation** (`Navigation`): the module registry and the per-user menu.
- **Settings** (`Settings`):
  - environment flags and lists;
  - the secret key and database checks;
  - the loop that raises the minimum password length.

Strings follow Python's `str.strip()` with its full white-space set, and
`str.lower()` and `str.isalnum()` on ASCII letters and digits (`Text`).
`urlencode`, `parse_qs` and `urlparse` are modelled on unescaped text
(`QueryStrings`).

## Model

| member | source | states |
|---|---|---|
| CrudConfigs.AsDictKeys | apps/core/crud/config.py:27-36 | `as_dict` has exactly the keys q, status, sort, dir, page, from, to, in that order |
| CrudConfigs.ParsedDirIsAscOrDesc | apps/core/crud/config.py:127-131 | a parsed `dir` is always "asc" or "desc", and "desc" exactly when the stripped, lower-cased input is "desc" |
| CrudConfigs.ParsedPageDefault | apps/core/crud/config.py:128 | a missing or empty page becomes "1"; a whitespace-only page becomes "" because the default is applied before stripping |
| CrudConfigs.ParsedValuesStripped | apps/core/crud/config.py:123-141 | every parsed value has no surrounding white space |
| CrudConfigs.ParseNormalParams | apps/core/crud/config.py:123-141 | parameters that are already normal parse back to themselves, with "1" for an empty page |
| CrudConfigs.ParseParamsRoundTrip | apps/core/crud/config.py:123-141 | parsing is idempotent up to the page: re-parsing parsed parameters gives them back, except that a "" page comes back as "1" |
| CrudConfigs.StatePairsExact | apps/core/crud/config.py:143-145 | the state keeps exactly the pairs whose value is neither "" nor "all" (and, when asked, whose key is not page), in their original order |
| CrudConfigs.QsWithoutPageClean | apps/core/crud/config.py:143-145 | `build_qs_without_page` never holds page, "" or "all", holds every other pair of `as_dict`, and keeps its order |
| CrudConfigs.HeadersShape | apps/core/crud/config.py:101-105 | one header per field, in order: the declared label when there is one, else the field name |
| CrudConfigs.ExportHeadersMatchFields | apps/core/crud/config.py:95-105 | headers exist iff fields do; then there is one header per field: the declared label, else the field name |
| CrudConfigs.UndeclaredFormatsAllowAll | apps/core/crud/config.py:107-117 | a missing or empty format declaration allows exactly csv, xlsx and pdf after normalisation |
| CrudConfigs.DeclaredFormatsAllow | apps/core/crud/config.py:107-117 | with declared formats, a format is allowed iff some non-blank declared entry normalises to the same non-blank name |
| CrudConfigs.BlankFormatRefused | apps/core/crud/config.py:113-116 | a missing or blank format is never allowed |
| CrudConfigs.MatchesAnyIff | apps/core/crud/config.py:154-156 | the OR of `icontains` tests holds iff some search field contains `q` case-insensitively |
| CrudConfigs.SearchedRows | apps/core/crud/config.py:150-157 | search is a no-op for an empty `q` or no search fields; otherwise it keeps, in order, exactly the rows where some field contains `q` |
| CrudConfigs.ApplySearch | apps/core/crud/config.py:150-157 | the loop building the OR query filters exactly as `Searched` specifies |
| CrudConfigs.ApplyFilters | apps/core/crud/config.py:159-166 | the filter loop gives `Filtered`: each declared filter, in order, with its stripped value, skipping blank and "all" |
| CrudConfigs.OnlyActiveFiltersApply | apps/core/crud/config.py:159-166 | filtering equals running only the filters that receive a non-blank, non-"all" value from the dict |
| CrudConfigs.UnknownFilterSkipped | apps/core/crud/config.py:160-162 | a filter whose name is not one of the seven parameter keys never receives a value |
| CrudConfigs.FindColumnFirst | apps/core/crud/config.py:173 | the sort column found is the first one with the key, and none when no column has it |
| CrudConfigs.OrderingShape | apps/core/crud/config.py:168-186 | the order always ends in pk with one direction throughout: pk alone without a usable column order, else the column's fields then pk |
| CrudConfigs.DefaultDirIgnored | apps/core/crud/config.py:170 | on parsed parameters `default_dir` never changes the ordering |
| CrudConfigs.QuerysetForList | apps/core/crud/config.py:188-193 | the listing is a permutation of the searched-then-filtered rows, sorted by the ordering keys |
| CrudConfigs.ListOrderDeterministic | apps/core/crud/config.py:176-186 | with distinct pks any sorted answer the database may give is the modelled listing |
| CrudConfigs.ColumnsForTemplate | apps/core/crud/config.py:195-196 | one template dict per list column, in order |
| CrudConfigs.RowCells | apps/core/crud/config.py:198-205 | one cell per list column: the column's value function, else the attribute named by its key, else "" |
| CrudConfigs.RichCellsAt | apps/core/crud/config.py:274-282 | rich cell `i` pairs cell `i` with column `i`'s template dict |
| CrudConfigs.BuildItems | apps/core/crud/config.py:261-291 | the loop builds one item per page object, each the item specified for the state with page |
| CrudConfigs.ItemShape | apps/core/crud/config.py:261-291 | an item has the object's pk and one rich cell per column, and a link gets "?"+state iff the state is non-empty and the link is a real path without "?" |
| CrudConfigs.TitlesNeverEmpty | apps/core/crud/config.py:219-246 | modal titles and button labels are never empty, whatever is declared |
| CrudConfigs.Paginate | apps/core/crud/config.py:293-295 | the page number lies in 1..number of pages, the page holds at most `page_size` rows, and a non-empty listing never shows an empty page |
| CrudConfigs.PageSlice | apps/core/crud/config.py:293-295 | a page is the contiguous run of rows starting at (number-1)*page_size |
| CrudConfigs.PageNumberFallbacks | apps/core/crud/config.py:293-295 | a non-integer page selects page 1, and an out-of-range page the last one |
| Rows.OrderBySorted | apps/core/crud/config.py:188-193 | the modelled `order_by` gives a permutation of its input that is sorted by the keys |
| Rows.OrderByIsTheOrder | apps/core/crud/config.py:176-186 | when keys end in pk and pks are distinct, every sorted permutation is the one `OrderBy` gives |
| Rows.SortedPermutationUnique | apps/core/crud/config.py:182-184 | two sorted permutations of the same rows are equal once the keys end in pk |
| Rows.OrderWithoutPkIsAmbiguous | apps/core/crud/config.py:177 | without the pk tie-breaker two rows with equal sort values can come back in either order |
| CrudDefs.TemplateIsDisplayFields | apps/core/crud/defs.py:36-44 | the template dict carries exactly key, label, type, extra, sortable and nowrap: two columns share it iff they agree on those |
| CrudDefs.DefaultColumnTemplate | apps/core/crud/defs.py:27-34 | a column declared with a key and label only is a sortable, wrapping "text" column with no extras, no order_by and no value |
| CrudEngine.BuildListContext | apps/core/crud/engine.py:8-36 | one parse drives everything: the page, the total over the whole listing, current_filters = as_dict, qs = build_qs_without_page, the items, and the "Listado"/"" defaults |
| CrudEngine.TotalCountsWholeListing | apps/core/crud/engine.py:33 | the total is never less than the page, a non-empty listing shows a non-empty page, and every page row is in the listing |
| CrudEngine.ContextStateOmitsPage | apps/core/crud/engine.py:34 | the context's state string holds exactly the non-page, non-blank, non-"all" parameters |
| CrudPermissions.NoSpecAllowsAll | apps/core/crud/permissions.py:21-22 | a missing or empty declaration allows every request, authenticated or not |
| CrudPermissions.SpecDeniesAnonymous | apps/core/crud/permissions.py:24-26 | any non-empty declaration denies an unauthenticated user |
| CrudPermissions.RoleSpecAllows | apps/core/crud/permissions.py:28-38 | a `role:` declaration allows iff the role lookup succeeds and shares a role with the stripped, non-blank listed names |
| CrudPermissions.EmptyRoleListDenies | apps/core/crud/permissions.py:30-32 | "role:" with no names denies everyone |
| CrudPermissions.PermSpecAllows | apps/core/crud/permissions.py:40-41 | any other declaration allows iff the user has the stripped permission |
| CrudRegistry.RegisteredCases | apps/core/crud/registry.py:11-21 | a blank or already-registered slug raises ValueError; otherwise only the stripped slug is added, mapped to the config |
| CrudRegistry.RegisterThenGet | apps/core/crud/registry.py:24-28 | a registered config is fetched back by its stripped slug, and other slugs fetch what they did before |
| CrudRegistry.PaddedSlugNotFound | apps/core/crud/registry.py:14-28 | a slug with surrounding spaces is stored stripped, so `get_crud` of the raw slug raises KeyError |
| CrudRegistry.SecondRegistrationRefused | apps/core/crud/registry.py:18-19 | a second config under the same stripped slug is refused and the first is kept |
| CrudRegistry.Registry.Register | apps/core/crud/registry.py:11-21 | the dict becomes the registered map on success and is unchanged on error |
| CrudRegistry.Registry.Get | apps/core/crud/registry.py:24-28 | the config for a registered slug, else KeyError |
| ItemCrud.ItemExportHeaders | apps/crud_example/crud_config.py:96-101 | the three export fields get the headers Nombre, Estado, Creado |
| ItemCrud.ItemStatusFilter | apps/crud_example/crud_config.py:16-17 | the status filter keeps, in order, exactly the rows whose status equals the value |
| ItemCrud.ItemSearchOnlyName | apps/crud_example/crud_config.py:31 | search only looks at the name |
| ItemCrud.ItemOrdering | apps/crud_example/crud_config.py:33-64 | a key naming a column orders by that field then pk, any other by pk alone |
| ItemCrud.ItemDefaultOrder | apps/crud_example/crud_config.py:69-70 | without `sort` the list is ordered by created_at then pk |
| ItemCrud.ItemLinks | apps/crud_example/crud_config.py:104-109 | no detail link; edit and delete are the item's paths, plus "?"+state when there is one |
| UserCrud.UserStatusFilter | apps/users_admin/crud_config.py:18-24 | "active"/"inactive" keep the users with that flag; any other value keeps everyone |
| UserCrud.UserRoleFilter | apps/users_admin/crud_config.py:27-35 | superuser / staff-not-superuser / neither; any other value keeps everyone |
| UserCrud.RoleFilterNeverApplied | apps/users_admin/crud_config.py:57-60 | the declared role filter never runs, because "role" is not a parameter key: filtering is by status alone |
| UserCrud.RoleLabelCases | apps/users_admin/crud_config.py:108-112 | the role cell is Superusuario, else Staff, else Usuario |
| UserCrud.FullNameDash | apps/users_admin/crud_config.py:90 | the full-name cell is "-" when both names are blank, else the stripped joined names, never empty |
| UserCrud.UserLinks | apps/users_admin/crud_config.py:202-207 | only the edit link exists, so only it receives the state |
| UserCrud.UserExportHeadersComplete | apps/users_admin/crud_config.py:177-200 | all nine export fields have their declared header, so there are nine headers |
| UserCrud.UserDefaultOrderAscending | apps/users_admin/crud_config.py:158-159 | the declared "desc" default never applies: with no sort and no dir, users list by date_joined ascending, then pk |
| UserCrud.UserDeleteIsEdit | apps/users_admin/crud_config.py:174-175 | deleting (state change) needs exactly the edit permission, auth.change_user |
| OrgCrud.OrgOrderingIsPk | apps/organization_admin/crud_config.py:44 | with no columns every request is ordered by pk alone |
| OrgCrud.OrgExportDisabled | apps/organization_admin/crud_config.py:65-67 | export is off, and there are no export fields or headers |
| OrgCrud.OrgAllowsAllFormats | apps/organization_admin/crud_config.py:68 | the empty format set allows csv, xlsx and pdf |
| OrgCrud.OrgDeleteAlwaysAllowed | apps/organization_admin/crud_config.py:63 | no delete permission is declared, so every request, even anonymous, may delete |
| OrgCrud.OrgListNeedsView | apps/organization_admin/crud_config.py:60 | listing needs core.view_globalconfig |
| ItemViews.LegacyParamsAreEngineParams | apps/crud_example/views.py:60-78 | the hand-written parser gives exactly the engine's `parse_params(...).as_dict()` |
| ItemViews.LegacyQsClean | apps/crud_example/views.py:55-57 | the legacy state drops page and every blank or "all" value, and equals the engine's `build_qs_without_page` |
| ItemViews.HxCurrentParamsNone | apps/crud_example/views.py:81-92 | no parameters without the header or without a URL query |
| ItemViews.StateFlat | apps/crud_example/views.py:126 | the row state read as a dict holds exactly the parameters that are neither blank nor "all", with their values, page included |
| ItemViews.StateUrlParses | apps/crud_example/views.py:86-92 | a URL whose query is an encoded state hands exactly that state to the parser |
| ItemViews.HxRestoresListState | apps/crud_example/views.py:81-92 | the browser URL of a row link gives back the list's parameters, except "all" reads blank and a blank or "all" page reads "1" |
| ItemViews.LegacyKeysShape | apps/crud_example/views.py:104-113 | the legacy order ends in the id tie-breaker in one direction, and an unknown sort key falls back to created_at |
| ItemViews.LegacyOrderDeterministic | apps/crud_example/views.py:95-113 | with distinct pks any sorted answer to `_queryset` is the modelled one |
| ItemViews.LegacySearchAgrees | apps/crud_example/views.py:98-99 | the legacy name search is the engine's search with the Item descriptor |
| ItemViews.LegacyStatusAgrees | apps/crud_example/views.py:101-102 | the legacy status test is the engine's status filter |
| ItemViews.LegacyFilterAgrees | apps/crud_example/views.py:95-102 | the legacy search and filter keep the same rows as the engine |
| ItemViews.LegacyRowsAgree | apps/crud_example/views.py:95-113 | for a blank sort key or one naming a column, `_queryset` equals the engine's listing |
| ItemViews.LegacyOrderDiverges | apps/crud_example/views.py:109 | an unknown sort key orders the legacy list by created_at but the engine's by pk alone |
| ItemViews.LegacyItems | apps/crud_example/views.py:124-141 | the loop builds one legacy row per page object |
| ItemViews.LegacyItemMatchesEngine | apps/crud_example/views.py:124-141 | legacy rows have three cells and the status label, and link exactly where the engine's rows do, with the same state |
| ItemViews.ExportViewGates | apps/crud_example/views.py:256-275 | permission, then enabled, then format, all before any queryset; an export lists exactly the list page's rows |
| ItemViews.ItemExportColumns | apps/crud_example/views.py:268-269 | Item exports write the three declared fields under their headers |
| UserViews.UserHxParamsShape | apps/users_admin/views.py:49-74 | no parameters without header or query; otherwise `parse_params` of the URL's flat dict, with a page that is never blank |
| UserViews.UserTable.Toggle | apps/users_admin/views.py:225-278 | only a permitted POST that passes both protections flips `is_active`, and nothing else changes |
| UserViews.ToggleRules | apps/users_admin/views.py:238-278 | activation is never blocked; self-deactivation and a non-superuser deactivating a superuser are refused with their messages |
| UserViews.ToggleProtects | apps/users_admin/views.py:238-278 | across any request the actor's own active account stays active, and only a superuser deactivates a superuser |
| UserViews.ToggleTwiceRestores | apps/users_admin/views.py:274-276 | two toggles give back the original accounts |
| UserViews.ConfirmPromptCases | apps/users_admin/views.py:280-282 | the GET prompt is red deactivation for an active account and green activation otherwise |
| UserViews.ToggleAsWrittenRaises | apps/users_admin/urls.py:9-11 | with only the "list" route declared, a permitted GET for an existing account raises NoReverseMatch, and a POST the protections let through raises it after the flip is saved |
| UserViews.ToggleAsWrittenAgrees | apps/users_admin/views.py:37-46 | whatever routes exist the saved accounts are the decided ones and refusals are answered unchanged; with the toggle route and every `_crud_urls()` route declared the answer is the decided one |
| UserViews.UserDetailJoinsNames | apps/users_admin/views.py:292-296 | the stripped " (first last)" follows the username with no space, then " - email" |
| UserViews.UserDeclaredColumns | apps/users_admin/views.py:328-349 | the descriptor's fields and headers are the views' fallback lists |
| UserViews.UserExportColumns | apps/users_admin/views.py:315-355 | a users export writes the nine declared fields under the nine headers |
| Exporting.SafeChar | apps/core/services/exporting.py:22 | the result is safe, and a safe character is kept |
| Exporting.Sanitize | apps/core/services/exporting.py:22 | same length, each character replaced by its safe form |
| Exporting.SanitizeIdempotent | apps/core/services/exporting.py:22 | sanitising safe text changes nothing; sanitising twice is sanitising once |
| Exporting.DefaultFilenameShape | apps/core/services/exporting.py:20-24 | stem of safe characters (or "export"), then "_", timestamp, ".", extension |
| Exporting.FilenameQuoteFree | apps/core/services/exporting.py:57 | a file name cannot break out of the quoted Content-Disposition value |
| Exporting.ConvertDatetimeProps | apps/core/services/exporting.py:27-31 | only aware datetimes change, wall time is kept, and the result is naive; converting is idempotent |
| Exporting.TextTableShape | apps/core/services/exporting.py:49-54 | rectangular grid: headers first, one record per row, "" for a missing value |
| Exporting.SheetTableShape | apps/core/services/exporting.py:83-87 | one cell per header in every line, and no aware datetime in the sheet |
| Exporting.StreamCsv | apps/core/services/exporting.py:34-58 | mismatched lengths raise ValueError before output; otherwise BOM, header row, one line per record |
| Exporting.SheetTitle | apps/core/services/exporting.py:81 | at most 31 characters, a prefix of the name, the name itself when short |
| Exporting.BuildXlsx | apps/core/services/exporting.py:61-99 | the length check, then the import; the sheet holds headers and converted rows |
| Exporting.BuildPdfTable | apps/core/services/exporting.py:102-138 | the length check, then the import; the table data is the CSV's grid |
| Services.SuccessView | apps/core/services.py:70-71 | success holds no errors and the given data |
| Services.FailureView | apps/core/services.py:79-82 | failure with one error holds that error and no data |
| Services.ServiceResult.constructor | apps/core/services.py:59-63 | `None` containers become empty ones |
| Services.ServiceResult.AddError | apps/core/services.py:84-87 | `None` is ignored, an error is appended, and `ok` becomes false exactly when one is added |
| Services.ServiceResult.AddWarning | apps/core/services.py:89-92 | `None` is ignored, a warning is appended, and `ok` is unchanged |
| Services.Success | apps/core/services.py:69-71 | a fresh, ok result with the data and meta |
| Services.Failure | apps/core/services.py:73-82 | an empty list raises ValueError; otherwise a fresh result holding those errors that is not ok |
| ServiceCore.ServiceResult.constructor | apps/service_core/base/result.py:24-32 | every container starts empty, so a new result is ok |
| ServiceCore.ServiceResult.AddError | apps/service_core/base/result.py:34-35 | appends whatever it is given, `None` included, so the result is never ok afterwards |
| ServiceCore.ServiceResult.AddWarning | apps/service_core/base/result.py:37-38 | appends whatever it is given, `ok` unchanged |
| Orgs.ActorMembershipFrom | apps/usuarios/services/create_member.py:23-27 | `.first()` finds the smallest-key active membership of the user in the organization, or proves there is none |
| Orgs.FirstUserWithEmail | apps/usuarios/services/create_member.py:43 | the smallest-key user with the email, or none has it |
| Orgs.CanManageIff | apps/usuarios/services/create_member.py:23-30 | under the uniqueness constraint, managing means holding an active admin membership there |
| Orgs.InsertMembershipValid | apps/orgs/models.py:37-38 | adding a membership for an existing user and organization not yet linked keeps (user, organization) unique |
| Orgs.UpdateMembershipValid | apps/orgs/models.py:33-34 | changing a membership's role to one of the two choices and its flag keeps the constraints |
| Orgs.InsertAdminManages | apps/usuarios/services/list_members.py:24-30 | a user given an active admin membership can manage that organization |
| Orgs.OrgRows | apps/usuarios/services/list_members.py:32-35 | exactly the organization's memberships, each with its user |
| Orgs.MemberOrderSeparates | apps/usuarios/services/list_members.py:54 | ordering by email then username ties no two rows of one organization |
| MemberServices.PickUser | apps/usuarios/services/create_member.py:43-60 | the first user with the email with blank names filled, or a new user with the email as username and no usable password |
| MemberServices.PickUserValid | apps/usuarios/services/create_member.py:43-60 | picking a user keeps the database constraints |
| MemberServices.CreateChecksInOrder | apps/usuarios/services/create_member.py:20-37 | unauthorized, forbidden, email_required, invalid_role, in that order, none changing anything |
| MemberServices.CreateAlreadyMember | apps/usuarios/services/create_member.py:62-70 | an already linked user gets already_member and no membership is added |
| MemberServices.FillNamesKeeps | apps/usuarios/services/create_member.py:58-59 | names already set are never overwritten |
| MemberServices.CreateSuccess | apps/usuarios/services/create_member.py:72-85 | a success adds exactly one active membership with the role, for the user the email names |
| MemberServices.CreatePreservesValid | apps/usuarios/services/create_member.py:42-77 | the create service keeps the constraints |
| MemberServices.UpdateAsWrittenAlwaysRaises | apps/usuarios/services/update_member.py:8 | as written every call raises AttributeError, even one whose change was saved |
| MemberServices.UpdateChecksInOrder | apps/usuarios/services/update_member.py:18-47 | unauthorized, forbidden, invalid_role, not_found in order; failures change nothing |
| MemberServices.UpdateSuccess | apps/usuarios/services/update_member.py:62-71 | role, flag and names set from the input; no other membership or user changes |
| MemberServices.OneChangeKeepsAdmins | apps/usuarios/services/update_member.py:49-60 | a single change that passes the guard leaves every organization that had an active admin with one |
| MemberServices.UpdateKeepsAnAdmin | apps/usuarios/services/update_member.py:49-60 | an organization with an active admin before an update has one after it |
| MemberServices.UpdatePreservesValid | apps/usuarios/services/update_member.py:62-69 | the update service keeps the constraints |
| MemberServices.UpdateInvariants | apps/usuarios/services/update_member.py:49-69 | every update keeps the database constraints and leaves an active admin in every organization that had one |
| MemberServices.ToggleOutcome | apps/usuarios/services/toggle_member.py:43-60 | toggling succeeds unless it deactivates the last active admin; it sets the flag, keeps the role, and reports the new value |
| MemberServices.ToggleRefusals | apps/usuarios/services/toggle_member.py:17-41 | unauthenticated, not an admin, not a member of this organization: refused, nothing changed |
| MemberServices.ToggleIdempotent | apps/usuarios/services/toggle_member.py:57-58 | setting the flag it already has leaves the tables as they were |
| MemberServices.ToggleKeepsAnAdmin | apps/usuarios/services/toggle_member.py:46-55 | an organization with an active admin before a toggle has one after it |
| MemberServices.TogglePreservesValid | apps/usuarios/services/toggle_member.py:57-58 | the toggle service keeps the constraints |
| MemberServices.ToggleInvariants | apps/usuarios/services/toggle_member.py:46-58 | every toggle keeps the database constraints and leaves an active admin in every organization that had one |
| MemberServices.MemberFilterKeeps | apps/usuarios/services/list_members.py:37-52 | a row passes iff the stripped term is blank or in a name or the email, the role matches if given, and the status matches |
| MemberServices.MemberFilterSubset | apps/usuarios/services/list_members.py:37-52 | filtering only drops rows |
| MemberServices.MemberListingOrder | apps/usuarios/services/list_members.py:32-54 | the listing is exactly the filtered memberships sorted by email then username, and no other order is sorted |
| MemberServices.ListMembersOutcome | apps/usuarios/services/list_members.py:17-55 | the list service always succeeds; an actor without a membership becomes the organization's active admin |
| MemberServices.ListPreservesValid | apps/usuarios/services/list_members.py:24-30 | the list service keeps the constraints |
| MemberServices.ExportMembersOutcome | apps/usuarios/services/export_members.py:17-85 | read-only; refuses unauthenticated, non-admin, unknown format in order; the file holds the header row and the list service's rows |
| MemberServices.MemberColumnsMatch | apps/usuarios/services/export_members.py:51-59 | six fields and six headers, so no writer refuses them |
| MemberServices.ExportWithoutContext | apps/usuarios/services/export_members.py:44-49 | without an organization on the context the file is named after "org" |
| MemberDatabase.Database.CreateMember | apps/usuarios/services/create_member.py:15-85 | the method leaves the tables and returns exactly what `MemberServices.CreateMember` decides |
| MemberDatabase.Database.SaveUser | apps/usuarios/services/create_member.py:43-60 | the user step writes what `PickUser` decides, or nothing when validation refuses |
| MemberDatabase.Database.UpdateMember | apps/usuarios/services/update_member.py:14-71 | the method leaves the tables and returns exactly what the corrected `MemberServices.UpdateMember` decides, so `UpdateInvariants` applies to it |
| MemberDatabase.Database.ToggleMember | apps/usuarios/services/toggle_member.py:13-60 | the method leaves the tables and returns exactly what `MemberServices.ToggleMember` decides, so `ToggleInvariants` applies to it |
| MemberDatabase.Database.ListMembers | apps/usuarios/services/list_members.py:13-55 | the method leaves the tables and returns exactly what `MemberServices.ListMembers` decides, bootstrap insert included |
| MemberViews.ParseBoolProps | apps/usuarios/views.py:72-76 | the default only matters for a missing value; a value reads the same once stripped and lower-cased |
| MemberViews.ParseBoolBlank | apps/usuarios/views.py:72-76 | a blank or unknown word is false whatever the default |
| MemberViews.NoneIfBlank | apps/usuarios/views.py:39-41 | `get(key) or None`: None exactly for a missing or empty value |
| MemberViews.StatusFlag | apps/usuarios/views.py:43-47 | active and inactive choose a flag; anything else none |
| MemberViews.ViewQueryStatus | apps/usuarios/views.py:34-59 | every status is listed unless the parameter is exactly active or inactive |
| MemberViews.CanManageMembersAgrees | apps/usuarios/views.py:81-85 | the page shows controls exactly to the actors the services let manage |
| MemberViews.ExportFormat | apps/usuarios/views.py:294 | "csv" for a missing or blank format; otherwise lower-cased |
| MemberViews.DefaultExportIsCsv | apps/usuarios/views.py:289-319 | without a format an admin's export is a CSV file of the listed members |
| MemberViews.FormDefaults | apps/usuarios/views.py:121-260 | a missing role asks for member; a missing active box or `active` asks to deactivate |
| MemberViews.EditCannotDropLastAdmin | apps/usuarios/views.py:195-249 | unticking "active" for the only active admin is refused, whatever else the form holds |
| OrgSession.NewMembership | apps/orgs/models.py:33-34 | a membership with the defaults: role member, active |
| OrgSession.StoredActiveOrg | apps/orgs/utils.py:32-43 | the stored id when set, non-zero and naming an active organization |
| OrgSession.SetActiveOrganization | apps/orgs/utils.py:10-29 | stores the organization iff the user is signed in with an active membership in the active organization |
| OrgSession.GetActiveOrganization | apps/orgs/utils.py:32-43 | the stored active organization, else None with the entry removed |
| OrgSession.ClearActiveOrg | apps/orgs/decorators.py:16-21 | the entry is dropped, and nothing else changes |
| OrgSession.SetThenGet | apps/orgs/utils.py:10-43 | storing an organization the user may work in and reading it back gives it |
| OrgSession.GetIsStable | apps/orgs/utils.py:32-43 | an entry that reads back as an organization survives a second read |
| OrgSession.OrganizationRequired | apps/orgs/decorators.py:24-62 | sign-in, then the stored organization, then an active membership; each refusal after sign-in drops the entry; only success calls the view |
| OrgSession.LinkRows | apps/orgs/views.py:16-20 | the user's eligible memberships, in key order |
| OrgSession.SelectOrganization | apps/orgs/views.py:15-31 | none renders the no-organization page, one activates it, more render the list by name |
| OrgSession.SelectListContents | apps/orgs/views.py:16-20 | exactly the active memberships in active organizations, each once, sorted by organization name |
| OrgSession.ActivateOrganization | apps/orgs/views.py:34-48 | sign-in, POST only, an eligible organization or 404, a non-integer id raises; then it is stored |
| OrgSession.EarliestFrom | apps/orgs/services.py:30-35 | the earliest eligible membership from a key on |
| OrgSession.CurrentOrgQueryIsEarliest | apps/orgs/services.py:30-37 | the query finds an organization iff the user has an eligible membership, that of the earliest one |
| OrgSession.CurrentUser.GetCurrentOrganization | apps/orgs/services.py:10-39 | None when anonymous; a cached organization is returned; otherwise the query answer is cached, None included, and a cached None is no hit |
| OrgSession.CurrentUser.HasOrgRole | apps/orgs/services.py:42-52 | false without a current organization; else whether an active membership there has one of the roles |
| OrgSession.RoleLookupAgrees | apps/core/crud/permissions.py:29-38 | a `role:` declaration is decided by the user's roles in their current organization |
| Forms.Stripped | apps/users_admin/forms.py:164-168 | a missing value reads as ""; the result is stripped and empty iff the input was all white space |
| Forms.Normalised | apps/users_admin/forms.py:70-76 | stripped and lower-cased, empty exactly when the stripped value is |
| Forms.NormalisedIdempotent | apps/users_admin/forms.py:70-76 | normalising again changes nothing |
| Forms.Unique | apps/users_admin/forms.py:70-84 | accepted iff non-empty and no other row holds it in any letter case; the error is `required` or `taken` accordingly |
| Forms.TakenByIgnoresCase | apps/users_admin/forms.py:72-74 | the `iexact` check is blind to letter case |
| Forms.TakenByExcluding | apps/users_admin/forms.py:176-185 | excluding the edited row is checking the table without it |
| Forms.Required | apps/users_admin/forms.py:164-168 | accepted iff some non-space character was given; then the stripped text, else the message |
| Forms.RequiredIdempotent | apps/users_admin/forms.py:164-168 | cleaning a cleaned value gives it back |
| Forms.BoundForm.AddError | apps/core/forms.py:51-53 | the error is filed under the field and the field leaves the cleaned data |
| Forms.SetPassword | apps/users_admin/forms.py:115 | a given password is hashed; `None` makes it unusable |
| UserForms.CleanUsernameProps | apps/users_admin/forms.py:70-76 | accepted iff non-blank and free in every letter case; kept lower-cased and stripped; cleaning again is stable |
| UserForms.CleanCreateEmailProps | apps/users_admin/forms.py:78-84 | the same for the create form's email |
| UserForms.CreateCleanRules | apps/users_admin/forms.py:92-110 | passes iff matching, 8+ characters, not the username, not common; each refusal is the first failing rule |
| UserForms.SaveCreated | apps/users_admin/forms.py:112-118 | the password comes from password1 and the user is stored when commit asks; other fields unchanged |
| UserForms.CleanNamesProps | apps/users_admin/forms.py:164-174 | both names must hold text, are kept stripped, and clean to themselves |
| UserForms.EditEmailIsCreateWithoutSelf | apps/users_admin/forms.py:176-185 | the edit form's email check is the create form's over every user but the edited one |
| UserForms.CleanIsActiveRules | apps/users_admin/forms.py:187-199 | activation is never refused; deactivation is refused iff self or a superuser by a non-superuser, self first |
| UserForms.StaffFlagRules | apps/users_admin/forms.py:127-154 | for a form built with its `request_user`, only a superuser requester changes the staff flag, and never removes their own; a non-superuser finds the box disabled and keeps the instance's flag without an error |
| UserForms.EditViewStaffRules | apps/users_admin/views.py:181-186 | as `edit_view` builds the form (no `request_user`, then `set_request_user`), the box is never disabled: a non-superuser who changes the flag gets "Solo superusuarios pueden modificar permisos de administrador", one who leaves it keeps it, and a superuser changes it except to remove their own |
| AccountForms.ProfileEmailAgreesWithEdit | apps/accounts/forms.py:20-31 | the profile form accepts exactly what the staff edit form accepts, keeping the typed letter case |
| AccountForms.RegisterEmailIsNewProfile | apps/accounts/forms.py:66-72 | registration checks the email as the profile form does for an unsaved user |
| AccountForms.RegisterPasswordField | apps/accounts/forms.py:49 | the field is kept iff at least 8 characters remain after stripping |
| AccountForms.RegisterErrorsRules | apps/accounts/forms.py:74-82 | at most one error, under password_confirm, exactly when both passwords are given and differ |
| AccountForms.RegisterClean | apps/accounts/forms.py:74-82 | the form's errors and cleaned data change exactly by those errors |
| AccountForms.SaveRegistered | apps/accounts/forms.py:84-90 | the password is set, the account is inactive until verified, and it is stored when commit asks |
| ConfigForms.CleanSiteNameRules | apps/organization_admin/forms.py:62-68 | accepted iff 2+ characters remain after stripping; none is "required", one is "too short" |
| ConfigForms.CleanCompanyEmail | apps/organization_admin/forms.py:70-73 | only stripped, never refused |
| ConfigForms.CleanCompanyPhoneRules | apps/organization_admin/forms.py:75-80 | optional; refused iff 1 to 7 characters remain |
| ConfigForms.SaveConfig | apps/organization_admin/forms.py:82-88 | the configuration gets key 1 and is saved through the singleton when commit asks, keeping the cache coherent |
| ConfigForms.SetupErrorsRules | apps/core/forms.py:42-55 | nothing without a password; with one, mismatch and missing email are reported independently, mismatch first |
| ConfigForms.SetupClean | apps/core/forms.py:42-55 | the form's errors and cleaned data change exactly by those errors |
| ItemForms.CleanItemNameRules | apps/crud_example/forms.py:23-27 | the name is required and kept stripped, and cleans to itself |
| ItemForms.ApplyItemForm | apps/crud_example/forms.py:11 | saving changes only name and status |
| SiteConfig.Defaults | apps/core/models.py:52-129 | the created row: key 1, setup incomplete, the declared name, message, hex colours and layout flags |
| SiteConfig.ConfigStore.Save | apps/core/models.py:31-34 | the key is forced to 1, row 1 is written, and the cache refreshed |
| SiteConfig.ConfigStore.Delete | apps/core/models.py:36-37 | nothing is removed |
| SiteConfig.ConfigStore.Load | apps/core/models.py:39-46 | a cache hit as it is; else row 1, or the defaults created and cached; a coherent cache stays coherent |
| SetupMiddleware.GateRules | apps/core/middleware.py:11-28 | redirect iff no exempt prefix and the configuration loaded with setup incomplete; exempt paths and load errors pass |
| SetupMiddleware.FreshInstallRedirects | apps/core/middleware.py:20-26 | on a fresh install every non-exempt page leads to the wizard |
| Navigation.OfKind | apps/core/navigation/registry.py:15-21 | the modules of one kind, in registry order |
| Navigation.KindListsPartition | apps/core/navigation/registry.py:15-21 | the system and business lists never share a module, and other kinds are in neither |
| Navigation.NavigationRegistry.Register | apps/core/navigation/registry.py:7-9 | the module is stored under its slug; a new slug goes last, an existing one keeps its place |
| Navigation.NavigationRegistry.GetModules | apps/core/navigation/registry.py:11-13 | exactly the stored modules, one per slug |
| Navigation.RegisterListing | apps/core/navigation/registry.py:7-13 | after registering, the module is listed under its slug and other slugs keep their places |
| Navigation.PermittedRules | apps/core/navigation/context_processors.py:15-20 | the menu keeps exactly the modules with no permission or one the user holds, in order |
| Navigation.NavigationContext | apps/core/navigation/context_processors.py:4-22 | nothing for an anonymous user; otherwise exactly the visible modules, in registry order |
| Settings.EnvBoolRules | config/settings.py:26-31 | the default decides only an unset variable; a set one is true iff its normal form is a true word |
| Settings.NonBlankStripped | config/settings.py:38 | never more items than pieces |
| Settings.EnvListItems | config/settings.py:34-38 | every item is non-blank, stripped and comma-free |
| Settings.EnvListRoundTrip | config/settings.py:34-38 | reading back comma-joined items gives the items |
| Settings.ProductionHostsDefault | config/settings.py:59-62 | without DEBUG and without a host list no host is allowed |
| Settings.SecretKeyRules | config/settings.py:45-56 | DEBUG never refuses; otherwise the key must be non-blank and no placeholder in any letter case |
| Settings.DatabaseCheckRules | config/settings.py:123-144 | only production on a non-SQLite engine is checked; it refuses iff name, user or password is empty |
| Settings.WithMinLength | config/settings.py:155-158 | the minimum-length validator gets min_length 12 where missing; others are unchanged |
| Settings.SetMinimumLength | config/settings.py:155-158 | the loop updates each entry in place as `WithMinLength` says |
| Settings.MinLengthRules | config/settings.py:147-158 | running the loop again changes nothing; on the declared list only the minimum-length entry changes |

## Left out

- The ORM, HTTP responses, template rendering, the messages framework and HTMX headers are not modelled. Querysets are sequences of rows, the database's `ORDER BY` is any sorted permutation, and responses are datatypes naming what is rendered.
- Django's own field cleaning is not modelled: `required`, `max_length` and `EmailField` syntax. The exception is the register password field's strip and `min_length`, which are modelled. Field values enter the `clean_<field>` models as `Option<string>`.
- `UserCreateForm.clean_password1` calls Django's `validate_password`. That is foreign code, so only the form's own `clean` rules are modelled.
- Password hashing is abstracted as `HashOf(raw)`. `set_unusable_password` is `Unusable`.
- The cache's timeout and expiry are not modelled. The `GlobalConfig` cache entry lives until it is overwritten.
- `CustomPasswordChangeForm`, the widget attributes and the help texts carry no logic and are not modelled. `set_request_user` only stores the requester, so the requester is a parameter. The edit form takes two of them: the one given when the form is built, which decides whether the staff box is disabled, and the one stored when it is cleaned (`UserForms.EditFormStaff`).
- The clock (`timezone.now`), `secrets.token_urlsafe` and `strftime` are parameters, not computed.
- `openpyxl` and `reportlab` are modelled as present or absent. The files are the cell grids handed to them; no bytes are produced.
- `urlencode`, `parse_qs` and `urlparse` work on unescaped text. Percent-encoding is not modelled, so the round trips hold for values without "&", "=" and "#".
- The navigation registry's class-level dict is modelled as one `NavigationRegistry` object.
- `str.strip()` is modelled with Python's full white-space set (`Text.IsSpace`). `str.lower()` is modelled on ASCII letters only.
- SafeChar: `str.isalnum()` is modelled on ASCII letters and digits only, so a non-ASCII letter or digit (the "ñ" of "Año") becomes "_" where Python keeps it. Python's Unicode character database is not modelled.
- Sanitize: inherits the ASCII-only `isalnum` of `SafeChar`, so "Año" gives "A_o" where Python keeps "Año".
- Rows.TextOf: a datetime cell is written as its integer wall value. Python writes `str(datetime)`, such as "2024-05-01 10:00:00+00:00"; calendar formatting is not modelled. This touches every export with a date column: the item's created_at, the user's date_joined and last_login, the member's created_at.
- Exporting.StreamCsv: the CSV is the grid of cell texts handed to `csv.writer`. The writer's quoting of cells holding ",", a double quote or a line break, and its "\r\n" line terminator, are not modelled. Datetime cells are as `Rows.TextOf` says.
- Exporting.BuildPdfTable: the datetime cells are as `Rows.TextOf` says, not `str(v)`.
- ExportMembersOutcome: the "Fecha Alta" cells are the integer wall value of `created_at` (see `Rows.TextOf`), not `str(datetime)`.
- The users admin URL configuration declares no `edit` route. The edit link is modelled as the path "/users/<pk>/edit/".
- UserViews.UserTable.Toggle: follows the view as if the "toggle" route and every route of `_crud_urls()` (table, create, export_csv, export_xlsx, export_pdf) were declared. The URL configuration declares only "list", so the view as written raises NoReverseMatch; see Findings and `UserViews.ToggleAsWritten`.
- UserViews.ConfirmPromptCases: the prompt is what the view would render with the "toggle" route declared. As written, `reverse("users_admin:toggle")` raises first.
- The users list and table views also reverse `_crud_urls()` and so raise as written. The list engine (`CrudEngine.BuildListContext`) takes the URLs as given.
- The `usuarios` app is not in `INSTALLED_APPS`, and its input dataclasses omit fields the services read. `ExportMembersInput` is not defined at all. The service inputs are modelled with the fields the services actually read.
- `BaseService.ensure_dataclass` and the `isinstance` asserts are type checks. The service inputs are typed datatypes here, so they cannot fail.
- `user.full_clean` is modelled by an `accepts` parameter plus the username uniqueness check.
- Transactions are modelled only by their outcome: a refused service call writes nothing, except already_member, which keeps the blank names it filled in on the existing user (`MemberServices.CreateAlreadyMember`).
- The settings after line 158 of config/settings.py are not modelled: language and time zone, static and media paths, cookie flags, the production security block, the RQ queue and the login URLs. Most are constants or `os.getenv` reads. The production block reads its flags with `_env_bool`, whose rules `Settings.EnvBoolRules` states. It also reads `int(os.getenv("DJANGO_SECURE_HSTS_SECONDS", …))` and `RQ_DEFAULT_TIMEOUT`, which raise ValueError on a value that is not a number; those two reads are not modelled.
- OrgSession.SelectOrganization: memberships of organizations with the same name keep the key order of `LinkRows`, because `Rows.OrderBy` is a stable sort. The database leaves that tie open (see `Rows.OrderWithoutPkIsAmbiguous`); `OrgSession.SelectListContents` states what holds either way: each eligible link once, sorted by name.
- OrgSession.EarliestFrom: memberships created at the same instant are ordered by key (`Earlier`). `order_by("created_at").first()` leaves that tie to the database.
- OrgSession.ActivateOrganization: an id with underscores between its digits, such as "1_0", answers ValueError, where Python's `int()` reads 10 (see the next line).
- Text.ParseInt: Python's `int()` also accepts underscores between digits ("1_0" reads as 10). The model refuses them, so `activate_organization` answers ValueError for such an id where Python reads a number.
- Rows.CompareValues: the modelled `ORDER BY` is SQLite's: None ranks lowest, so NULLs come first in ascending order, and text compares by code point (BINARY collation). The settings also allow PostgreSQL, which puts NULLs last in ascending order and sorts text by the locale's collation; that ordering is not modelled.
- `Rows.OrderBy` is a model of the database's sort. It is an insertion sort on values, not an in-place algorithm.
- The anonymous requester's pk (`None` on `AnonymousUser`) is not modelled. Actors carry a `nat` pk and an `isAuthenticated` flag.

## Findings

| source | as written | input that shows it | evidently intended | confidence | as-written member | corrected member |
|---|---|---|---|---|---|---|
| apps/usuarios/services/update_member.py:8 | `UpdateMemberService` builds its results with `ServiceResult.failure`/`success` of the service-core result class (apps/service_core/base/result.py:23-38), which has neither, so every call raises AttributeError. A permitted update has already been committed when the success result is built. | any call, e.g. an unauthenticated actor: `failure` is looked up and raises instead of returning "unauthorized" | the result class of apps/core/services.py, as the create and toggle services use: coded failures, and success with member_id and updated | not executed | MemberServices.UpdateMemberAsWritten | MemberServices.UpdateMember |
| apps/users_admin/urls.py:9-11 | Only the "list" route is declared. `toggle_view` reverses "users_admin:toggle" for its GET prompt (apps/users_admin/views.py:305). After a saved flip it answers through `_hx_modal_success_refresh`, whose context reverses table, create and export_* in `_crud_urls()` (views.py:37-46, 98-101). | an authenticated actor holding auth.change_user: a GET for an existing id raises NoReverseMatch instead of showing the prompt; a POST deactivating another ordinary active user saves is_active=False, then raises NoReverseMatch | the toggle, table, create and export routes declared, so the view shows the prompt and answers a saved flip with the refreshed table | not executed | UserViews.ToggleAsWritten | UserViews.UserTable.Toggle |
