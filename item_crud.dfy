/**
 * `ItemCrudConfig`, the descriptor of the example Item list: one searchable
 * field, a status filter, three single-field sortable columns and a full
 * export declaration.
 */
module ItemCrud {
  import opened Wrappers
  import opened Text
  import opened Rows
  import opened CrudDefs
  import opened CrudConfigs

  const ItemSlug := "crud_example.items"

  /** `_filter_status`: `qs.filter(status=value)`. */
  function FilterStatus(qs: seq<Row>, value: string): seq<Row>
  {
    Where(qs, r => Field(r, "status") == VStr(value))
  }

  /** The edit and delete paths of one item, under the `crud-example/` prefix. */
  function ItemPath(pk: nat, action: string): string
  {
    "/crud-example/" + NatToString(pk) + "/" + action + "/"
  }

  /** `row_urls(obj, ...)` */
  function ItemRowUrls(r: Row): RowUrls
  {
    RowUrls(None, Some(ItemPath(r.pk, "edit")), Some(ItemPath(r.pk, "delete")))
  }

  const ItemColumns: seq<ColumnDef> := [
    ColumnDef("name", "Nombre", "text", map[], true, true, Fields(["name"]), Some(r => Field(r, "name"))),
    ColumnDef("status", "Estado", "badge",
              map["colors" := map["active" := "success", "inactive" := "secondary"],
                  "labels" := map["active" := "Activo", "inactive" := "Inactivo"]],
              true, true, Fields(["status"]), Some(r => Field(r, "status"))),
    ColumnDef("created_at", "Creado", "date", map[], true, true, Fields(["created_at"]), Some(r => Field(r, "created_at")))
  ]

  const StatusFilter := FilterDef("status", FilterStatus)

  function ItemCrudConfig(): CrudConfig
  {
    CrudConfig(
      crudSlug := ItemSlug,
      pageTitle := Some("CRUD Example"),
      entityLabel := Some("Item"),
      entityLabelPlural := Some("Items"),
      listColumns := ItemColumns,
      filters := [StatusFilter],
      searchFields := ["name"],
      defaultSortKey := "created_at",
      defaultDir := "asc",
      pageSize := 10,
      statusOptions := Some([("all", "Todos"), ("active", "Activo"), ("inactive", "Inactivo")]),
      createTitle := Some("Nuevo Item"),
      editTitle := Some("Editar Item #{pk}"),
      deleteTitle := Some("Eliminar Item #{pk}"),
      createSubmitLabel := Some("Crear"),
      editSubmitLabel := Some("Guardar"),
      deleteConfirmLabel := Some("Eliminar"),
      permissionList := Some("crud_example.view_item"),
      permissionCreate := Some("crud_example.add_item"),
      permissionEdit := Some("crud_example.change_item"),
      permissionDelete := Some("crud_example.delete_item"),
      exportEnabled := true,
      exportFields := Some(["name", "status", "created_at"]),
      exportHeaders := Some(map["name" := "Nombre", "status" := "Estado", "created_at" := "Creado"]),
      exportFormats := Some(["csv", "xlsx", "pdf"]),
      rowUrls := ItemRowUrls)
  }

  /** The three export fields get the headers "Nombre", "Estado" and "Creado". */
  lemma ItemExportHeaders()
    ensures GetExportFields(ItemCrudConfig()) == Some(["name", "status", "created_at"])
    ensures GetExportHeaders(ItemCrudConfig()) == Some(["Nombre", "Estado", "Creado"])
  {
    var c := ItemCrudConfig();
    ExportHeadersMatchFields(c);
    var hs := GetExportHeaders(c).value;
    assert hs == ["Nombre", "Estado", "Creado"];
  }

  /** The status filter keeps, in order, exactly the rows whose status is the given value. */
  lemma ItemStatusFilter(qs: seq<Row>, value: string)
    ensures forall r :: r in ApplyTo(StatusFilter, qs, value) <==> r in qs && Field(r, "status") == VStr(value)
    ensures SubsequenceOf(ApplyTo(StatusFilter, qs, value), qs)
  {
    WhereMembers(qs, r => Field(r, "status") == VStr(value));
  }

  /** Search only looks at the name. */
  lemma ItemSearchOnlyName(qs: seq<Row>, q: string)
    ensures forall r :: r in Searched(qs, q, ItemCrudConfig().searchFields) <==>
              r in qs && (q == "" || ValueIContains(Field(r, "name"), q))
  {
    SearchedRows(qs, q, ["name"]);
  }

  /**
   * Every column sorts on its own field: a sort key naming a column orders
   * by that field then pk, and any other key by pk alone, all in the
   * request's direction.
   */
  lemma ItemOrdering(p: CrudParams)
    ensures var key := SortKey(ItemCrudConfig(), p);
            var desc := Direction(ItemCrudConfig(), p) == "desc";
            ApplyOrdering(ItemCrudConfig(), p) ==
              (if key in {"name", "status", "created_at"} then [OrderKey(key, desc), OrderKey("pk", desc)]
               else [OrderKey("pk", desc)])
  {
    var c := ItemCrudConfig();
    var key := SortKey(c, p);
    var desc := Direction(c, p) == "desc";
    if key == "name" {
      FindColumnFirst(ItemColumns, key, 0);
    } else if key == "status" {
      FindColumnFirst(ItemColumns, key, 1);
    } else if key == "created_at" {
      FindColumnFirst(ItemColumns, key, 2);
    } else {
      FindColumnFirst(ItemColumns, key, 3);
    }
    var keys := ApplyOrdering(c, p);
    assert Keys(["pk"], desc) == [OrderKey("pk", desc)];
  }

  /** On a parsed request without `sort` the list is ordered by creation time, then pk. */
  lemma ItemDefaultOrder(get: map<string, string>)
    requires "sort" !in get
    ensures ApplyOrdering(ItemCrudConfig(), ParseParams(get))
            == [OrderKey("created_at", ParseParams(get).dir == "desc"), OrderKey("pk", ParseParams(get).dir == "desc")]
  {
    ItemOrdering(ParseParams(get));
    ParsedDirIsAscOrDesc(get);
  }

  /**
   * Item rows have no detail link; their edit and delete links are the
   * item's own paths, followed by "?" and the list state when there is any.
   */
  lemma ItemLinks(r: Row, qs: string)
    ensures var u := ItemFor(ItemCrudConfig(), r, qs).urls;
            u.detail.None? &&
            u.edit == Some(if qs == "" then ItemPath(r.pk, "edit") else ItemPath(r.pk, "edit") + "?" + qs) &&
            u.delete == Some(if qs == "" then ItemPath(r.pk, "delete") else ItemPath(r.pk, "delete") + "?" + qs)
  {
    assert '?' !in ItemPath(r.pk, "edit") by {
      forall k | 0 <= k < |NatToString(r.pk)| ensures NatToString(r.pk)[k] != '?' { }
    }
    assert '?' !in ItemPath(r.pk, "delete") by {
      forall k | 0 <= k < |NatToString(r.pk)| ensures NatToString(r.pk)[k] != '?' { }
    }
  }
}
