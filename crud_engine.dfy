/**
 * `build_list_context`: one parse of the request drives the listing, the
 * page, the table rows and the state query string of a CRUD list page.
 */
module CrudEngine {
  import opened Wrappers
  import opened Text
  import opened Rows
  import opened CrudDefs
  import opened CrudConfigs
  import opened QueryStrings

  /** The context dict handed to the list templates. */
  datatype ListContext = ListContext(
    crudUrls: map<string, string>,
    pageTitle: string,
    entityLabel: string,
    entityLabelPlural: string,
    currentFilters: Pairs,
    statusOptions: Option<seq<(string, string)>>,
    columns: seq<ColumnTemplate>,
    items: seq<ItemRow>,
    page: Page,
    totalCount: nat,
    qs: string)

  /** `value or default` for an optional string. */
  function OrDefault(o: Option<string>, default: string): string
  {
    if Given(o) then o.value else default
  }

  /**
   * `build_list_context(config=c, request=..., crud_urls=urls)`, where `get`
   * is the request's query dict and `base` the base queryset.
   */
  method BuildListContext(c: CrudConfig, get: map<string, string>, base: seq<Row>, urls: map<string, string>)
    returns (ctx: ListContext)
    requires c.pageSize > 0
    ensures var p := ParseParams(get);
            var rows := ListRows(c, base, p);
            ctx.page == Paginate(rows, c.pageSize, p.page) &&
            ctx.totalCount == |rows| &&
            ctx.currentFilters == AsDict(p) &&
            ctx.qs == Urlencode(BuildQsWithoutPage(p)) &&
            |ctx.items| == |ctx.page.objects| &&
            (forall i :: 0 <= i < |ctx.items| ==>
               ctx.items[i] == ItemFor(c, ctx.page.objects[i], Urlencode(StateWithPage(p))))
    ensures ctx.pageTitle == (if Given(c.pageTitle) then c.pageTitle.value else "Listado")
    ensures ctx.entityLabel == (if Given(c.entityLabel) then c.entityLabel.value else "")
    ensures ctx.entityLabelPlural == (if Given(c.entityLabelPlural) then c.entityLabelPlural.value else "")
    ensures ctx.columns == ColumnsForTemplate(c.listColumns) && ctx.crudUrls == urls
    ensures ctx.statusOptions == c.statusOptions
  {
    var params := ParseParams(get);
    var qs := QuerysetForList(c, base, params);
    var pageObj := Paginate(qs, c.pageSize, params.page);
    var items := BuildItems(c, pageObj.objects, params);
    ctx := ListContext(
      crudUrls := urls,
      pageTitle := OrDefault(c.pageTitle, "Listado"),
      entityLabel := OrDefault(c.entityLabel, ""),
      entityLabelPlural := OrDefault(c.entityLabelPlural, ""),
      currentFilters := AsDict(params),
      statusOptions := c.statusOptions,
      columns := ColumnsForTemplate(c.listColumns),
      items := items,
      page := pageObj,
      totalCount := |qs|,
      qs := Urlencode(BuildQsWithoutPage(params)));
  }

  /**
   * The total counts the whole filtered listing: it is never smaller than
   * the current page, and a non-empty listing always shows a non-empty page
   * whose rows all come from the listing.
   */
  lemma TotalCountsWholeListing(c: CrudConfig, base: seq<Row>, p: CrudParams)
    requires c.pageSize > 0
    ensures var rows := ListRows(c, base, p);
            var pg := Paginate(rows, c.pageSize, p.page);
            |pg.objects| <= |rows| &&
            (|rows| > 0 ==> |pg.objects| > 0) &&
            (forall r :: r in pg.objects ==> r in rows)
  {
    var _ := PageSlice(ListRows(c, base, p), c.pageSize, p.page);
  }

  /**
   * The state string of the context never mentions the page, and every
   * non-blank, non-"all" parameter other than the page is in it.
   */
  lemma ContextStateOmitsPage(p: CrudParams)
    ensures forall pr :: pr in BuildQsWithoutPage(p) <==>
              pr in AsDict(p) && pr.0 != "page" && pr.1 != "" && pr.1 != "all"
  {
    StatePairsExact(AsDict(p), true);
  }
}
