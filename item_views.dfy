/**
 * The hand-written helpers of the Item views that predate the list engine:
 * their own parameter parser, the parameters read back from the browser's
 * current URL after a modal, their own queryset and row builder, and the
 * gate every export view passes before it builds a queryset.
 */
module ItemViews {
  import opened Wrappers
  import opened Text
  import opened Rows
  import opened Auth
  import opened CrudConfigs
  import opened QueryStrings
  import opened ItemCrud

  // ---------------------------------------------------------------------
  // Parameters

  /** `_get_params(request)` and `_get_params_from_mapping(data)`: one normalisation of a query dict. */
  function LegacyParams(data: map<string, string>): Pairs
  {
    var d := Lower(Strip(GetOr(data, "dir", "")));
    [("q", Strip(GetOr(data, "q", ""))),
     ("status", Strip(GetOr(data, "status", ""))),
     ("sort", Strip(GetOr(data, "sort", ""))),
     ("dir", if d == "asc" || d == "desc" then d else "asc"),
     ("page", Strip(GetOr(data, "page", "1"))),
     ("from", Strip(GetOr(data, "from", ""))),
     ("to", Strip(GetOr(data, "to", "")))]
  }

  /** The hand-written parser gives the same dict as `CrudConfig.parse_params(...).as_dict()`. */
  lemma LegacyParamsAreEngineParams(data: map<string, string>)
    ensures LegacyParams(data) == AsDict(ParseParams(data))
    ensures forall i :: 0 <= i < |ParamKeys| ==> LegacyParams(data)[i].0 == ParamKeys[i]
  {
  }

  /** `params[k]` */
  function Param(params: Pairs, k: string): string
  {
    Lookup(params, k).GetOr("")
  }

  /** Each parameter of a parsed dict is read from its own key. */
  lemma ParamOfDict(p: CrudParams)
    ensures Param(AsDict(p), "q") == p.q && Param(AsDict(p), "status") == p.status
    ensures Param(AsDict(p), "sort") == p.sort && Param(AsDict(p), "dir") == p.dir
  {
    var d := AsDict(p);
    var d1, d2, d3 := d[1..], d[2..], d[3..];
    assert d1[0] == ("status", p.status) && d1[1..] == d2;
    assert d2[0] == ("sort", p.sort) && d2[1..] == d3;
    assert d3[0] == ("dir", p.dir);
    assert Lookup(d, "status") == Lookup(d1, "status") == Some(p.status);
    assert Lookup(d, "sort") == Lookup(d1, "sort") == Lookup(d2, "sort") == Some(p.sort);
    assert Lookup(d, "dir") == Lookup(d1, "dir") == Lookup(d2, "dir") == Lookup(d3, "dir") == Some(p.dir);
  }

  /** `_build_qs_without_page(params)` */
  function LegacyQsWithoutPage(params: Pairs): Pairs
  {
    StatePairs(params, true)
  }

  /**
   * The legacy state string drops the page and every blank or "all" value,
   * and on parsed parameters it is the engine's `build_qs_without_page`.
   */
  lemma LegacyQsClean(data: map<string, string>)
    ensures forall pr :: pr in LegacyQsWithoutPage(LegacyParams(data)) <==>
              pr in LegacyParams(data) && pr.0 != "page" && pr.1 != "" && pr.1 != "all"
    ensures LegacyQsWithoutPage(LegacyParams(data)) == BuildQsWithoutPage(ParseParams(data))
  {
    StatePairsExact(LegacyParams(data), true);
  }

  /** `_get_params_from_hx_current_url(request)`, given the `HX-Current-URL` header. */
  function HxCurrentParams(header: Option<string>): Option<Pairs>
  {
    var current := header.GetOr("");
    if current == "" then None
    else
      var query := UrlQuery(current);
      if query == "" then None else Some(LegacyParams(Flat(ParseQsl(query))))
  }

  /** Without the header, or with a URL that has no query, there are no parameters to restore. */
  lemma HxCurrentParamsNone(header: Option<string>)
    ensures HxCurrentParams(header).None? <==> header.None? || UrlQuery(header.value) == ""
  {
    if header.Some? && header.value == "" {
      assert UrlQuery("") == "";
    }
  }

  /** The parameters `_context_for_refresh` uses: the browser URL's, else the request's own. */
  function RefreshParams(header: Option<string>, get: map<string, string>): Pairs
  {
    match HxCurrentParams(header)
    case Some(params) => params
    case None => LegacyParams(get)
  }

  /** A value that a state string drops reads back blank. */
  function Unall(v: string): string
  {
    if v == "all" then "" else v
  }

  /** The parameters read back from a URL that carries the state of `p`. */
  function Restored(p: CrudParams): CrudParams
  {
    CrudParams(Unall(p.q), Unall(p.status), Unall(p.sort), p.dir,
               if p.page == "" || p.page == "all" then "1" else p.page,
               Unall(p.dateFrom), Unall(p.dateTo))
  }

  /**
   * The flat dict of a parsed request's state: a parameter is present
   * exactly when its value is neither blank nor "all", and then with that value.
   */
  lemma StateFlat(p: CrudParams)
    ensures var m := Flat(StateWithPage(p));
            forall i :: 0 <= i < |ParamKeys| ==>
              (ParamKeys[i] in m <==> AsDict(p)[i].1 != "" && AsDict(p)[i].1 != "all") &&
              (ParamKeys[i] in m ==> m[ParamKeys[i]] == AsDict(p)[i].1)
  {
    var ps := StateWithPage(p);
    var d := AsDict(p);
    StatePairsExact(d, false);
    FlatKeys(ps);
    forall i | 0 <= i < |ParamKeys|
      ensures ParamKeys[i] in Flat(ps) <==> d[i].1 != "" && d[i].1 != "all"
      ensures ParamKeys[i] in Flat(ps) ==> Flat(ps)[ParamKeys[i]] == d[i].1
    {
      assert d[i].0 == ParamKeys[i];
      forall pr | pr in ps && pr.0 == ParamKeys[i] ensures pr == d[i] {
        assert pr in d;
      }
      if d[i].1 != "" && d[i].1 != "all" {
        assert d[i] in ps;
        FlatValue(ps, ParamKeys[i], d[i].1);
      }
    }
  }

  /** Re-reading one state parameter gives its value back, or the default when the state dropped it. */
  lemma RestoredField(p: CrudParams, i: nat, default: string)
    requires i < |ParamKeys| && NoEdgeSpace(AsDict(p)[i].1) && NoEdgeSpace(default)
    ensures var v := AsDict(p)[i].1;
            Strip(GetOr(Flat(StateWithPage(p)), ParamKeys[i], default)) ==
              (if v == "" || v == "all" then default else v)
  {
    StateFlat(p);
    StripNoop(GetOr(Flat(StateWithPage(p)), ParamKeys[i], default));
  }

  /** Parameters as `parse_params` leaves them: stripped values and a normal direction. */
  predicate NormalParams(p: CrudParams)
  {
    NoEdgeSpace(p.q) && NoEdgeSpace(p.status) && NoEdgeSpace(p.sort) && NoEdgeSpace(p.page) &&
    NoEdgeSpace(p.dateFrom) && NoEdgeSpace(p.dateTo) && (p.dir == "asc" || p.dir == "desc")
  }

  /** Parsed parameters are normal. */
  lemma ParsedParamsNormal(get: map<string, string>)
    ensures NormalParams(ParseParams(get))
  {
    var p := ParseParams(get);
    ParsedValuesStripped(get);
    ParsedDirIsAscOrDesc(get);
    assert AsDict(p)[0] in AsDict(p) && AsDict(p)[1] in AsDict(p) && AsDict(p)[2] in AsDict(p);
    assert AsDict(p)[4] in AsDict(p) && AsDict(p)[5] in AsDict(p) && AsDict(p)[6] in AsDict(p);
  }

  /** Reading the state's flat dict back gives the search, filter and date values, "all" read as blank. */
  lemma ReadBackTexts(p: CrudParams)
    requires NormalParams(p)
    ensures var r := ParseParams(Flat(StateWithPage(p)));
            r.q == Unall(p.q) && r.status == Unall(p.status) && r.sort == Unall(p.sort) &&
            r.dateFrom == Unall(p.dateFrom) && r.dateTo == Unall(p.dateTo)
  {
    assert NoEdgeSpace("");
    RestoredField(p, 0, "");
    RestoredField(p, 1, "");
    RestoredField(p, 2, "");
    RestoredField(p, 5, "");
    RestoredField(p, 6, "");
  }

  /** Reading the state's flat dict back gives the direction. */
  lemma ReadBackDir(p: CrudParams)
    requires NormalParams(p)
    ensures ParseParams(Flat(StateWithPage(p))).dir == p.dir
  {
    StateFlat(p);
    assert AsDict(p)[3].1 == p.dir && ParamKeys[3] == "dir";
    assert GetOr(Flat(StateWithPage(p)), "dir", "") == p.dir;
    NormalDirFixed(p.dir);
  }

  /** Reading the state's flat dict back gives the page, or "1" for a blank or "all" page. */
  lemma ReadBackPage(p: CrudParams)
    requires NormalParams(p)
    ensures ParseParams(Flat(StateWithPage(p))).page == (if p.page == "" || p.page == "all" then "1" else p.page)
  {
    assert NoEdgeSpace("1");
    RestoredField(p, 4, "1");
  }

  /** The state of normal parameters always holds the direction, so it is never empty. */
  lemma StateHoldsDir(p: CrudParams)
    requires NormalParams(p)
    ensures ("dir", p.dir) in StateWithPage(p) && StateWithPage(p) != []
  {
    StatePairsExact(AsDict(p), false);
    assert AsDict(p)[3] == ("dir", p.dir);
  }

  /** A state whose values have no "&" is written and read back unchanged by `urlencode`/`parse_qsl`. */
  lemma StatePlain(p: CrudParams)
    requires forall pr :: pr in AsDict(p) ==> '&' !in pr.1
    ensures Plain(StateWithPage(p))
  {
    StatePairsExact(AsDict(p), false);
    AsDictKeysPlain(p);
    forall pr | pr in StateWithPage(p) ensures pr.1 != "" && '=' !in pr.0 && '&' !in pr.0 && '&' !in pr.1 {
      assert pr in AsDict(p);
    }
  }

  /** A state whose values have no "#" encodes to a string without "#". */
  lemma StateNoFragment(p: CrudParams)
    requires forall pr :: pr in AsDict(p) ==> '#' !in pr.1
    ensures '#' !in Urlencode(StateWithPage(p))
  {
    StatePairsExact(AsDict(p), false);
    AsDictKeysPlain(p);
    forall pr | pr in StateWithPage(p) ensures '#' !in pr.0 && '#' !in pr.1 {
      assert pr in AsDict(p);
    }
    UrlencodeAvoids(StateWithPage(p), '#');
  }

  /** A URL whose query is an encoded state hands exactly that state to the parser. */
  lemma StateUrlParses(path: string, p: CrudParams)
    requires NormalParams(p) && '?' !in path && '#' !in path
    requires forall pr :: pr in AsDict(p) ==> '&' !in pr.1 && '#' !in pr.1
    ensures HxCurrentParams(Some(path + "?" + Urlencode(StateWithPage(p)))) ==
            Some(LegacyParams(Flat(StateWithPage(p))))
  {
    var ps := StateWithPage(p);
    StateHoldsDir(p);
    UrlencodeEmptyIff(ps);
    StatePlain(p);
    StateNoFragment(p);
    UrlQueryOf(path, Urlencode(ps));
    ParseQslUrlencode(ps);
  }

  /**
   * After a modal, a browser URL that carries the list state as the row
   * links encode it (page included) gives back the same parameters, except
   * that "all" values read back blank and a blank or "all" page as "1".
   */
  lemma HxRestoresListState(path: string, get: map<string, string>)
    requires '?' !in path && '#' !in path
    requires forall pr :: pr in AsDict(ParseParams(get)) ==> '&' !in pr.1 && '#' !in pr.1
    ensures HxCurrentParams(Some(path + "?" + Urlencode(StateWithPage(ParseParams(get)))))
            == Some(AsDict(Restored(ParseParams(get))))
  {
    var p := ParseParams(get);
    ParsedParamsNormal(get);
    StateUrlParses(path, p);
    LegacyParamsAreEngineParams(Flat(StateWithPage(p)));
    ReadBackTexts(p);
    ReadBackDir(p);
    ReadBackPage(p);
  }

  // ---------------------------------------------------------------------
  // The queryset

  /** `sort_map.get(sort, "created_at")` */
  function LegacySortKey(sort: string): string
  {
    if sort == "name" || sort == "status" || sort == "created_at" then sort else "created_at"
  }

  /** The `order_by` of `_queryset`: the sort field then `id`, both with the direction's prefix. */
  function LegacyKeys(params: Pairs): seq<OrderKey>
  {
    var desc := Param(params, "dir") == "desc";
    [OrderKey(LegacySortKey(Param(params, "sort")), desc), OrderKey("id", desc)]
  }

  /** The rows `_queryset` keeps: name search, then the status filter. */
  function LegacyFiltered(base: seq<Row>, params: Pairs): seq<Row>
  {
    var q := Param(params, "q");
    var status := Param(params, "status");
    var searched := if q != "" then Where(base, r => ValueIContains(Field(r, "name"), q)) else base;
    if status != "" && status != "all" then Where(searched, r => Field(r, "status") == VStr(status)) else searched
  }

  /** `_queryset(params)` */
  function LegacyRows(base: seq<Row>, params: Pairs): seq<Row>
  {
    OrderBy(LegacyFiltered(base, params), LegacyKeys(params))
  }

  /**
   * The order always ends in the `id` tie-breaker, with the same direction
   * on both keys; a sort key other than name, status or created_at falls
   * back to created_at.
   */
  lemma LegacyKeysShape(params: Pairs)
    ensures EndsWithPk(LegacyKeys(params))
    ensures LegacyKeys(params)[0].field in {"name", "status", "created_at"}
    ensures Param(params, "sort") !in {"name", "status", "created_at"} ==> LegacyKeys(params)[0].field == "created_at"
    ensures LegacyKeys(params)[0].descending == LegacyKeys(params)[1].descending
  {
  }

  /** With distinct pks, any sorted answer the database gives to `_queryset` is `LegacyRows`. */
  lemma LegacyOrderDeterministic(base: seq<Row>, params: Pairs, answer: seq<Row>)
    requires UniquePks(LegacyFiltered(base, params))
    requires multiset(answer) == multiset(LegacyFiltered(base, params))
    requires Sorted(answer, LegacyKeys(params))
    ensures answer == LegacyRows(base, params)
  {
    OrderByIsTheOrder(LegacyFiltered(base, params), answer, LegacyKeys(params));
  }

  /** The legacy name search is the engine's search over the Item's one search field. */
  lemma LegacySearchAgrees(base: seq<Row>, q: string)
    ensures (if q != "" then Where(base, r => ValueIContains(Field(r, "name"), q)) else base) ==
            Searched(base, q, ItemCrudConfig().searchFields)
  {
    if q != "" {
      forall r | r in base ensures ValueIContains(Field(r, "name"), q) == MatchesAny(r, q, ["name"]) {
        assert ["name"][..0] == [];
      }
      WhereExt(base, r => ValueIContains(Field(r, "name"), q), r => MatchesAny(r, q, ["name"]));
    }
  }

  /** The legacy status test is the engine's run of the Item's status filter on a stripped status. */
  lemma LegacyStatusAgrees(qs: seq<Row>, p: CrudParams)
    requires NoEdgeSpace(p.status)
    ensures (if p.status != "" && p.status != "all" then Where(qs, r => Field(r, "status") == VStr(p.status)) else qs) ==
            Filtered(qs, ItemCrudConfig().filters, AsDict(p))
  {
    StripNoop(p.status);
    assert Lookup(AsDict(p), "status") == Some(p.status);
    assert Filtered(qs, [StatusFilter], AsDict(p)) == FilterStep(qs, StatusFilter, AsDict(p));
    if p.status != "" && p.status != "all" {
      WhereExt(qs, r => Field(r, "status") == VStr(p.status), r => Field(r, "status") == VStr(p.status));
    }
  }

  /** The legacy search and filter keep the same rows as the engine with the Item descriptor. */
  lemma LegacyFilterAgrees(base: seq<Row>, get: map<string, string>)
    ensures var p := ParseParams(get);
            LegacyFiltered(base, LegacyParams(get)) ==
              Filtered(Searched(base, p.q, ItemCrudConfig().searchFields), ItemCrudConfig().filters, AsDict(p))
  {
    var p := ParseParams(get);
    var params := LegacyParams(get);
    LegacyParamsAreEngineParams(get);
    ParsedParamsNormal(get);
    ParamOfDict(p);
    LegacySearchAgrees(base, p.q);
    LegacyStatusAgrees(Searched(base, p.q, ItemCrudConfig().searchFields), p);
  }

  /** The legacy keys and the engine's compare every two rows alike when they name the same field. */
  lemma SameKeysCompareAlike(field: string, desc: bool)
    ensures forall a, b :: CompareBy([OrderKey(field, desc), OrderKey("id", desc)], a, b) ==
                           CompareBy([OrderKey(field, desc), OrderKey("pk", desc)], a, b)
  {
    forall a: Row, b: Row
      ensures CompareBy([OrderKey(field, desc), OrderKey("id", desc)], a, b) ==
              CompareBy([OrderKey(field, desc), OrderKey("pk", desc)], a, b)
    {
      assert [OrderKey(field, desc), OrderKey("id", desc)][1..] == [OrderKey("id", desc)];
      assert [OrderKey(field, desc), OrderKey("pk", desc)][1..] == [OrderKey("pk", desc)];
      assert [OrderKey("id", desc)][1..] == [] && [OrderKey("pk", desc)][1..] == [];
    }
  }

  /**
   * When the sort key is blank or names a column, `_queryset` returns
   * exactly the engine's listing for the Item descriptor.
   */
  lemma LegacyRowsAgree(base: seq<Row>, get: map<string, string>)
    requires ParseParams(get).sort in {"", "name", "status", "created_at"}
    ensures LegacyRows(base, LegacyParams(get)) == ListRows(ItemCrudConfig(), base, ParseParams(get))
  {
    var p := ParseParams(get);
    var c := ItemCrudConfig();
    var params := LegacyParams(get);
    LegacyFilterAgrees(base, get);
    var key, desc := LegacyKeysMatch(get);
    SameKeysCompareAlike(key, desc);
    OrderByCongruent(LegacyFiltered(base, params), LegacyKeys(params), ApplyOrdering(c, p));
  }

  /** For a sort key the engine knows, both orderings sort by the same field and direction, then by the key. */
  lemma LegacyKeysMatch(get: map<string, string>) returns (key: string, desc: bool)
    requires ParseParams(get).sort in {"", "name", "status", "created_at"}
    ensures LegacyKeys(LegacyParams(get)) == [OrderKey(key, desc), OrderKey("id", desc)]
    ensures ApplyOrdering(ItemCrudConfig(), ParseParams(get)) == [OrderKey(key, desc), OrderKey("pk", desc)]
  {
    var p := ParseParams(get);
    var c := ItemCrudConfig();
    var params := LegacyParams(get);
    LegacyParamsAreEngineParams(get);
    ParamOfDict(p);
    ItemOrdering(p);
    ParsedDirIsAscOrDesc(get);
    desc := p.dir == "desc";
    assert Direction(c, p) == p.dir;
    assert Param(params, "dir") == p.dir && Param(params, "sort") == p.sort;
    key := SortKey(c, p);
    assert LegacySortKey(p.sort) == key;
  }

  /**
   * An unknown sort key orders the legacy list by creation time, while the
   * engine orders it by pk alone.
   */
  lemma LegacyOrderDiverges(get: map<string, string>)
    requires ParseParams(get).sort !in {"", "name", "status", "created_at"}
    ensures LegacyKeys(LegacyParams(get))[0].field == "created_at"
    ensures ApplyOrdering(ItemCrudConfig(), ParseParams(get)) == [OrderKey("pk", ParseParams(get).dir == "desc")]
  {
    ItemOrdering(ParseParams(get));
    ParsedDirIsAscOrDesc(get);
    LegacyParamsAreEngineParams(get);
    assert Param(LegacyParams(get), "sort") == ParseParams(get).sort;
  }

  // ---------------------------------------------------------------------
  // Table rows

  /** `Item.get_status_display()`: the choice label, or the stored value itself. */
  function StatusDisplay(v: Value): string
  {
    if v == VStr("active") then "Activo" else if v == VStr("inactive") then "Inactivo" else TextOf(v)
  }

  /** A row dict of `_items`: the text cells and the links. */
  datatype LegacyItem = LegacyItem(id: nat, cells: seq<string>, urls: RowUrls)

  /** The row `_items` builds for one item, given the encoded state and the date formatter. */
  function LegacyItemFor(r: Row, qs: string, strftime: (Value, string) -> string): LegacyItem
  {
    var edit := ItemPath(r.pk, "edit");
    var delete := ItemPath(r.pk, "delete");
    LegacyItem(
      r.pk,
      [TextOf(Field(r, "name")), StatusDisplay(Field(r, "status")), strftime(Field(r, "created_at"), "%Y-%m-%d")],
      RowUrls(None, Some(if qs != "" then edit + "?" + qs else edit), Some(if qs != "" then delete + "?" + qs else delete)))
  }

  /** `_items(page_obj, params=params)`, with `strftime` the datetime formatter. */
  method LegacyItems(page: seq<Row>, params: Pairs, strftime: (Value, string) -> string) returns (rows: seq<LegacyItem>)
    ensures |rows| == |page|
    ensures forall i :: 0 <= i < |page| ==> rows[i] == LegacyItemFor(page[i], Urlencode(StatePairs(params, false)), strftime)
  {
    var qsWithPage := Urlencode(StatePairs(params, false));
    rows := [];
    for n := 0 to |page|
      invariant |rows| == n
      invariant forall i :: 0 <= i < n ==> rows[i] == LegacyItemFor(page[i], qsWithPage, strftime)
    {
      var obj := page[n];
      var editUrl := ItemPath(obj.pk, "edit");
      var deleteUrl := ItemPath(obj.pk, "delete");
      if qsWithPage != "" {
        editUrl := editUrl + "?" + qsWithPage;
        deleteUrl := deleteUrl + "?" + qsWithPage;
      }
      var cells := [TextOf(Field(obj, "name")), StatusDisplay(Field(obj, "status")),
                    strftime(Field(obj, "created_at"), "%Y-%m-%d")];
      rows := rows + [LegacyItem(obj.pk, cells, RowUrls(None, Some(editUrl), Some(deleteUrl)))];
    }
  }

  /**
   * The legacy rows have three cells, the status shown by its label, and
   * link exactly where the engine's rows for the Item descriptor link, with
   * the same state (page included) appended.
   */
  lemma LegacyItemMatchesEngine(r: Row, get: map<string, string>, strftime: (Value, string) -> string)
    ensures var qs := Urlencode(StatePairs(LegacyParams(get), false));
            var it := LegacyItemFor(r, qs, strftime);
            qs == Urlencode(StateWithPage(ParseParams(get))) &&
            it.id == r.pk && |it.cells| == 3 &&
            (Field(r, "status") == VStr("active") ==> it.cells[1] == "Activo") &&
            (Field(r, "status") == VStr("inactive") ==> it.cells[1] == "Inactivo") &&
            it.urls == ItemFor(ItemCrudConfig(), r, qs).urls
  {
    var qs := Urlencode(StatePairs(LegacyParams(get), false));
    ItemLinks(r, qs);
  }

  // ---------------------------------------------------------------------
  // Export views

  /**
   * The refusal an export view answers with, the checks taken in order, or
   * `None` when the export goes ahead.
   */
  function ExportGate(c: CrudConfig, user: Actor, orgRoles: Option<set<string>>, fmt: string): Option<string>
  {
    if !CanExport(c, user, orgRoles) then Some("Forbidden")
    else if !IsExportEnabled(c) then Some("Export disabled")
    else if !AllowsFormat(c, Some(fmt)) then Some("Format not allowed")
    else None
  }

  /** What an export view hands to the writer: the listing, the fields and their headers. */
  datatype ExportJob = ExportJob(rows: seq<Row>, fields: seq<string>, headers: seq<string>)

  /**
   * An export view: the gate, then the engine's listing of the request,
   * with the declared fields and headers or else the view's fallback lists.
   */
  function ExportView(c: CrudConfig, user: Actor, orgRoles: Option<set<string>>, fmt: string,
                      get: map<string, string>, base: seq<Row>,
                      fallbackFields: seq<string>, fallbackHeaders: seq<string>): Result<ExportJob, string>
  {
    match ExportGate(c, user, orgRoles, fmt)
    case Some(refusal) => Err(refusal)
    case None =>
      var p := ParseParams(get);
      Ok(ExportJob(ListRows(c, base, p),
                   GetExportFields(c).GetOr(fallbackFields),
                   GetExportHeaders(c).GetOr(fallbackHeaders)))
  }

  /**
   * Permission is checked first, then whether export is enabled, then the
   * format, all before any queryset is built; an export that goes ahead
   * lists exactly the rows of the list page, and fields and headers have
   * equal length whenever the fallback lists do.
   */
  lemma ExportViewGates(c: CrudConfig, user: Actor, orgRoles: Option<set<string>>, fmt: string,
                        get: map<string, string>, base: seq<Row>,
                        fallbackFields: seq<string>, fallbackHeaders: seq<string>)
    ensures var r := ExportView(c, user, orgRoles, fmt, get, base, fallbackFields, fallbackHeaders);
            (!CanExport(c, user, orgRoles) <==> r == Err("Forbidden")) &&
            (CanExport(c, user, orgRoles) && !IsExportEnabled(c) <==> r == Err("Export disabled")) &&
            (r.Ok? <==> CanExport(c, user, orgRoles) && IsExportEnabled(c) && AllowsFormat(c, Some(fmt))) &&
            (r.Ok? ==> r.value.rows == ListRows(c, base, ParseParams(get))) &&
            (r.Ok? && |fallbackFields| == |fallbackHeaders| ==> |r.value.fields| == |r.value.headers|)
  {
    ExportHeadersMatchFields(c);
  }

  const ItemFallbackFields: seq<string> := ["name", "status", "created_at"]
  const ItemFallbackHeaders: seq<string> := ["Nombre", "Estado", "Creado"]

  /**
   * The Item exports write the three declared fields under "Nombre",
   * "Estado" and "Creado" for every allowed format.
   */
  lemma ItemExportColumns(user: Actor, orgRoles: Option<set<string>>, fmt: string, get: map<string, string>, base: seq<Row>)
    requires ExportView(ItemCrudConfig(), user, orgRoles, fmt, get, base, ItemFallbackFields, ItemFallbackHeaders).Ok?
    ensures var job := ExportView(ItemCrudConfig(), user, orgRoles, fmt, get, base, ItemFallbackFields, ItemFallbackHeaders).value;
            job.fields == ItemFallbackFields && job.headers == ItemFallbackHeaders
  {
    ItemExportHeaders();
  }
}
