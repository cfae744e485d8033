/**
 * `CrudConfig`, the declarative list engine: request parameters, the state
 * query string, export declarations, the search -> filter -> order pipeline,
 * table rows, modal titles, permissions and pagination.
 *
 * A queryset is a `seq<Row>`; `urlencode` is modelled by its ordered
 * key/value pairs (`Pairs`) and their unescaped `k=v&k=v` text.
 */
module CrudConfigs {
  import opened Wrappers
  import opened Text
  import opened Rows
  import opened Auth
  import opened CrudDefs
  import opened QueryStrings
  import CrudPermissions

  // ---------------------------------------------------------------------
  // Parameters

  datatype CrudParams = CrudParams(
    q: string,
    status: string,
    sort: string,
    dir: string,
    page: string,
    dateFrom: string,
    dateTo: string)

  /** `CrudParams.as_dict()`, in its key order. */
  function AsDict(p: CrudParams): Pairs
  {
    [("q", p.q), ("status", p.status), ("sort", p.sort), ("dir", p.dir),
     ("page", p.page), ("from", p.dateFrom), ("to", p.dateTo)]
  }

  const ParamKeys: seq<string> := ["q", "status", "sort", "dir", "page", "from", "to"]

  lemma AsDictKeys(p: CrudParams)
    ensures |AsDict(p)| == |ParamKeys|
    ensures forall i :: 0 <= i < |ParamKeys| ==> AsDict(p)[i].0 == ParamKeys[i]
  {
  }

  /** No parameter key holds a character that `urlencode` or a URL treats specially. */
  lemma AsDictKeysPlain(p: CrudParams)
    ensures forall pr :: pr in AsDict(p) ==> '=' !in pr.0 && '&' !in pr.0 && '#' !in pr.0
  {
    forall pr | pr in AsDict(p) ensures '=' !in pr.0 && '&' !in pr.0 && '#' !in pr.0 {
      var i :| 0 <= i < |AsDict(p)| && AsDict(p)[i] == pr;
      assert pr.0 in ParamKeys;
    }
  }

  /** `request.GET.get(k) or default`; `get` holds the last value of each key. */
  function GetOr(get: map<string, string>, k: string, default: string): string
  {
    if k in get && get[k] != "" then get[k] else default
  }

  /** The direction a raw `dir` value normalises to. */
  function NormalDir(raw: string): string
  {
    var d := Lower(Strip(raw));
    if d == "asc" || d == "desc" then d else "asc"
  }

  /** `CrudConfig.parse_params(request)`. */
  function ParseParams(get: map<string, string>): CrudParams
  {
    CrudParams(
      q := Strip(GetOr(get, "q", "")),
      status := Strip(GetOr(get, "status", "")),
      sort := Strip(GetOr(get, "sort", "")),
      dir := NormalDir(GetOr(get, "dir", "")),
      page := Strip(GetOr(get, "page", "1")),
      dateFrom := Strip(GetOr(get, "from", "")),
      dateTo := Strip(GetOr(get, "to", "")))
  }

  /**
   * `dir` is always "asc" or "desc", and "desc" exactly when the stripped,
   * lower-cased value is "desc".
   */
  lemma ParsedDirIsAscOrDesc(get: map<string, string>)
    ensures ParseParams(get).dir in {"asc", "desc"}
    ensures ParseParams(get).dir == "desc" <==> Lower(Strip(GetOr(get, "dir", ""))) == "desc"
  {
  }

  /**
   * A missing or empty page becomes "1"; a whitespace-only page becomes ""
   * because the default is applied before stripping.
   */
  lemma ParsedPageDefault(get: map<string, string>)
    ensures "page" !in get || get["page"] == "" ==> ParseParams(get).page == "1"
    ensures "page" in get && get["page"] != "" && (forall k :: 0 <= k < |get["page"]| ==> IsSpace(get["page"][k]))
            ==> ParseParams(get).page == ""
  {
    assert Strip("1") == "1" by { StripNoop("1"); }
    if "page" in get {
      StripEmptyIff(get["page"]);
    }
  }

  /** Each parsed field is stripped, and the direction is one of the two. */
  lemma ParsedFieldsStripped(get: map<string, string>)
    ensures var p := ParseParams(get);
            NoEdgeSpace(p.q) && NoEdgeSpace(p.status) && NoEdgeSpace(p.sort) && NoEdgeSpace(p.page) &&
            NoEdgeSpace(p.dateFrom) && NoEdgeSpace(p.dateTo) && p.dir in {"asc", "desc"}
  {
    StripNoEdgeSpace(GetOr(get, "q", ""));
    StripNoEdgeSpace(GetOr(get, "status", ""));
    StripNoEdgeSpace(GetOr(get, "sort", ""));
    StripNoEdgeSpace(GetOr(get, "page", "1"));
    StripNoEdgeSpace(GetOr(get, "from", ""));
    StripNoEdgeSpace(GetOr(get, "to", ""));
  }

  /** Every parsed value is stripped. */
  lemma ParsedValuesStripped(get: map<string, string>)
    ensures forall pr :: pr in AsDict(ParseParams(get)) ==> NoEdgeSpace(pr.1)
  {
    var p := ParseParams(get);
    ParsedFieldsStripped(get);
    DirNoEdgeSpace(p.dir);
    AsDictStripped(p);
  }

  /** When every field is stripped, so is every value of the dict. */
  lemma AsDictStripped(p: CrudParams)
    requires NoEdgeSpace(p.q) && NoEdgeSpace(p.status) && NoEdgeSpace(p.sort) && NoEdgeSpace(p.dir)
    requires NoEdgeSpace(p.page) && NoEdgeSpace(p.dateFrom) && NoEdgeSpace(p.dateTo)
    ensures forall pr :: pr in AsDict(p) ==> NoEdgeSpace(pr.1)
  {
    var d := AsDict(p);
    forall pr | pr in d ensures NoEdgeSpace(pr.1) {
      var i :| 0 <= i < 7 && d[i] == pr;
    }
  }

  /** The two directions have no surrounding white space. */
  lemma DirNoEdgeSpace(d: string)
    requires d in {"asc", "desc"}
    ensures NoEdgeSpace(d)
  {
    if d == "asc" {
      assert d[0] == 'a' && d[2] == 'c';
    } else {
      assert d[0] == 'd' && d[3] == 'c';
    }
  }

  /** The query dict of a request whose parameters are `as_dict()`. */
  function ParamsMap(p: CrudParams): map<string, string>
  {
    map["q" := p.q, "status" := p.status, "sort" := p.sort, "dir" := p.dir,
        "page" := p.page, "from" := p.dateFrom, "to" := p.dateTo]
  }

  /** Re-reading a stripped value gives it back, or the default when it is empty. */
  lemma ReparseField(m: map<string, string>, k: string, d: string)
    requires k in m && NoEdgeSpace(m[k]) && NoEdgeSpace(d)
    ensures Strip(GetOr(m, k, d)) == (if m[k] == "" then d else m[k])
  {
    StripNoop(GetOr(m, k, d));
  }

  /** Normal search and date values parse back to themselves. */
  lemma ReparseTexts(p: CrudParams)
    requires NoEdgeSpace(p.q) && NoEdgeSpace(p.status) && NoEdgeSpace(p.sort)
    requires NoEdgeSpace(p.dateFrom) && NoEdgeSpace(p.dateTo)
    ensures var r := ParseParams(ParamsMap(p));
            r.q == p.q && r.status == p.status && r.sort == p.sort && r.dateFrom == p.dateFrom && r.dateTo == p.dateTo
  {
    var m := ParamsMap(p);
    assert NoEdgeSpace("");
    ReparseField(m, "q", "");
    ReparseField(m, "status", "");
    ReparseField(m, "sort", "");
    ReparseField(m, "from", "");
    ReparseField(m, "to", "");
  }

  /** A normal direction parses back to itself, and a normal page too unless it is empty. */
  lemma ReparseDirPage(p: CrudParams)
    requires NoEdgeSpace(p.page) && p.dir in {"asc", "desc"}
    ensures var r := ParseParams(ParamsMap(p));
            r.dir == p.dir && r.page == (if p.page == "" then "1" else p.page)
  {
    var m := ParamsMap(p);
    assert m["page"] == p.page && m["dir"] == p.dir;
    assert NoEdgeSpace("1");
    ReparseField(m, "page", "1");
    assert GetOr(m, "dir", "") == p.dir;
    NormalDirFixed(p.dir);
  }

  /** "asc" and "desc" are already normal directions. */
  lemma NormalDirFixed(d: string)
    requires d in {"asc", "desc"}
    ensures NormalDir(d) == d
  {
    StripNoop(d);
    assert Lower(d) == d;
  }

  /** Parameters that are already normal parse back to themselves, with "1" for an empty page. */
  lemma ParseNormalParams(p: CrudParams)
    requires NoEdgeSpace(p.q) && NoEdgeSpace(p.status) && NoEdgeSpace(p.sort) && NoEdgeSpace(p.page)
    requires NoEdgeSpace(p.dateFrom) && NoEdgeSpace(p.dateTo) && p.dir in {"asc", "desc"}
    ensures ParseParams(ParamsMap(p)) == p.(page := if p.page == "" then "1" else p.page)
  {
    ReparseTexts(p);
    ReparseDirPage(p);
  }

  /**
   * Parsing the parameters of a parsed request gives them back, except that
   * a whitespace-only page, parsed as "", now comes back as "1".
   */
  lemma ParseParamsRoundTrip(get: map<string, string>)
    ensures var p := ParseParams(get);
            ParseParams(ParamsMap(p)) == p.(page := if p.page == "" then "1" else p.page)
  {
    ParsedFieldsStripped(get);
    ParseNormalParams(ParseParams(get));
  }

  // ---------------------------------------------------------------------
  // State query strings

  /** The pairs kept in a state query string: no "" or "all" value, and no page when `dropPage`. */
  function StatePairs(ps: Pairs, dropPage: bool): Pairs
  {
    if ps == [] then []
    else
      var rest := StatePairs(ps[1..], dropPage);
      if (dropPage && ps[0].0 == "page") || ps[0].1 == "" || ps[0].1 == "all" then rest
      else [ps[0]] + rest
  }

  /**
   * A state string keeps exactly the pairs whose value is neither "" nor
   * "all" (and whose key is not "page" when the page is dropped), in their
   * original order.
   */
  lemma {:induction false} StatePairsExact(ps: Pairs, dropPage: bool)
    ensures forall pr :: pr in StatePairs(ps, dropPage) <==>
              (pr in ps && !(dropPage && pr.0 == "page") && pr.1 != "" && pr.1 != "all")
    ensures SubsequenceOf(StatePairs(ps, dropPage), ps)
  {
    if ps != [] {
      StatePairsExact(ps[1..], dropPage);
      assert ps == [ps[0]] + ps[1..];
      var rest := StatePairs(ps[1..], dropPage);
      if !((dropPage && ps[0].0 == "page") || ps[0].1 == "" || ps[0].1 == "all") {
        assert ([ps[0]] + rest)[1..] == rest;
      } else {
        SubsequenceSkip(rest, ps);
      }
    }
  }

  /** `build_qs_without_page(params)` as the pairs handed to `urlencode`. */
  function BuildQsWithoutPage(p: CrudParams): Pairs
  {
    StatePairs(AsDict(p), true)
  }

  /** The state `build_items` appends to row URLs: the same, but keeping the page. */
  function StateWithPage(p: CrudParams): Pairs
  {
    StatePairs(AsDict(p), false)
  }

  /** The list state never carries the page, an empty value or "all". */
  lemma QsWithoutPageClean(p: CrudParams)
    ensures forall pr :: pr in BuildQsWithoutPage(p) ==> pr.0 != "page" && pr.1 != "" && pr.1 != "all"
    ensures forall pr :: pr in AsDict(p) && pr.0 != "page" && pr.1 != "" && pr.1 != "all"
              ==> pr in BuildQsWithoutPage(p)
    ensures SubsequenceOf(BuildQsWithoutPage(p), AsDict(p))
  {
    StatePairsExact(AsDict(p), true);
  }

  // ---------------------------------------------------------------------
  // The configuration

  /** The URLs `row_urls` returns for one object: `None` or a path. */
  datatype RowUrls = RowUrls(detail: Option<string>, edit: Option<string>, delete: Option<string>)

  /** The base `row_urls`: no detail, "#" for edit and delete. */
  function DefaultRowUrls(r: Row): RowUrls
  {
    RowUrls(None, Some("#"), Some("#"))
  }

  datatype CrudConfig = CrudConfig(
    crudSlug: string,
    pageTitle: Option<string>,
    entityLabel: Option<string>,
    entityLabelPlural: Option<string>,
    listColumns: seq<ColumnDef>,
    filters: seq<FilterDef>,
    searchFields: seq<string>,
    defaultSortKey: string,
    defaultDir: string,
    pageSize: nat,
    statusOptions: Option<seq<(string, string)>>,
    createTitle: Option<string>,
    editTitle: Option<string>,
    deleteTitle: Option<string>,
    createSubmitLabel: Option<string>,
    editSubmitLabel: Option<string>,
    deleteConfirmLabel: Option<string>,
    permissionList: Option<string>,
    permissionCreate: Option<string>,
    permissionEdit: Option<string>,
    permissionDelete: Option<string>,
    exportEnabled: bool,
    exportFields: Option<seq<string>>,
    exportHeaders: Option<map<string, string>>,
    exportFormats: Option<seq<string>>,
    rowUrls: Row -> RowUrls)

  // ---------------------------------------------------------------------
  // Export declarations

  /** `exports_declared()` */
  predicate ExportsDeclared(c: CrudConfig)
  {
    c.exportFields.Some? && c.exportFields.value != []
  }

  /** `is_export_enabled()` */
  predicate IsExportEnabled(c: CrudConfig)
  {
    c.exportEnabled
  }

  /** `get_export_fields()`: `None` unless fields are declared. */
  function GetExportFields(c: CrudConfig): Option<seq<string>>
  {
    if ExportsDeclared(c) then c.exportFields else None
  }

  function HeaderFor(mapping: map<string, string>, f: string): string
  {
    if f in mapping then mapping[f] else f
  }

  function Headers(mapping: map<string, string>, fields: seq<string>): seq<string>
  {
    if fields == [] then [] else [HeaderFor(mapping, fields[0])] + Headers(mapping, fields[1..])
  }

  /** `get_export_headers()` */
  function GetExportHeaders(c: CrudConfig): Option<seq<string>>
  {
    match GetExportFields(c)
    case None => None
    case Some(fields) => Some(Headers(c.exportHeaders.GetOr(map[]), fields))
  }

  lemma {:induction false} HeadersShape(mapping: map<string, string>, fields: seq<string>)
    ensures |Headers(mapping, fields)| == |fields|
    ensures forall i :: 0 <= i < |fields| ==>
              Headers(mapping, fields)[i] == (if fields[i] in mapping then mapping[fields[i]] else fields[i])
  {
    if fields != [] {
      HeadersShape(mapping, fields[1..]);
    }
  }

  /**
   * Headers exist exactly when fields do; then there is one header per field,
   * the declared label or else the field name itself.
   */
  lemma ExportHeadersMatchFields(c: CrudConfig)
    ensures GetExportHeaders(c).Some? <==> GetExportFields(c).Some?
    ensures GetExportFields(c).Some? ==>
              var fs := GetExportFields(c).value;
              var hs := GetExportHeaders(c).value;
              |hs| == |fs| &&
              forall i :: 0 <= i < |fs| ==>
                hs[i] == (if c.exportHeaders.Some? && fs[i] in c.exportHeaders.value
                          then c.exportHeaders.value[fs[i]] else fs[i])
  {
    if GetExportFields(c).Some? {
      HeadersShape(c.exportHeaders.GetOr(map[]), GetExportFields(c).value);
    }
  }

  const AllFormats: set<string> := {"csv", "xlsx", "pdf"}

  /** `get_export_formats()`: all three when none are declared. */
  function GetExportFormats(c: CrudConfig): set<string>
  {
    if c.exportFormats.None? || c.exportFormats.value == [] then AllFormats
    else set x | x in c.exportFormats.value && Strip(x) != "" :: Lower(Strip(x))
  }

  /** `allows_format(fmt)` */
  predicate AllowsFormat(c: CrudConfig, fmt: Option<string>)
  {
    var f := Lower(Strip(fmt.GetOr("")));
    f != "" && f in GetExportFormats(c)
  }

  /** An empty or missing format declaration allows csv, xlsx and pdf, and nothing else. */
  lemma UndeclaredFormatsAllowAll(c: CrudConfig, fmt: string)
    requires c.exportFormats.None? || c.exportFormats.value == []
    ensures AllowsFormat(c, Some(fmt)) <==> Lower(Strip(fmt)) in AllFormats
  {
  }

  /**
   * A declared format is allowed iff some declared entry normalises to the
   * same non-blank name.
   */
  lemma DeclaredFormatsAllow(c: CrudConfig, fmt: string)
    requires c.exportFormats.Some? && c.exportFormats.value != []
    ensures AllowsFormat(c, Some(fmt)) <==>
              Lower(Strip(fmt)) != "" &&
              exists x :: x in c.exportFormats.value && Strip(x) != "" && Lower(Strip(x)) == Lower(Strip(fmt))
  {
  }

  /** A missing or blank format is never allowed. */
  lemma BlankFormatRefused(c: CrudConfig, fmt: Option<string>)
    requires fmt.None? || forall k :: 0 <= k < |fmt.value| ==> IsSpace(fmt.value[k])
    ensures !AllowsFormat(c, fmt)
  {
    if fmt.Some? {
      StripEmptyIff(fmt.value);
    }
  }

  // ---------------------------------------------------------------------
  // Search

  /** Some search field of the row contains `q`, ignoring case (the OR of the `Q` objects). */
  predicate MatchesAny(r: Row, q: string, fields: seq<string>)
  {
    fields != [] && (MatchesAny(r, q, fields[..|fields| - 1]) || ValueIContains(Field(r, fields[|fields| - 1]), q))
  }

  lemma {:induction false} MatchesAnyIff(r: Row, q: string, fields: seq<string>)
    ensures MatchesAny(r, q, fields) <==> exists f :: f in fields && ValueIContains(Field(r, f), q)
  {
    if fields != [] {
      var init := fields[..|fields| - 1];
      MatchesAnyIff(r, q, init);
      assert fields == init + [fields[|fields| - 1]];
    }
  }

  /** The rows `apply_search` keeps. */
  function Searched(qs: seq<Row>, q: string, fields: seq<string>): seq<Row>
  {
    if q == "" || fields == [] then qs else Where(qs, r => MatchesAny(r, q, fields))
  }

  /**
   * Search keeps every row when `q` is empty or nothing is searchable;
   * otherwise it keeps, in order, the rows where some search field contains
   * `q` case-insensitively.
   */
  lemma SearchedRows(qs: seq<Row>, q: string, fields: seq<string>)
    ensures q == "" || fields == [] ==> Searched(qs, q, fields) == qs
    ensures forall r :: r in Searched(qs, q, fields) <==>
              r in qs && (q == "" || fields == [] || exists f :: f in fields && ValueIContains(Field(r, f), q))
    ensures SubsequenceOf(Searched(qs, q, fields), qs)
  {
    if q != "" && fields != [] {
      WhereMembers(qs, r => MatchesAny(r, q, fields));
      forall r ensures MatchesAny(r, q, fields) <==> exists f :: f in fields && ValueIContains(Field(r, f), q) {
        MatchesAnyIff(r, q, fields);
      }
    } else {
      SubsequenceOfSelf(qs);
    }
  }

  /** `apply_search`: ORs one `icontains` test per search field, then filters. */
  method ApplySearch(c: CrudConfig, qs: seq<Row>, p: CrudParams) returns (r: seq<Row>)
    ensures r == Searched(qs, p.q, c.searchFields)
  {
    if p.q == "" || c.searchFields == [] {
      return qs;
    }
    var query: Row -> bool := _ => false;
    for i := 0 to |c.searchFields|
      invariant forall row :: query(row) == MatchesAny(row, p.q, c.searchFields[..i])
    {
      var f := c.searchFields[i];
      var prev := query;
      query := row => prev(row) || ValueIContains(Field(row, f), p.q);
      assert c.searchFields[..i + 1][..i] == c.searchFields[..i];
    }
    assert c.searchFields[..|c.searchFields|] == c.searchFields;
    r := Where(qs, query);
    WhereExt(qs, query, row => MatchesAny(row, p.q, c.searchFields));
  }

  // ---------------------------------------------------------------------
  // Filters

  /** `data.get(name)` on an ordered dict. */
  function Lookup(ps: Pairs, name: string): Option<string>
  {
    if ps == [] then None else if ps[0].0 == name then Some(ps[0].1) else Lookup(ps[1..], name)
  }

  /** The value a filter receives, or `None` when it is skipped. */
  function FilterValue(f: FilterDef, data: Pairs): Option<string>
  {
    var raw := Strip(Lookup(data, f.name).GetOr(""));
    if raw == "" || raw == "all" then None else Some(raw)
  }

  function FilterStep(qs: seq<Row>, f: FilterDef, data: Pairs): seq<Row>
  {
    match FilterValue(f, data)
    case None => qs
    case Some(v) => ApplyTo(f, qs, v)
  }

  /** The filters applied in declared order (a left fold). */
  function Filtered(qs: seq<Row>, fs: seq<FilterDef>, data: Pairs): seq<Row>
  {
    if fs == [] then qs else FilterStep(Filtered(qs, fs[..|fs| - 1], data), fs[|fs| - 1], data)
  }

  /** `apply_filters` */
  method ApplyFilters(c: CrudConfig, qs: seq<Row>, p: CrudParams) returns (r: seq<Row>)
    ensures r == Filtered(qs, c.filters, AsDict(p))
  {
    var data := AsDict(p);
    r := qs;
    for i := 0 to |c.filters|
      invariant r == Filtered(qs, c.filters[..i], data)
    {
      var f := c.filters[i];
      var raw := Strip(Lookup(data, f.name).GetOr(""));
      if raw == "" || raw == "all" {
        // skipped
      } else {
        r := ApplyTo(f, r, raw);
      }
      assert c.filters[..i + 1][..i] == c.filters[..i];
    }
    assert c.filters[..|c.filters|] == c.filters;
  }

  /** The filters that receive a value. */
  function ActiveFilters(fs: seq<FilterDef>, data: Pairs): seq<FilterDef>
  {
    if fs == [] then []
    else
      var init := ActiveFilters(fs[..|fs| - 1], data);
      if FilterValue(fs[|fs| - 1], data).Some? then init + [fs[|fs| - 1]] else init
  }

  /**
   * Filtering is the same as running only the filters that receive a value:
   * a filter whose name is not a key of the dict, or whose value is blank or
   * "all", has no effect.
   */
  lemma {:induction false} OnlyActiveFiltersApply(qs: seq<Row>, fs: seq<FilterDef>, data: Pairs)
    ensures Filtered(qs, fs, data) == Filtered(qs, ActiveFilters(fs, data), data)
    ensures forall f :: f in ActiveFilters(fs, data) ==> f in fs && Lookup(data, f.name).Some?
  {
    if fs != [] {
      var init := fs[..|fs| - 1];
      var last := fs[|fs| - 1];
      OnlyActiveFiltersApply(qs, init, data);
      var a := ActiveFilters(init, data);
      if FilterValue(last, data).Some? {
        assert (a + [last])[..|a + [last]| - 1] == a;
      }
    }
  }

  /** A lookup finds a value exactly when the key occurs, and then that pair occurs. */
  lemma {:induction false} LookupFinds(ps: Pairs, name: string)
    ensures Lookup(ps, name).None? <==> forall pr :: pr in ps ==> pr.0 != name
    ensures Lookup(ps, name).Some? ==> (name, Lookup(ps, name).value) in ps
  {
    if ps != [] {
      LookupFinds(ps[1..], name);
      assert ps == [ps[0]] + ps[1..];
    }
  }

  /** A filter whose name is not a request parameter never applies. */
  lemma UnknownFilterSkipped(f: FilterDef, p: CrudParams)
    requires f.name !in ParamKeys
    ensures FilterValue(f, AsDict(p)).None?
  {
    LookupFinds(AsDict(p), f.name);
  }

  // ---------------------------------------------------------------------
  // Ordering

  function FindColumn(cols: seq<ColumnDef>, key: string): Option<ColumnDef>
  {
    if cols == [] then None else if cols[0].key == key then Some(cols[0]) else FindColumn(cols[1..], key)
  }

  /** The column found is the first one with the key; none is found when no column has it. */
  lemma {:induction false} FindColumnFirst(cols: seq<ColumnDef>, key: string, i: nat)
    requires i <= |cols| && forall j :: 0 <= j < i ==> cols[j].key != key
    ensures i < |cols| && cols[i].key == key ==> FindColumn(cols, key) == Some(cols[i])
    ensures i == |cols| ==> FindColumn(cols, key).None?
  {
    if i > 0 {
      FindColumnFirst(cols[1..], key, i - 1);
    }
  }

  function SortKey(c: CrudConfig, p: CrudParams): string
  {
    if p.sort != "" then p.sort else c.defaultSortKey
  }

  function Direction(c: CrudConfig, p: CrudParams): string
  {
    if p.dir != "" then p.dir else c.defaultDir
  }

  /** The `order_by` of the column named by the sort key, when it may be used. */
  function SortSpec(c: CrudConfig, p: CrudParams): OrderSpec
  {
    match FindColumn(c.listColumns, SortKey(c, p))
    case None => NoOrder
    case Some(col) => if col.sortable then col.orderBy else NoOrder
  }

  function Keys(fields: seq<string>, desc: bool): (keys: seq<OrderKey>)
    ensures |keys| == |fields|
    ensures forall i :: 0 <= i < |fields| ==> keys[i] == OrderKey(fields[i], desc)
  {
    if fields == [] then [] else [OrderKey(fields[0], desc)] + Keys(fields[1..], desc)
  }

  /** `apply_ordering(qs, params)` as its `order_by` key list. */
  function ApplyOrdering(c: CrudConfig, p: CrudParams): seq<OrderKey>
  {
    var desc := Direction(c, p) == "desc";
    var spec := SortSpec(c, p);
    if !Declared(spec) then [OrderKey("pk", desc)]
    else Keys(OrderFields(spec) + ["pk"], desc)
  }

  /**
   * The key list always ends in pk, and every key has the request's
   * direction.  Without a usable column order it is pk alone; otherwise the
   * column's fields followed by pk.
   */
  lemma OrderingShape(c: CrudConfig, p: CrudParams)
    ensures EndsWithPk(ApplyOrdering(c, p))
    ensures forall k :: k in ApplyOrdering(c, p) ==> k.descending == (Direction(c, p) == "desc")
    ensures !Declared(SortSpec(c, p)) ==> ApplyOrdering(c, p) == [OrderKey("pk", Direction(c, p) == "desc")]
    ensures Declared(SortSpec(c, p)) ==>
              |ApplyOrdering(c, p)| == |OrderFields(SortSpec(c, p))| + 1 &&
              forall i :: 0 <= i < |OrderFields(SortSpec(c, p))| ==>
                ApplyOrdering(c, p)[i].field == OrderFields(SortSpec(c, p))[i]
  {
    var keys := ApplyOrdering(c, p);
    if Declared(SortSpec(c, p)) {
      var fs := OrderFields(SortSpec(c, p)) + ["pk"];
      assert keys[|keys| - 1] == OrderKey(fs[|fs| - 1], Direction(c, p) == "desc");
    }
  }

  /**
   * `default_dir` never takes effect on parsed parameters: a parsed `dir`
   * is never empty, so any two default directions give the same order.
   */
  lemma DefaultDirIgnored(c: CrudConfig, get: map<string, string>, d: string)
    ensures ApplyOrdering(c.(defaultDir := d), ParseParams(get)) == ApplyOrdering(c, ParseParams(get))
  {
    ParsedDirIsAscOrDesc(get);
  }

  /** The rows `queryset_for_list` returns: search, then filters, then the order. */
  function ListRows(c: CrudConfig, base: seq<Row>, p: CrudParams): seq<Row>
  {
    OrderBy(Filtered(Searched(base, p.q, c.searchFields), c.filters, AsDict(p)), ApplyOrdering(c, p))
  }

  /** `queryset_for_list` */
  method QuerysetForList(c: CrudConfig, base: seq<Row>, p: CrudParams) returns (qs: seq<Row>)
    ensures qs == ListRows(c, base, p)
    ensures multiset(qs) == multiset(Filtered(Searched(base, p.q, c.searchFields), c.filters, AsDict(p)))
    ensures Sorted(qs, ApplyOrdering(c, p))
  {
    qs := base;
    qs := ApplySearch(c, qs, p);
    qs := ApplyFilters(c, qs, p);
    OrderBySorted(qs, ApplyOrdering(c, p));
    qs := OrderBy(qs, ApplyOrdering(c, p));
  }

  /**
   * The listing is deterministic: when the filtered rows have distinct pks,
   * any sorted arrangement of them the database may return is `ListRows`.
   */
  lemma ListOrderDeterministic(c: CrudConfig, base: seq<Row>, p: CrudParams, answer: seq<Row>)
    requires UniquePks(Filtered(Searched(base, p.q, c.searchFields), c.filters, AsDict(p)))
    requires multiset(answer) == multiset(Filtered(Searched(base, p.q, c.searchFields), c.filters, AsDict(p)))
    requires Sorted(answer, ApplyOrdering(c, p))
    ensures answer == ListRows(c, base, p)
  {
    OrderingShape(c, p);
    OrderByIsTheOrder(Filtered(Searched(base, p.q, c.searchFields), c.filters, AsDict(p)), answer, ApplyOrdering(c, p));
  }

  // ---------------------------------------------------------------------
  // Table rows

  function ColumnsForTemplate(cols: seq<ColumnDef>): (ts: seq<ColumnTemplate>)
    ensures |ts| == |cols|
    ensures forall i :: 0 <= i < |cols| ==> ts[i] == ToTemplate(cols[i])
  {
    if cols == [] then [] else [ToTemplate(cols[0])] + ColumnsForTemplate(cols[1..])
  }

  /** The cell a column shows: its `value` function, else the attribute named by its key, else "". */
  function CellValue(col: ColumnDef, r: Row): Value
  {
    match col.value
    case Some(f) => f(r)
    case None => Attr(r, col.key, VStr(""))
  }

  /** `row_cells(obj)` */
  method RowCells(c: CrudConfig, r: Row) returns (cells: seq<Value>)
    ensures |cells| == |c.listColumns|
    ensures forall i :: 0 <= i < |cells| ==> cells[i] == CellValue(c.listColumns[i], r)
  {
    cells := [];
    for i := 0 to |c.listColumns|
      invariant |cells| == i
      invariant forall k :: 0 <= k < i ==> cells[k] == CellValue(c.listColumns[k], r)
    {
      var col := c.listColumns[i];
      if col.value.Some? {
        cells := cells + [col.value.value(r)];
      } else {
        cells := cells + [Attr(r, col.key, VStr(""))];
      }
    }
  }

  datatype RichCell = RichCell(value: Value, col: ColumnTemplate)

  datatype ItemRow = ItemRow(id: nat, cells: seq<RichCell>, urls: RowUrls)

  /** Whether `build_items` appends the state to this URL. */
  predicate TakesState(url: Option<string>)
  {
    url.Some? && url.value != "" && url.value != "#" && '?' !in url.value
  }

  function WithState(url: Option<string>, qs: string): Option<string>
  {
    if qs != "" && TakesState(url) then Some(url.value + "?" + qs) else url
  }

  function StateUrls(u: RowUrls, qs: string): RowUrls
  {
    RowUrls(WithState(u.detail, qs), WithState(u.edit, qs), WithState(u.delete, qs))
  }

  function RichCells(cols: seq<ColumnDef>, r: Row): (cells: seq<RichCell>)
    ensures |cells| == |cols|
  {
    if cols == [] then [] else [RichCell(CellValue(cols[0], r), ToTemplate(cols[0]))] + RichCells(cols[1..], r)
  }

  /** The row dict `build_items` builds for one object, given the encoded state. */
  function ItemFor(c: CrudConfig, r: Row, qs: string): ItemRow
  {
    ItemRow(r.pk, RichCells(c.listColumns, r), StateUrls(c.rowUrls(r), qs))
  }

  lemma {:induction false} RichCellsAt(cols: seq<ColumnDef>, r: Row, i: nat)
    requires i < |cols|
    ensures RichCells(cols, r)[i] == RichCell(CellValue(cols[i], r), ToTemplate(cols[i]))
  {
    if i > 0 {
      RichCellsAt(cols[1..], r, i - 1);
    }
  }

  /** `build_items(page_obj, request, params)` */
  method BuildItems(c: CrudConfig, page: seq<Row>, p: CrudParams) returns (rows: seq<ItemRow>)
    ensures |rows| == |page|
    ensures forall i :: 0 <= i < |page| ==> rows[i] == ItemFor(c, page[i], Urlencode(StateWithPage(p)))
  {
    var qsWithPage := Urlencode(StateWithPage(p));
    rows := [];
    for n := 0 to |page|
      invariant |rows| == n
      invariant forall i :: 0 <= i < n ==> rows[i] == ItemFor(c, page[i], qsWithPage)
    {
      var obj := page[n];
      var urls := c.rowUrls(obj);
      if qsWithPage != "" {
        if TakesState(urls.edit) { urls := urls.(edit := Some(urls.edit.value + "?" + qsWithPage)); }
        if TakesState(urls.delete) { urls := urls.(delete := Some(urls.delete.value + "?" + qsWithPage)); }
        if TakesState(urls.detail) { urls := urls.(detail := Some(urls.detail.value + "?" + qsWithPage)); }
      }
      var raw := RowCells(c, obj);
      var rich: seq<RichCell> := [];
      for i := 0 to |raw|
        invariant |rich| == i
        invariant forall k :: 0 <= k < i ==> rich[k] == RichCell(raw[k], ToTemplate(c.listColumns[k]))
      {
        rich := rich + [RichCell(raw[i], ToTemplate(c.listColumns[i]))];
      }
      forall k | 0 <= k < |rich| ensures rich[k] == RichCells(c.listColumns, obj)[k] {
        RichCellsAt(c.listColumns, obj, k);
      }
      rows := rows + [ItemRow(obj.pk, rich, urls)];
    }
  }

  /**
   * Each item has one cell per list column, showing that column's value with
   * its template, and a URL receives "?" + state exactly when the state is
   * non-empty and the URL is a real path without a query.
   */
  lemma ItemShape(c: CrudConfig, r: Row, qs: string)
    ensures var it := ItemFor(c, r, qs);
            it.id == r.pk && |it.cells| == |c.listColumns| &&
            (forall i :: 0 <= i < |c.listColumns| ==>
               it.cells[i] == RichCell(CellValue(c.listColumns[i], r), ToTemplate(c.listColumns[i]))) &&
            (it.urls.edit != c.rowUrls(r).edit <==> (qs != "" && TakesState(c.rowUrls(r).edit))) &&
            (it.urls.delete != c.rowUrls(r).delete <==> (qs != "" && TakesState(c.rowUrls(r).delete))) &&
            (it.urls.detail != c.rowUrls(r).detail <==> (qs != "" && TakesState(c.rowUrls(r).detail)))
  {
    forall i | 0 <= i < |c.listColumns| {
      RichCellsAt(c.listColumns, r, i);
    }
    var u := c.rowUrls(r);
    if qs != "" && TakesState(u.edit) { assert |WithState(u.edit, qs).value| > |u.edit.value|; }
    if qs != "" && TakesState(u.delete) { assert |WithState(u.delete, qs).value| > |u.delete.value|; }
    if qs != "" && TakesState(u.detail) { assert |WithState(u.detail, qs).value| > |u.detail.value|; }
  }

  // ---------------------------------------------------------------------
  // Modal titles and labels

  const PkField := "{pk}"

  /** `template.format(pk=pk)` for templates whose only field is `{pk}`. */
  function FormatPk(t: string, pk: string): string
  {
    if t == [] then []
    else if IsPrefix(PkField, t) then pk + FormatPk(t[|PkField|..], pk)
    else [t[0]] + FormatPk(t[1..], pk)
  }

  /** Some text of the Option, when it is a non-empty string. */
  predicate Given(o: Option<string>)
  {
    o.Some? && o.value != ""
  }

  function CreateModalTitle(c: CrudConfig): string
  {
    if Given(c.createTitle) then c.createTitle.value
    else if Given(c.entityLabel) then "Nuevo " + c.entityLabel.value
    else "Nuevo"
  }

  function EditModalTitle(c: CrudConfig, pk: nat): string
  {
    if Given(c.editTitle) then FormatPk(c.editTitle.value, NatToString(pk))
    else Strip("Editar " + c.entityLabel.GetOr("") + " #" + NatToString(pk))
  }

  function DeleteModalTitle(c: CrudConfig, pk: nat): string
  {
    if Given(c.deleteTitle) then FormatPk(c.deleteTitle.value, NatToString(pk))
    else Strip("Eliminar " + c.entityLabel.GetOr("") + " #" + NatToString(pk))
  }

  function CreateSubmitLabel(c: CrudConfig): string
  {
    if Given(c.createSubmitLabel) then c.createSubmitLabel.value else "Crear"
  }

  function EditSubmitLabel(c: CrudConfig): string
  {
    if Given(c.editSubmitLabel) then c.editSubmitLabel.value else "Guardar"
  }

  function DeleteConfirmLabel(c: CrudConfig): string
  {
    if Given(c.deleteConfirmLabel) then c.deleteConfirmLabel.value else "Eliminar"
  }

  lemma {:induction false} FormatPkNonEmpty(t: string, pk: string)
    requires t != [] && pk != []
    ensures FormatPk(t, pk) != []
  {
  }

  lemma NotAllSpace(s: string, k: nat)
    requires k < |s| && !IsSpace(s[k])
    ensures Strip(s) != ""
  {
    StripEmptyIff(s);
  }

  /** Every modal title and button label is non-empty, whatever is declared. */
  lemma TitlesNeverEmpty(c: CrudConfig, pk: nat)
    ensures CreateModalTitle(c) != "" && EditModalTitle(c, pk) != "" && DeleteModalTitle(c, pk) != ""
    ensures CreateSubmitLabel(c) != "" && EditSubmitLabel(c) != "" && DeleteConfirmLabel(c) != ""
  {
    if Given(c.editTitle) {
      FormatPkNonEmpty(c.editTitle.value, NatToString(pk));
    } else {
      NotAllSpace("Editar " + c.entityLabel.GetOr("") + " #" + NatToString(pk), 0);
    }
    if Given(c.deleteTitle) {
      FormatPkNonEmpty(c.deleteTitle.value, NatToString(pk));
    } else {
      NotAllSpace("Eliminar " + c.entityLabel.GetOr("") + " #" + NatToString(pk), 0);
    }
  }

  // ---------------------------------------------------------------------
  // Permissions

  function CanList(c: CrudConfig, user: Actor, orgRoles: Option<set<string>>): bool
  {
    CrudPermissions.IsAllowed(c.permissionList, user, orgRoles)
  }

  function CanCreate(c: CrudConfig, user: Actor, orgRoles: Option<set<string>>): bool
  {
    CrudPermissions.IsAllowed(c.permissionCreate, user, orgRoles)
  }

  function CanEdit(c: CrudConfig, user: Actor, orgRoles: Option<set<string>>): bool
  {
    CrudPermissions.IsAllowed(c.permissionEdit, user, orgRoles)
  }

  function CanDelete(c: CrudConfig, user: Actor, orgRoles: Option<set<string>>): bool
  {
    CrudPermissions.IsAllowed(c.permissionDelete, user, orgRoles)
  }

  /** `can_export` is `can_list`. */
  function CanExport(c: CrudConfig, user: Actor, orgRoles: Option<set<string>>): bool
  {
    CanList(c, user, orgRoles)
  }

  // ---------------------------------------------------------------------
  // Pagination

  datatype Page = Page(number: nat, numPages: nat, objects: seq<Row>)

  /** `Paginator(qs, per_page).num_pages`, with an empty first page allowed. */
  function NumPages(count: nat, perPage: nat): nat
    requires perPage > 0
  {
    if count == 0 then 1 else (count + perPage - 1) / perPage
  }

  /** The page `get_page(params.page or 1)` settles on. */
  function PageNumber(raw: string, numPages: nat): nat
  {
    var n := if raw == "" then Some(1) else ParseInt(raw);
    if n.None? then 1
    else if n.value < 1 || n.value > numPages then numPages
    else n.value
  }

  function Min(a: int, b: int): int
  {
    if a < b then a else b
  }

  lemma PageStartInRange(count: nat, perPage: nat, number: nat)
    requires perPage > 0 && 1 <= number <= NumPages(count, perPage)
    ensures (number - 1) * perPage <= count
    ensures count > 0 ==> (number - 1) * perPage < count
  {
    if count > 0 {
      var np := NumPages(count, perPage);
      assert np * perPage <= count + perPage - 1;
      assert (number - 1) * perPage <= (np - 1) * perPage;
    }
  }

  /** `paginate(qs, params)` */
  function Paginate(qs: seq<Row>, perPage: nat, raw: string): (pg: Page)
    requires perPage > 0
    ensures 1 <= pg.number <= pg.numPages
    ensures |pg.objects| <= perPage
    ensures |qs| > 0 ==> |pg.objects| > 0
  {
    var np := NumPages(|qs|, perPage);
    var n := PageNumber(raw, np);
    assert 1 <= n <= np by {
      assert np >= 1;
    }
    PageStartInRange(|qs|, perPage, n);
    var start := (n - 1) * perPage;
    Page(n, np, qs[start..Min(start + perPage, |qs|)])
  }

  /** A page is the contiguous run of rows starting at `(number - 1) * perPage`. */
  lemma PageSlice(qs: seq<Row>, perPage: nat, raw: string) returns (start: nat)
    requires perPage > 0
    ensures start == (Paginate(qs, perPage, raw).number - 1) * perPage
    ensures start <= |qs| && Paginate(qs, perPage, raw).objects == qs[start..Min(start + perPage, |qs|)]
    ensures forall r :: r in Paginate(qs, perPage, raw).objects ==> r in qs
  {
    var pg := Paginate(qs, perPage, raw);
    var n := PageNumber(raw, NumPages(|qs|, perPage));
    assert pg.number == n;
    start := (n - 1) * perPage;
    PageStartInRange(|qs|, perPage, n);
    var end := Min(start + perPage, |qs|);
    assert pg.objects == qs[start..end];
    forall r | r in qs[start..end] ensures r in qs {
      var k :| start <= k < end && qs[k] == r;
    }
  }

  /** A page number that is not an integer selects the first page; one out of range the last. */
  lemma PageNumberFallbacks(raw: string, numPages: nat)
    requires numPages >= 1
    ensures raw != "" && ParseInt(raw).None? ==> PageNumber(raw, numPages) == 1
    ensures ParseInt(raw).Some? && (ParseInt(raw).value < 1 || ParseInt(raw).value > numPages)
            ==> PageNumber(raw, numPages) == numPages
  {
  }
}
