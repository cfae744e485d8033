/**
 * Column and filter declarations of the CRUD kit (`ColumnDef`, `FilterDef`).
 * Both are frozen dataclasses, modelled as datatypes: no field changes after
 * construction.
 */
module CrudDefs {
  import opened Wrappers
  import opened Rows

  /** `order_by: str | tuple[str, ...] | None` */
  datatype OrderSpec = NoOrder | OneField(name: string) | Fields(names: seq<string>)

  /** Python truthiness of an `order_by` value. */
  predicate Declared(o: OrderSpec)
  {
    match o
    case NoOrder => false
    case OneField(f) => f != ""
    case Fields(fs) => fs != []
  }

  /** The fields a declared `order_by` names, in order. */
  function OrderFields(o: OrderSpec): seq<string>
  {
    match o
    case NoOrder => []
    case OneField(f) => [f]
    case Fields(fs) => fs
  }

  /** A column's `extra`: for a badge, the `colors` and `labels` maps. */
  type Extra = map<string, map<string, string>>

  /** `ColumnDef`; `heading` is the Python field `label` and `kind` the field `type`. */
  datatype ColumnDef = ColumnDef(
    key: string,
    heading: string,
    kind: string,
    extra: Extra,
    sortable: bool,
    nowrap: bool,
    orderBy: OrderSpec,
    value: Option<Row -> Value>)

  /** `ColumnDef(key=..., label=...)` with every other field at its default. */
  function Column(key: string, heading: string): ColumnDef
  {
    ColumnDef(key, heading, "text", map[], true, false, NoOrder, None)
  }

  /** The dict `to_template_dict` returns. */
  datatype ColumnTemplate = ColumnTemplate(
    key: string,
    heading: string,
    kind: string,
    extra: Extra,
    sortable: bool,
    nowrap: bool)

  function ToTemplate(c: ColumnDef): ColumnTemplate
  {
    ColumnTemplate(c.key, c.heading, c.kind, c.extra, c.sortable, c.nowrap)
  }

  /**
   * The template dict carries exactly the six display fields: two columns
   * have the same template iff they agree on those, whatever their
   * `order_by` and `value`.
   */
  lemma TemplateIsDisplayFields(c: ColumnDef, d: ColumnDef)
    ensures ToTemplate(c) == ToTemplate(d) <==>
            (c.key == d.key && c.heading == d.heading && c.kind == d.kind && c.extra == d.extra
             && c.sortable == d.sortable && c.nowrap == d.nowrap)
  {
  }

  /** A column declared with only a key and a label renders as a sortable, wrapping text column. */
  lemma DefaultColumnTemplate(key: string, heading: string)
    ensures ToTemplate(Column(key, heading)) == ColumnTemplate(key, heading, "text", map[], true, false)
    ensures !Declared(Column(key, heading).orderBy) && Column(key, heading).value.None?
  {
  }

  /**
   * `FilterDef`; `apply(qs, value)` is the filter function.  The request
   * argument is not passed because no filter of the application reads it.
   */
  datatype FilterDef = FilterDef(name: string, apply: (seq<Row>, string) -> seq<Row>)

  /** `FilterDef.apply_to` */
  function ApplyTo(f: FilterDef, qs: seq<Row>, value: string): seq<Row>
  {
    f.apply(qs, value)
  }
}
