/** The example item form: it edits an item's name and status and nothing else. */
module ItemForms {
  import opened Wrappers
  import opened Text
  import opened Rows
  import opened Forms

  const NameRequired := "El nombre es obligatorio."

  /** The fields the form edits. */
  const ItemFormFields := ["name", "status"]

  /** `ItemForm.clean_name` */
  function CleanItemName(raw: Option<string>): Result<string, string>
  {
    Required(raw, NameRequired)
  }

  /**
   * A name is kept stripped; a missing or white-space-only one is refused,
   * and a cleaned name cleans to itself.
   */
  lemma CleanItemNameRules(raw: Option<string>)
    ensures CleanItemName(raw).Err? <==> forall k :: 0 <= k < |raw.GetOr("")| ==> IsSpace(raw.GetOr("")[k])
    ensures CleanItemName(raw).Err? ==> CleanItemName(raw).error == NameRequired
    ensures CleanItemName(raw).Ok? ==>
              CleanItemName(raw).value == Strip(raw.GetOr("")) &&
              CleanItemName(Some(CleanItemName(raw).value)) == CleanItemName(raw)
  {
  }

  /** Saving the form: the cleaned name and status are written over the item's row. */
  function ApplyItemForm(item: Row, name: string, status: string): (r: Row)
    ensures r.pk == item.pk
    ensures Field(r, "name") == VStr(name) && Field(r, "status") == VStr(status)
    ensures forall f :: f !in ItemFormFields ==> Field(r, f) == Field(item, f)
  {
    Row(item.pk, item.fields["name" := VStr(name)]["status" := VStr(status)])
  }
}
