/**
 * What the application's forms have in common: the value a
 * `clean_<field>` method starts from, the required-text and
 * case-insensitive uniqueness checks they repeat, Django's
 * `Form.add_error`, and the user instance a form saves.
 */
module Forms {
  import opened Wrappers
  import opened Text

  /** `(self.cleaned_data.get(name) or "").strip()`: a missing value reads as empty. */
  function Stripped(raw: Option<string>): (s: string)
    ensures NoEdgeSpace(s) && Strip(s) == s
    ensures |s| <= |raw.GetOr("")|
    ensures s == "" <==> forall k :: 0 <= k < |raw.GetOr("")| ==> IsSpace(raw.GetOr("")[k])
  {
    StripNoEdgeSpace(raw.GetOr(""));
    StripIdempotent(raw.GetOr(""));
    StripEmptyIff(raw.GetOr(""));
    Strip(raw.GetOr(""))
  }

  /** `(self.cleaned_data.get(name) or "").strip().lower()` */
  function Normalised(raw: Option<string>): (s: string)
    ensures Lower(s) == s
    ensures s == "" <==> Stripped(raw) == ""
  {
    LowerIdempotent(Strip(raw.GetOr("")));
    Lower(Stripped(raw))
  }

  /** A normalised value normalises to itself. */
  lemma NormalisedIdempotent(raw: Option<string>)
    ensures Normalised(Some(Normalised(raw))) == Normalised(raw)
  {
    NormaliseIdempotent(raw.GetOr(""));
  }

  /**
   * `Model.objects.filter(<field>__iexact=v)`, with the row `exclude` left
   * out, finds a row: `values` maps each row's key to the field's value.
   */
  predicate TakenBy(values: map<nat, string>, v: string, exclude: Option<nat>)
  {
    exists pk :: pk in values && Some(pk) != exclude && Lower(values[pk]) == Lower(v)
  }

  /**
   * The uniqueness check the `clean_username` and `clean_email` methods
   * share: an empty value is refused with `required`, a value another row
   * already holds in any letter case with `taken`, and anything else is
   * kept as it is.
   */
  function Unique(v: string, values: map<nat, string>, exclude: Option<nat>, required: string, taken: string)
    : (r: Result<string, string>)
    ensures r.Ok? <==> v != "" && forall pk :: pk in values && Some(pk) != exclude ==> Lower(values[pk]) != Lower(v)
    ensures r.Ok? ==> r.value == v
    ensures r.Err? && v == "" ==> r.error == required
    ensures r.Err? && v != "" ==> r.error == taken
  {
    if v == "" then Err(required)
    else if TakenBy(values, v, exclude) then Err(taken)
    else Ok(v)
  }

  /** A value and its lower-case form collide with the same rows. */
  lemma TakenByIgnoresCase(values: map<nat, string>, v: string, exclude: Option<nat>)
    ensures TakenBy(values, Lower(v), exclude) <==> TakenBy(values, v, exclude)
  {
    LowerIdempotent(v);
  }

  /** Leaving out row `pk` is the same as searching the rows without it. */
  lemma TakenByExcluding(values: map<nat, string>, v: string, pk: nat)
    ensures TakenBy(values, v, Some(pk)) <==> TakenBy(values - {pk}, v, None)
  {
    if TakenBy(values, v, Some(pk)) {
      var q :| q in values && Some(q) != Some(pk) && Lower(values[q]) == Lower(v);
      assert q in values - {pk};
    }
    if TakenBy(values - {pk}, v, None) {
      var q :| q in values - {pk} && Lower((values - {pk})[q]) == Lower(v);
      assert q in values && Some(q) != Some(pk);
    }
  }

  /**
   * The check of a field that must hold some text: the stripped value, or
   * `message` when nothing but white space was given.
   */
  function Required(raw: Option<string>, message: string): (r: Result<string, string>)
    ensures r.Ok? <==> exists k :: 0 <= k < |raw.GetOr("")| && !IsSpace(raw.GetOr("")[k])
    ensures r.Ok? ==> r.value == Stripped(raw) && r.value != "" && NoEdgeSpace(r.value)
    ensures r.Err? ==> r.error == message
  {
    var s := Stripped(raw);
    if s == "" then Err(message) else Ok(s)
  }

  /** Cleaning a value the check returned gives it back unchanged. */
  lemma RequiredIdempotent(raw: Option<string>, message: string)
    requires Required(raw, message).Ok?
    ensures Required(Some(Required(raw, message).value), message) == Required(raw, message)
  {
  }

  /** `if value:` on an optional string. */
  predicate Truthy(v: Option<string>)
  {
    v.Some? && v.value != ""
  }

  /** `cleaned_data.get(field)` */
  function Get(cleaned: map<string, string>, field: string): (v: Option<string>)
    ensures v.Some? <==> field in cleaned
  {
    if field in cleaned then Some(cleaned[field]) else None
  }

  /** The fields named by a list of (field, message) errors. */
  function FieldsOf(errors: seq<(string, string)>): (fs: set<string>)
    ensures forall e :: e in errors ==> e.0 in fs
    ensures forall f :: f in fs ==> exists e :: e in errors && e.0 == f
  {
    if errors == [] then {} else {errors[0].0} + FieldsOf(errors[1..])
  }

  /** A bound form's cleaned data and the errors filed under its fields, in the order they were added. */
  class BoundForm {
    var cleaned: map<string, string>
    var errors: seq<(string, string)>

    constructor (cleaned: map<string, string>)
      ensures this.cleaned == cleaned && errors == []
    {
      this.cleaned := cleaned;
      errors := [];
    }

    /** `add_error(field, message)`: the message is filed under the field, and the field leaves the cleaned data. */
    method AddError(field: string, message: string)
      modifies this
      ensures errors == old(errors) + [(field, message)]
      ensures cleaned == old(cleaned) - {field}
    {
      errors := errors + [(field, message)];
      if field in cleaned {
        cleaned := cleaned - {field};
      }
    }
  }

  /** The password an account holds: none usable, or the hash of the given text (the hash itself is not modelled). */
  datatype Password = Unusable | HashOf(raw: string)

  /** `user.set_password(raw)`: `None` makes the password unusable. */
  function SetPassword(raw: Option<string>): (p: Password)
    ensures p.HashOf? <==> raw.Some?
    ensures p.HashOf? ==> p.raw == raw.value
  {
    if raw.None? then Unusable else HashOf(raw.value)
  }

  /** A user instance that a form fills in and saves; `stored` tells whether it was written to the table. */
  class UserInstance {
    var username: string
    var email: string
    var firstName: string
    var lastName: string
    var isActive: bool
    var password: Password
    var stored: bool

    /** `construct_instance`: an unsaved user holding the form's cleaned fields, active by default. */
    constructor (username: string, email: string, firstName: string, lastName: string)
      ensures this.username == username && this.email == email
      ensures this.firstName == firstName && this.lastName == lastName
      ensures isActive && password == Unusable && !stored
    {
      this.username := username;
      this.email := email;
      this.firstName := firstName;
      this.lastName := lastName;
      isActive := true;
      password := Unusable;
      stored := false;
    }

    /** `user.save()` */
    method Save()
      modifies this
      ensures stored
      ensures username == old(username) && email == old(email) && firstName == old(firstName)
      ensures lastName == old(lastName) && isActive == old(isActive) && password == old(password)
    {
      stored := true;
    }
  }
}
