/**
 * The explicit CRUD registry: `register_crud` and `get_crud` over the
 * module-level `_CRUDS` dict, keyed by slug.
 */
module CrudRegistry {
  import opened Wrappers
  import opened Text
  import opened CrudConfigs

  datatype RegistryError = ValueError(message: string) | KeyError(message: string)

  /** The outcome of `register_crud(c)` on the entries `cruds`: the new entries, or the exception. */
  function Registered(cruds: map<string, CrudConfig>, c: CrudConfig): Result<map<string, CrudConfig>, RegistryError>
  {
    var slug := Strip(c.crudSlug);
    if slug == "" then Err(ValueError("CrudConfig.crud_slug es obligatorio"))
    else if slug in cruds then Err(ValueError("CrudConfig ya registrado: " + slug))
    else Ok(cruds[slug := c])
  }

  /** The outcome of `get_crud(slug)`. */
  function Found(cruds: map<string, CrudConfig>, slug: string): Result<CrudConfig, RegistryError>
  {
    if slug in cruds then Ok(cruds[slug]) else Err(KeyError("CrudConfig no registrado: " + slug))
  }

  /**
   * A blank slug and an already registered slug raise ValueError; otherwise
   * the config is stored under the stripped slug and nothing else changes.
   */
  lemma RegisteredCases(cruds: map<string, CrudConfig>, c: CrudConfig)
    ensures Registered(cruds, c).Err? <==> Strip(c.crudSlug) == "" || Strip(c.crudSlug) in cruds
    ensures Registered(cruds, c).Err? ==> Registered(cruds, c).error.ValueError?
    ensures Registered(cruds, c).Ok? ==>
              var m := Registered(cruds, c).value;
              m.Keys == cruds.Keys + {Strip(c.crudSlug)} && m[Strip(c.crudSlug)] == c &&
              forall k :: k in cruds ==> m[k] == cruds[k]
  {
  }

  /** A config can be fetched back by its stripped slug right after it is registered. */
  lemma RegisterThenGet(cruds: map<string, CrudConfig>, c: CrudConfig)
    requires Registered(cruds, c).Ok?
    ensures Found(Registered(cruds, c).value, Strip(c.crudSlug)) == Ok(c)
    ensures forall k :: k in cruds ==> Found(Registered(cruds, c).value, k) == Found(cruds, k)
  {
  }

  /** A slug with surrounding whitespace is stored stripped, so `get_crud` of the raw slug raises KeyError. */
  lemma PaddedSlugNotFound(c: CrudConfig)
    requires Strip(c.crudSlug) != c.crudSlug && Strip(c.crudSlug) != ""
    ensures Registered(map[], c).Ok?
    ensures Found(Registered(map[], c).value, c.crudSlug).Err?
  {
  }

  /** Registering a second config under a slug that strips to the same text fails and keeps the first. */
  lemma SecondRegistrationRefused(cruds: map<string, CrudConfig>, c: CrudConfig, d: CrudConfig)
    requires Registered(cruds, c).Ok? && Strip(d.crudSlug) == Strip(c.crudSlug)
    ensures Registered(Registered(cruds, c).value, d).Err?
    ensures Found(Registered(cruds, c).value, Strip(c.crudSlug)) == Ok(c)
  {
  }

  /** `_CRUDS` and the two functions over it. */
  class Registry {
    var cruds: map<string, CrudConfig>

    constructor ()
      ensures cruds == map[]
    {
      cruds := map[];
    }

    /** `register_crud(config)` */
    method Register(c: CrudConfig) returns (r: Result<(), RegistryError>)
      modifies this
      ensures Registered(old(cruds), c).Ok? ==> r == Ok(()) && cruds == Registered(old(cruds), c).value
      ensures Registered(old(cruds), c).Err? ==> r == Err(Registered(old(cruds), c).error) && cruds == old(cruds)
    {
      var slug := Strip(c.crudSlug);
      if slug == "" {
        return Err(ValueError("CrudConfig.crud_slug es obligatorio"));
      }
      if slug in cruds {
        return Err(ValueError("CrudConfig ya registrado: " + slug));
      }
      cruds := cruds[slug := c];
      r := Ok(());
    }

    /** `get_crud(slug)` */
    method Get(slug: string) returns (r: Result<CrudConfig, RegistryError>)
      ensures r == Found(cruds, slug)
      ensures r.Ok? <==> slug in cruds
    {
      if slug in cruds {
        r := Ok(cruds[slug]);
      } else {
        r := Err(KeyError("CrudConfig no registrado: " + slug));
      }
    }
  }
}
