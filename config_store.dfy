/**
 * The site's global configuration: a singleton table row (key 1) kept
 * alongside a cache entry named after the model.  Saving always writes
 * row 1 and refreshes the cache, deleting does nothing, and loading reads
 * the cache first and otherwise gets or creates row 1.
 */
module SiteConfig {
  import opened Wrappers

  /** One `GlobalConfig` row; the image fields hold the stored file names. */
  datatype GlobalConfig = GlobalConfig(
    pk: int,
    siteName: string,
    logo: Option<string>,
    loginIcon: Option<string>,
    welcomeMessage: string,
    setupComplete: bool,
    primaryColor: string,
    secondaryColor: string,
    companyAddress: string,
    companyPhone: string,
    companyEmail: string,
    socialFacebook: string,
    socialTwitter: string,
    socialInstagram: string,
    socialLinkedin: string,
    navbarFixed: bool,
    sidebarCollapsed: bool)

  /** The key every saved configuration gets. */
  const SingletonKey := 1

  predicate IsHexDigit(c: char)
  {
    '0' <= c <= '9' || 'a' <= c <= 'f' || 'A' <= c <= 'F'
  }

  /** A `#rrggbb` colour, the form the colour fields' 7-character limit allows. */
  predicate HexColour(s: string)
  {
    |s| == 7 && s[0] == '#' && forall k :: 1 <= k < 7 ==> IsHexDigit(s[k])
  }

  /** The row `get_or_create(pk=1)` creates: every field at its declared default. */
  function Defaults(): (c: GlobalConfig)
    ensures c.pk == SingletonKey && !c.setupComplete
    ensures c.siteName == "Agency Dashboard" && c.welcomeMessage == "Bienvenido a tu plataforma"
    ensures HexColour(c.primaryColor) && HexColour(c.secondaryColor)
    ensures c.logo.None? && c.loginIcon.None? && c.navbarFixed && !c.sidebarCollapsed
  {
    GlobalConfig(SingletonKey, "Agency Dashboard", None, None, "Bienvenido a tu plataforma", false,
                 "#696cff", "#8592a3", "", "", "", "", "", "", "", true, false)
  }

  /** The configuration table, by key, and the cache entry `"GlobalConfig"`. */
  class ConfigStore {
    var rows: map<int, GlobalConfig>
    var cache: Option<GlobalConfig>

    /**
     * The cache never disagrees with the table: whatever it holds is row 1
     * as stored.
     */
    predicate Coherent()
      reads this
    {
      cache.Some? ==> SingletonKey in rows && rows[SingletonKey] == cache.value
    }

    constructor (rows: map<int, GlobalConfig>)
      ensures this.rows == rows && cache.None? && Coherent()
    {
      this.rows := rows;
      cache := None;
    }

    /** `SingletonModel.save`: the key is forced to 1, the row written, then the cache refreshed. */
    method Save(c: GlobalConfig) returns (saved: GlobalConfig)
      modifies this
      ensures saved == c.(pk := SingletonKey)
      ensures rows == old(rows)[SingletonKey := saved] && cache == Some(saved)
      ensures Coherent()
    {
      saved := c.(pk := SingletonKey);
      rows := rows[SingletonKey := saved];
      cache := Some(saved);
    }

    /** `SingletonModel.delete`: nothing is removed. */
    method Delete(c: GlobalConfig)
      ensures rows == old(rows) && cache == old(cache)
    {
    }

    /**
     * `SingletonModel.load`: a cached configuration is returned as it is;
     * otherwise row 1 is fetched, or created with the defaults, and only a
     * row created here is cached.
     */
    method Load() returns (c: GlobalConfig)
      modifies this
      ensures old(cache).Some? ==> c == old(cache).value && rows == old(rows) && cache == old(cache)
      ensures old(cache).None? && SingletonKey in old(rows) ==>
                c == old(rows)[SingletonKey] && rows == old(rows) && cache.None?
      ensures old(cache).None? && SingletonKey !in old(rows) ==>
                c == Defaults() && rows == old(rows)[SingletonKey := c] && cache == Some(c)
      ensures old(Coherent()) ==> Coherent() && SingletonKey in rows && c == rows[SingletonKey]
    {
      if cache.None? {
        if SingletonKey in rows {
          c := rows[SingletonKey];
        } else {
          c := Defaults();
          rows := rows[SingletonKey := c];
          cache := Some(c);
        }
        return;
      }
      c := cache.value;
    }
  }
}
