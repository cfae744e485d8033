/**
 * The setup gate in front of every request: until the configuration says
 * the setup is complete, requests outside the setup, static, media and
 * Django admin paths are sent to the setup wizard.
 */
module SetupMiddleware {
  import opened Wrappers
  import opened Text
  import opened SiteConfig

  /** The path prefixes that are never redirected. */
  const ExemptPrefixes := ["/setup/", "/static/", "/media/", "/admin/"]

  /** What the middleware does with a request: hand it to the view, or redirect to the setup wizard. */
  datatype Action = PassOn | RedirectToSetup

  predicate Exempt(path: string)
  {
    StartsWith(path, "/setup/") || StartsWith(path, "/static/") || StartsWith(path, "/media/") ||
    StartsWith(path, "/admin/")
  }

  /**
   * `SetupMiddleware.__call__`.  `loaded` is what `GlobalConfig.load()`
   * gives for this request, or the exception it raises; it is only
   * consulted for a path that is not exempt.
   */
  function Gate(path: string, loaded: Result<GlobalConfig, string>): Action
  {
    if Exempt(path) then PassOn
    else if loaded.Ok? && !loaded.value.setupComplete then RedirectToSetup
    else PassOn
  }

  /**
   * A request is redirected exactly when its path has none of the exempt
   * prefixes and the configuration loaded with the setup incomplete: an
   * exempt path passes whatever the configuration, and so does any request
   * when loading it fails.
   */
  lemma GateRules(path: string, loaded: Result<GlobalConfig, string>, other: Result<GlobalConfig, string>)
    ensures Gate(path, loaded) == RedirectToSetup <==>
              (forall p :: p in ExemptPrefixes ==> !StartsWith(path, p)) && loaded.Ok? && !loaded.value.setupComplete
    ensures Exempt(path) ==> Gate(path, loaded) == Gate(path, other)
    ensures loaded.Err? ==> Gate(path, loaded) == PassOn
  {
  }

  /** On a fresh installation, where loading creates the default row, every non-exempt page leads to the wizard. */
  lemma FreshInstallRedirects(path: string)
    requires !Exempt(path)
    ensures Gate(path, Ok(Defaults())) == RedirectToSetup
  {
  }
}
