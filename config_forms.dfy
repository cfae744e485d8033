/**
 * The forms over the global configuration: the company settings form of
 * the organization administration, and the first-run setup form, which
 * may also ask for the first administrator's credentials.
 */
module ConfigForms {
  import opened Wrappers
  import opened Text
  import opened Forms
  import opened SiteConfig

  const SiteNameRequired := "El nombre de la empresa es obligatorio"
  const SiteNameTooShort := "El nombre debe tener al menos 2 caracteres"
  const PhoneTooShort := "El teléfono debe tener al menos 8 dígitos"
  const SetupPasswordMismatch := "Las contraseñas no coinciden."
  const SetupEmailRequired := "El email es requerido si vas a crear un usuario."

  /** `GlobalConfigForm.clean_site_name` */
  function CleanSiteName(raw: Option<string>): Result<string, string>
  {
    var name := Stripped(raw);
    if name == "" then Err(SiteNameRequired)
    else if |name| < 2 then Err(SiteNameTooShort)
    else Ok(name)
  }

  /**
   * A site name is kept stripped and accepted exactly when at least two
   * characters are left; one left is too short, none is missing, and an
   * accepted name cleans to itself.
   */
  lemma CleanSiteNameRules(raw: Option<string>)
    ensures CleanSiteName(raw).Ok? <==> |Stripped(raw)| >= 2
    ensures CleanSiteName(raw).Ok? ==>
              CleanSiteName(raw).value == Stripped(raw) && CleanSiteName(Some(CleanSiteName(raw).value)) == CleanSiteName(raw)
    ensures CleanSiteName(raw) == Err(SiteNameRequired) <==> Stripped(raw) == ""
    ensures CleanSiteName(raw) == Err(SiteNameTooShort) <==> |Stripped(raw)| == 1
  {
  }

  /** `GlobalConfigForm.clean_company_email`: only stripped, never refused. */
  function CleanCompanyEmail(raw: Option<string>): (e: string)
    ensures NoEdgeSpace(e) && |e| <= |raw.GetOr("")|
    ensures raw.Some? && NoEdgeSpace(raw.value) ==> e == raw.value
  {
    StripNoopIfClean(raw);
    Stripped(raw)
  }

  lemma StripNoopIfClean(raw: Option<string>)
    ensures raw.Some? && NoEdgeSpace(raw.value) ==> Strip(raw.value) == raw.value
  {
    if raw.Some? && NoEdgeSpace(raw.value) {
      StripNoop(raw.value);
    }
  }

  /** `GlobalConfigForm.clean_company_phone` */
  function CleanCompanyPhone(raw: Option<string>): Result<string, string>
  {
    var phone := Stripped(raw);
    if phone != "" && |phone| < 8 then Err(PhoneTooShort) else Ok(phone)
  }

  /**
   * The phone is optional: a missing or blank one is kept as empty, any
   * other is kept stripped when at least 8 characters are left and is
   * refused otherwise.
   */
  lemma CleanCompanyPhoneRules(raw: Option<string>)
    ensures Stripped(raw) == "" ==> CleanCompanyPhone(raw) == Ok("")
    ensures CleanCompanyPhone(raw).Err? <==> 0 < |Stripped(raw)| < 8
    ensures CleanCompanyPhone(raw).Ok? ==>
              CleanCompanyPhone(raw).value == Stripped(raw) &&
              CleanCompanyPhone(Some(CleanCompanyPhone(raw).value)) == CleanCompanyPhone(raw)
  {
  }

  /**
   * `GlobalConfigForm.save(commit)`: the edited configuration always gets
   * key 1, and is saved through the singleton when `commit` asks.
   */
  method SaveConfig(store: ConfigStore, config: GlobalConfig, commit: bool) returns (saved: GlobalConfig)
    modifies store
    ensures saved == config.(pk := SingletonKey)
    ensures commit ==> store.rows == old(store.rows)[SingletonKey := saved] && store.cache == Some(saved)
    ensures !commit ==> store.rows == old(store.rows) && store.cache == old(store.cache)
    ensures old(store.Coherent()) ==> store.Coherent()
  {
    saved := config.(pk := SingletonKey);
    if commit {
      saved := store.Save(saved);
    }
  }

  /**
   * The errors `SetupForm.clean` adds.  Once either password is given, a
   * mismatch is filed under `admin_password_confirm` and a missing email
   * under `admin_email`, in that order.
   */
  function SetupErrors(cleaned: map<string, string>): seq<(string, string)>
  {
    var password := Get(cleaned, "admin_password");
    var confirm := Get(cleaned, "admin_password_confirm");
    var email := Get(cleaned, "admin_email");
    if Truthy(password) || Truthy(confirm) then
      (if password != confirm then [("admin_password_confirm", SetupPasswordMismatch)] else []) +
      (if !Truthy(email) then [("admin_email", SetupEmailRequired)] else [])
    else []
  }

  /**
   * Without either password nothing is reported; with one, the mismatch
   * and the missing email are reported independently, so both can be
   * reported together, mismatch first.
   */
  lemma SetupErrorsRules(cleaned: map<string, string>)
    ensures var password, confirm := Get(cleaned, "admin_password"), Get(cleaned, "admin_password_confirm");
            var errs := SetupErrors(cleaned);
            var asked := Truthy(password) || Truthy(confirm);
            (!asked ==> errs == []) &&
            (("admin_password_confirm", SetupPasswordMismatch) in errs <==> asked && password != confirm) &&
            (("admin_email", SetupEmailRequired) in errs <==> asked && !Truthy(Get(cleaned, "admin_email"))) &&
            (forall e :: e in errs ==> e == ("admin_password_confirm", SetupPasswordMismatch) ||
                                       e == ("admin_email", SetupEmailRequired)) &&
            (|errs| == 2 ==> errs[0].0 == "admin_password_confirm" && errs[1].0 == "admin_email")
  {
  }

  /** `SetupForm.clean` on the bound form: the errors are added and the cleaned data returned. */
  method SetupClean(form: BoundForm) returns (cleaned: map<string, string>)
    modifies form
    ensures form.errors == old(form.errors) + SetupErrors(old(form.cleaned))
    ensures form.cleaned == old(form.cleaned) - FieldsOf(SetupErrors(old(form.cleaned)))
    ensures cleaned == form.cleaned
  {
    ghost var start := form.cleaned;
    var password := Get(form.cleaned, "admin_password");
    var confirm := Get(form.cleaned, "admin_password_confirm");
    var email := Get(form.cleaned, "admin_email");
    if Truthy(password) || Truthy(confirm) {
      if password != confirm {
        form.AddError("admin_password_confirm", SetupPasswordMismatch);
      }
      if !Truthy(email) {
        form.AddError("admin_email", SetupEmailRequired);
      }
    }
    cleaned := form.cleaned;
  }
}
