/**
 * The self-service account forms: a signed-in user's profile (names and
 * email) and the public registration form.
 */
module AccountForms {
  import opened Wrappers
  import opened Text
  import opened Forms
  import UserForms

  const EmailRequired := "El email es obligatorio"
  const EmailTaken := "Ya existe un usuario con este email"
  const PasswordMismatch := "Las contraseñas no coinciden"

  /** The registration password field's `min_length`. */
  const RegisterPasswordMinLength := 8

  /**
   * `UserProfileForm.clean_email`: stripped but kept in its letter case,
   * refused when blank or held in any letter case by another user.
   */
  function CleanProfileEmail(raw: Option<string>, emails: map<nat, string>, instancePk: Option<nat>)
    : Result<string, string>
  {
    Unique(Stripped(raw), emails, UserForms.OwnRow(instancePk), EmailRequired, EmailTaken)
  }

  /**
   * The profile form accepts exactly the addresses the staff edit form
   * accepts for the same user, with the same message when it refuses; it
   * only keeps the letter case the user typed.
   */
  lemma ProfileEmailAgreesWithEdit(raw: Option<string>, emails: map<nat, string>, instancePk: Option<nat>)
    ensures var p := CleanProfileEmail(raw, emails, instancePk);
            var e := UserForms.CleanEditEmail(raw, emails, instancePk);
            (p.Ok? <==> e.Ok?) && (p.Err? ==> p == e) &&
            (p.Ok? ==> p.value == Stripped(raw) && Lower(p.value) == e.value)
  {
    TakenByIgnoresCase(emails, Stripped(raw), UserForms.OwnRow(instancePk));
  }

  /** `UserRegisterForm.clean_email`: refused when blank or held in any letter case by any user. */
  function CleanRegisterEmail(raw: Option<string>, emails: map<nat, string>): Result<string, string>
  {
    Unique(Stripped(raw), emails, None, EmailRequired, EmailTaken)
  }

  /** Registration checks the email as the profile form does for a user not yet saved. */
  lemma RegisterEmailIsNewProfile(raw: Option<string>, emails: map<nat, string>)
    ensures CleanRegisterEmail(raw, emails) == CleanProfileEmail(raw, emails, None)
    ensures CleanRegisterEmail(raw, emails).Ok? <==> Stripped(raw) != "" && !TakenBy(emails, Stripped(raw), None)
  {
  }

  /**
   * The registration password field: Django's `CharField` strips the text
   * and files its own error, leaving the field out of the cleaned data,
   * when fewer than 8 characters are left.
   */
  function RegisterPasswordField(raw: Option<string>): (v: Option<string>)
    ensures v.Some? ==> |v.value| >= RegisterPasswordMinLength && NoEdgeSpace(v.value)
    ensures v.Some? <==> |Stripped(raw)| >= RegisterPasswordMinLength
  {
    var s := Stripped(raw);
    if |s| < RegisterPasswordMinLength then None else Some(s)
  }

  /** The errors `UserRegisterForm.clean` adds: a mismatch, under `password_confirm`, only when both passwords are there. */
  function RegisterErrors(cleaned: map<string, string>): seq<(string, string)>
  {
    var password := Get(cleaned, "password");
    var confirm := Get(cleaned, "password_confirm");
    if Truthy(password) && Truthy(confirm) && password != confirm then [("password_confirm", PasswordMismatch)]
    else []
  }

  /**
   * Registration reports at most one error, always under
   * `password_confirm`, and exactly when both passwords were given and
   * differ.
   */
  lemma RegisterErrorsRules(cleaned: map<string, string>)
    ensures |RegisterErrors(cleaned)| <= 1
    ensures forall e :: e in RegisterErrors(cleaned) ==> e == ("password_confirm", PasswordMismatch)
    ensures RegisterErrors(cleaned) != [] <==>
              "password" in cleaned && "password_confirm" in cleaned && cleaned["password"] != "" &&
              cleaned["password_confirm"] != "" && cleaned["password"] != cleaned["password_confirm"]
  {
  }

  /** `UserRegisterForm.clean` on the bound form: the errors are added and the cleaned data returned. */
  method RegisterClean(form: BoundForm) returns (cleaned: map<string, string>)
    modifies form
    ensures form.errors == old(form.errors) + RegisterErrors(old(form.cleaned))
    ensures form.cleaned == old(form.cleaned) - FieldsOf(RegisterErrors(old(form.cleaned)))
    ensures cleaned == form.cleaned
  {
    var password := Get(form.cleaned, "password");
    var confirm := Get(form.cleaned, "password_confirm");
    if Truthy(password) && Truthy(confirm) && password != confirm {
      form.AddError("password_confirm", PasswordMismatch);
    }
    cleaned := form.cleaned;
  }

  /**
   * `UserRegisterForm.save(commit)`: the password is set, the account is
   * made inactive until its email is verified, then the user is saved when
   * `commit` asks.
   */
  method SaveRegistered(user: UserInstance, password: string, commit: bool)
    modifies user
    ensures user.password == HashOf(password) && !user.isActive
    ensures user.stored == (old(user.stored) || commit)
    ensures user.username == old(user.username) && user.email == old(user.email)
    ensures user.firstName == old(user.firstName) && user.lastName == old(user.lastName)
  {
    user.password := SetPassword(Some(password));
    user.isActive := false;
    if commit {
      user.Save();
    }
  }
}
