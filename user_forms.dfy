/**
 * The staff user administration forms: creating a user (username, email
 * and the two passwords) and editing one (names, email and the active and
 * staff flags), with the self-protection rules of the edit form.
 */
module UserForms {
  import opened Wrappers
  import opened Text
  import opened Auth
  import opened Forms

  const UsernameRequired := "El nombre de usuario es obligatorio"
  const UsernameTaken := "Ya existe un usuario con este nombre de usuario"
  const EmailRequired := "El email es obligatorio"
  const EmailTaken := "Ya existe un usuario con este email"
  const PasswordMismatch := "Las contraseñas no coinciden"
  const PasswordTooShort := "La contraseña debe tener al menos 8 caracteres"
  const PasswordIsUsername := "La contraseña no puede ser igual al nombre de usuario"
  const PasswordTooCommon := "La contraseña es demasiado común"
  const FirstNameRequired := "El nombre es obligatorio"
  const LastNameRequired := "El apellido es obligatorio"
  const NoSelfDeactivation := "No puedes desactivar tu propio usuario"
  const SuperuserDeactivation := "Solo superusuarios pueden desactivar cuentas de administrador"
  const StaffChangeNeedsSuperuser := "Solo superusuarios pueden modificar permisos de administrador"
  const NoSelfStaffRemoval := "No puedes quitarte tus propios permisos de staff"

  /** The passwords the create form refuses as too common, compared in lower case. */
  const CommonPasswords := ["password", "12345678", "qwerty123"]

  /** `UserCreateForm.clean_username` over the existing users' usernames. */
  function CleanUsername(raw: Option<string>, usernames: map<nat, string>): Result<string, string>
  {
    Unique(Normalised(raw), usernames, None, UsernameRequired, UsernameTaken)
  }

  /** `UserCreateForm.clean_email` over the existing users' emails. */
  function CleanCreateEmail(raw: Option<string>, emails: map<nat, string>): Result<string, string>
  {
    Unique(Normalised(raw), emails, None, EmailRequired, EmailTaken)
  }

  /**
   * A username is accepted exactly when it has some text and no user holds
   * it in any letter case; it is kept stripped and lower-cased, and
   * cleaning it again gives it back while no user holds it.
   */
  lemma CleanUsernameProps(raw: Option<string>, usernames: map<nat, string>)
    ensures CleanUsername(raw, usernames).Ok? <==> Stripped(raw) != "" && !TakenBy(usernames, Stripped(raw), None)
    ensures CleanUsername(raw, usernames).Ok? ==>
              var u := CleanUsername(raw, usernames).value;
              u == Lower(Stripped(raw)) && Lower(u) == u && NoEdgeSpace(u) &&
              CleanUsername(Some(u), usernames) == CleanUsername(raw, usernames)
    ensures CleanUsername(raw, usernames).Err? ==>
              CleanUsername(raw, usernames).error == (if Stripped(raw) == "" then UsernameRequired else UsernameTaken)
  {
    TakenByIgnoresCase(usernames, Stripped(raw), None);
    NormalisedIdempotent(raw);
    LowerKeepsNoEdgeSpace(Stripped(raw));
  }

  /** The same holds of the create form's email. */
  lemma CleanCreateEmailProps(raw: Option<string>, emails: map<nat, string>)
    ensures CleanCreateEmail(raw, emails).Ok? <==> Stripped(raw) != "" && !TakenBy(emails, Stripped(raw), None)
    ensures CleanCreateEmail(raw, emails).Ok? ==>
              var e := CleanCreateEmail(raw, emails).value;
              e == Lower(Stripped(raw)) && Lower(e) == e && CleanCreateEmail(Some(e), emails) == CleanCreateEmail(raw, emails)
    ensures CleanCreateEmail(raw, emails).Err? ==>
              CleanCreateEmail(raw, emails).error == (if Stripped(raw) == "" then EmailRequired else EmailTaken)
  {
    TakenByIgnoresCase(emails, Stripped(raw), None);
    NormalisedIdempotent(raw);
  }

  /**
   * `UserCreateForm.clean`: the message of the error it raises, or `None`.
   * `password1` and `password2` are missing when their own field checks
   * failed, and `username` when `clean_username` refused it.
   */
  function CreateClean(password1: Option<string>, password2: Option<string>, username: Option<string>)
    : Option<string>
  {
    var p1 := password1.GetOr("");
    var p2 := password2.GetOr("");
    if p1 != p2 then Some(PasswordMismatch)
    else if |p1| < 8 then Some(PasswordTooShort)
    else if p1 != "" && Lower(p1) == Lower(username.GetOr("")) then Some(PasswordIsUsername)
    else if p1 != "" && Lower(p1) in CommonPasswords then Some(PasswordTooCommon)
    else None
  }

  /**
   * The passwords pass exactly when they match, have at least 8
   * characters, differ from the username in every letter case and are not
   * one of the common ones in any letter case; each refusal is the first of
   * those rules, in that order, that fails, so missing passwords are too short.
   */
  lemma CreateCleanRules(password1: Option<string>, password2: Option<string>, username: Option<string>)
    ensures var p1, p2 := password1.GetOr(""), password2.GetOr("");
            var e := CreateClean(password1, password2, username);
            (e.None? <==> p1 == p2 && |p1| >= 8 && Lower(p1) != Lower(username.GetOr("")) && Lower(p1) !in CommonPasswords) &&
            (e == Some(PasswordMismatch) <==> p1 != p2) &&
            (e == Some(PasswordTooShort) <==> p1 == p2 && |p1| < 8) &&
            (e == Some(PasswordIsUsername) <==> p1 == p2 && |p1| >= 8 && Lower(p1) == Lower(username.GetOr(""))) &&
            (e == Some(PasswordTooCommon) <==>
               p1 == p2 && |p1| >= 8 && Lower(p1) != Lower(username.GetOr("")) && Lower(p1) in CommonPasswords)
    ensures CreateClean(None, None, username) == Some(PasswordTooShort)
  {
  }

  /** `UserCreateForm.save(commit)`: the password is set from `password1`, then the user is saved when `commit` asks. */
  method SaveCreated(user: UserInstance, password1: Option<string>, commit: bool)
    modifies user
    ensures user.password == SetPassword(password1)
    ensures user.stored == (old(user.stored) || commit)
    ensures user.username == old(user.username) && user.email == old(user.email)
    ensures user.firstName == old(user.firstName) && user.lastName == old(user.lastName)
    ensures user.isActive == old(user.isActive)
  {
    user.password := SetPassword(password1);
    if commit {
      user.Save();
    }
  }

  /** `UserEditForm.clean_first_name` */
  function CleanFirstName(raw: Option<string>): Result<string, string>
  {
    Required(raw, FirstNameRequired)
  }

  /** `UserEditForm.clean_last_name` */
  function CleanLastName(raw: Option<string>): Result<string, string>
  {
    Required(raw, LastNameRequired)
  }

  /**
   * Both names are kept stripped and must hold some text; a cleaned name
   * cleans to itself.
   */
  lemma CleanNamesProps(raw: Option<string>)
    ensures CleanFirstName(raw).Ok? <==> Stripped(raw) != ""
    ensures CleanLastName(raw).Ok? <==> Stripped(raw) != ""
    ensures CleanFirstName(raw).Ok? ==> CleanFirstName(raw).value == Stripped(raw) &&
                                         CleanFirstName(Some(CleanFirstName(raw).value)) == CleanFirstName(raw)
    ensures CleanLastName(raw).Ok? ==> CleanLastName(raw).value == Stripped(raw) &&
                                        CleanLastName(Some(CleanLastName(raw).value)) == CleanLastName(raw)
  {
  }

  /** The row an edited user's email check leaves out: the instance itself once it has a (non-zero) key. */
  function OwnRow(instancePk: Option<nat>): Option<nat>
  {
    if instancePk.Some? && instancePk.value != 0 then instancePk else None
  }

  /** `UserEditForm.clean_email` */
  function CleanEditEmail(raw: Option<string>, emails: map<nat, string>, instancePk: Option<nat>)
    : Result<string, string>
  {
    Unique(Normalised(raw), emails, OwnRow(instancePk), EmailRequired, EmailTaken)
  }

  /**
   * The edit form checks the email exactly as the create form does, over
   * every user but the one being edited: in particular a user keeps their
   * own address, whatever its letter case.
   */
  lemma EditEmailIsCreateWithoutSelf(raw: Option<string>, emails: map<nat, string>, pk: nat)
    requires pk != 0
    ensures CleanEditEmail(raw, emails, Some(pk)) == CleanCreateEmail(raw, emails - {pk})
    ensures CleanEditEmail(raw, emails, None) == CleanCreateEmail(raw, emails)
  {
    TakenByExcluding(emails, Normalised(raw), pk);
  }

  /**
   * `UserEditForm.__init__`: for a request user who is not a superuser the
   * staff box is disabled, and the form then reads the instance's own flag
   * whatever was submitted.
   */
  function StaffFieldValue(submitted: bool, instance: Actor, requestUser: Option<Actor>): bool
  {
    if requestUser.Some? && !requestUser.value.isSuperuser then instance.isStaff else submitted
  }

  /** `UserEditForm.clean_is_active` */
  function CleanIsActive(isActive: bool, instance: Actor, requestUser: Option<Actor>): Result<bool, string>
  {
    if requestUser.Some? && instance.pk == requestUser.value.pk && !isActive then Err(NoSelfDeactivation)
    else if instance.isSuperuser && !isActive && (requestUser.None? || !requestUser.value.isSuperuser) then
      Err(SuperuserDeactivation)
    else Ok(isActive)
  }

  /**
   * Activating is never refused.  Deactivating is refused exactly when the
   * requester edits themself, or edits a superuser without being one, and
   * the self rule is reported first.
   */
  lemma CleanIsActiveRules(isActive: bool, instance: Actor, requestUser: Option<Actor>)
    ensures var r := CleanIsActive(isActive, instance, requestUser);
            var self := requestUser.Some? && instance.pk == requestUser.value.pk;
            var superActor := requestUser.Some? && requestUser.value.isSuperuser;
            (r.Ok? ==> r.value == isActive) &&
            (isActive ==> r.Ok?) &&
            (r.Err? <==> !isActive && (self || (instance.isSuperuser && !superActor))) &&
            (r == Err(NoSelfDeactivation) <==> !isActive && self)
  {
  }

  /** `UserEditForm.clean_is_staff`, given the value the staff field produced. */
  function CleanIsStaff(isStaff: bool, instance: Actor, requestUser: Option<Actor>): Result<bool, string>
  {
    if instance.isStaff != isStaff && (requestUser.None? || !requestUser.value.isSuperuser) then
      Err(StaffChangeNeedsSuperuser)
    else if requestUser.Some? && instance.pk == requestUser.value.pk && instance.isStaff && !isStaff then
      Err(NoSelfStaffRemoval)
    else Ok(isStaff)
  }

  /**
   * The staff flag a bound edit form cleans to: `builtWith` is the
   * `request_user` passed when the form is built, which decides whether the
   * staff box is disabled, and `cleanWith` the requester stored by the time
   * `clean_is_staff` runs.
   */
  function EditFormStaff(submitted: bool, instance: Actor, builtWith: Option<Actor>, cleanWith: Option<Actor>): Result<bool, string>
  {
    CleanIsStaff(StaffFieldValue(submitted, instance, builtWith), instance, cleanWith)
  }

  /**
   * `edit_view` builds the form without `request_user` and only then calls
   * `set_request_user`, so the staff box is never disabled and the
   * submitted flag reaches the cleaning: a requester who is not a superuser
   * and changes the flag is refused, one who leaves it alone keeps it, and
   * a superuser may change it except to remove their own.
   */
  lemma EditViewStaffRules(submitted: bool, instance: Actor, requester: Actor)
    ensures var r := EditFormStaff(submitted, instance, None, Some(requester));
            var self := instance.pk == requester.pk;
            (!requester.isSuperuser && submitted != instance.isStaff ==> r == Err(StaffChangeNeedsSuperuser)) &&
            (!requester.isSuperuser && submitted == instance.isStaff ==> r == Ok(submitted)) &&
            (requester.isSuperuser ==> (r.Err? <==> self && instance.isStaff && !submitted)) &&
            (r.Err? && requester.isSuperuser ==> r == Err(NoSelfStaffRemoval)) &&
            (r.Ok? ==> r.value == submitted)
  {
  }

  /**
   * Through a form built with its requester (the `request_user` keyword),
   * the staff flag a cleaning accepts differs from the instance's only for
   * a superuser requester who is not removing their own flag; a requester
   * who is not a superuser finds the box disabled, never gets an error and
   * keeps the instance's flag, and without a requester any change is
   * refused.  `edit_view` does not build the form this way: see
   * `EditViewStaffRules`.
   */
  lemma StaffFlagRules(submitted: bool, instance: Actor, requestUser: Option<Actor>)
    ensures var r := EditFormStaff(submitted, instance, requestUser, requestUser);
            var self := requestUser.Some? && instance.pk == requestUser.value.pk;
            (r.Ok? && r.value != instance.isStaff ==>
               requestUser.Some? && requestUser.value.isSuperuser && !(self && instance.isStaff)) &&
            (requestUser.Some? && !requestUser.value.isSuperuser ==> r == Ok(instance.isStaff)) &&
            (requestUser.None? ==> (r.Ok? <==> submitted == instance.isStaff)) &&
            (requestUser.Some? && requestUser.value.isSuperuser ==>
               (r.Err? <==> self && instance.isStaff && !submitted))
  {
  }
}
