/**
 * The settings module's own logic: reading flags and lists from the
 * environment, refusing a missing or placeholder secret key and missing
 * database credentials in production, and raising the minimum password
 * length.  `env` is the process environment.
 */
module Settings {
  import opened Wrappers
  import opened Text

  /** The words `_env_bool` reads as true. */
  const EnvTrueWords := {"1", "true", "yes", "y", "on"}

  /** `os.getenv(name)` */
  function GetEnv(env: map<string, string>, name: string): Option<string>
  {
    if name in env then Some(env[name]) else None
  }

  /** `os.getenv(name, default)`: the default only when the variable is unset. */
  function GetEnvOr(env: map<string, string>, name: string, default: string): string
  {
    if name in env then env[name] else default
  }

  /** `_env_bool(name, default)` */
  function EnvBool(env: map<string, string>, name: string, default: bool): bool
  {
    if name !in env then default else Lower(Strip(env[name])) in EnvTrueWords
  }

  /**
   * The default only decides an unset variable; a set one is true exactly
   * when its stripped, lower-cased text is a true word, so it reads the
   * same as its own normal form.
   */
  lemma EnvBoolRules(env: map<string, string>, name: string, d1: bool, d2: bool)
    ensures name !in env ==> EnvBool(env, name, d1) == d1
    ensures name in env ==> EnvBool(env, name, d1) == EnvBool(env, name, d2)
    ensures name in env ==>
              EnvBool(env[name := Lower(Strip(env[name]))], name, d1) == EnvBool(env, name, d2)
  {
    if name in env {
      NormaliseIdempotent(env[name]);
    }
  }

  /** `[v.strip() for v in parts if v.strip()]` */
  function NonBlankStripped(parts: seq<string>): (r: seq<string>)
    ensures |r| <= |parts|
  {
    if parts == [] then []
    else if Strip(parts[0]) == "" then NonBlankStripped(parts[1..])
    else [Strip(parts[0])] + NonBlankStripped(parts[1..])
  }

  /** `_env_list(name, default)`: a copy of the default when unset, else the non-blank, stripped comma-separated parts. */
  function EnvList(env: map<string, string>, name: string, default: seq<string>): seq<string>
  {
    if name !in env then default else NonBlankStripped(Split(env[name], ','))
  }

  /** An item of a list setting: some text, no surrounding white space, no comma. */
  predicate ListItem(v: string)
  {
    v != "" && NoEdgeSpace(v) && ',' !in v
  }

  /** A stripped piece contains no character the piece did not. */
  lemma StripKeepsOut(s: string, c: char)
    requires c !in s
    ensures c !in Strip(s)
  {
    var i, j := StripSlice(s);
    assert forall k :: 0 <= k < |Strip(s)| ==> Strip(s)[k] == s[i + k];
  }

  /** Keeping the non-blank stripped parts of separator-free parts gives list items. */
  lemma {:induction false} NonBlankStrippedItems(parts: seq<string>)
    requires forall p :: p in parts ==> ',' !in p
    ensures forall v :: v in NonBlankStripped(parts) ==> ListItem(v)
  {
    if parts != [] {
      assert forall p :: p in parts[1..] ==> p in parts;
      NonBlankStrippedItems(parts[1..]);
      StripNoEdgeSpace(parts[0]);
      StripKeepsOut(parts[0], ',');
    }
  }

  /** Every item a set list variable yields is non-blank, stripped and free of commas. */
  lemma EnvListItems(env: map<string, string>, name: string, default: seq<string>)
    requires name in env
    ensures forall v :: v in EnvList(env, name, default) ==> ListItem(v)
  {
    SplitPiecesHaveNoSep(env[name], ',');
    NonBlankStrippedItems(Split(env[name], ','));
  }

  /** Splitting `a + sep + b` where `a` holds no separator gives `a`, then the pieces of `b`. */
  lemma {:induction false} SplitAfterPiece(a: string, b: string, sep: char)
    requires sep !in a
    ensures Split(a + [sep] + b, sep) == [a] + Split(b, sep)
  {
    if a == [] {
      assert a + [sep] + b == [sep] + b;
      assert ([sep] + b)[1..] == b;
    } else {
      assert (a + [sep] + b)[1..] == a[1..] + [sep] + b;
      assert forall k :: 0 <= k < |a[1..]| ==> a[1..][k] == a[k + 1];
      SplitAfterPiece(a[1..], b, sep);
      assert [a[0]] + a[1..] == a;
    }
  }

  /** Splitting the join of separator-free pieces gives the pieces back. */
  lemma {:induction false} SplitJoin(parts: seq<string>, sep: char)
    requires parts != [] && forall p :: p in parts ==> sep !in p
    ensures Split(Join(parts, sep), sep) == parts
  {
    if |parts| == 1 {
      var p := parts[0];
      assert Join(parts, sep) == p;
      SplitPieceAlone(p, sep);
    } else {
      assert forall p :: p in parts[1..] ==> p in parts;
      SplitJoin(parts[1..], sep);
      SplitAfterPiece(parts[0], Join(parts[1..], sep), sep);
      assert parts == [parts[0]] + parts[1..];
    }
  }

  /** A string without the separator splits into itself alone. */
  lemma {:induction false} SplitPieceAlone(p: string, sep: char)
    requires sep !in p
    ensures Split(p, sep) == [p]
  {
    if p != [] {
      assert forall k :: 0 <= k < |p[1..]| ==> p[1..][k] == p[k + 1];
      SplitPieceAlone(p[1..], sep);
      assert [p[0]] + p[1..] == p;
    }
  }

  /** Parts that are already list items are kept as they are. */
  lemma {:induction false} NonBlankStrippedKeepsItems(parts: seq<string>)
    requires forall p :: p in parts ==> ListItem(p)
    ensures NonBlankStripped(parts) == parts
  {
    if parts != [] {
      assert forall p :: p in parts[1..] ==> p in parts;
      NonBlankStrippedKeepsItems(parts[1..]);
      assert ListItem(parts[0]);
      StripNoop(parts[0]);
      assert parts == [parts[0]] + parts[1..];
    }
  }

  /**
   * Writing a list of items to the variable comma-joined and reading it
   * back gives the same list.
   */
  lemma EnvListRoundTrip(env: map<string, string>, name: string, default: seq<string>, items: seq<string>)
    requires forall v :: v in items ==> ListItem(v)
    ensures EnvList(env[name := Join(items, ',')], name, default) == items
  {
    if items == [] {
      assert Split("", ',') == [""];
    } else {
      SplitJoin(items, ',');
      NonBlankStrippedKeepsItems(items);
    }
  }

  /** `DEBUG` */
  function Debug(env: map<string, string>): bool
  {
    EnvBool(env, "DJANGO_DEBUG", false)
  }

  /** `ALLOWED_HOSTS`: the local hosts by default in DEBUG, none by default otherwise. */
  function AllowedHosts(env: map<string, string>): seq<string>
  {
    EnvList(env, "DJANGO_ALLOWED_HOSTS", if Debug(env) then ["localhost", "127.0.0.1"] else [])
  }

  /** Without DEBUG and without an explicit host list, no host is allowed, and in particular not "*". */
  lemma ProductionHostsDefault(env: map<string, string>)
    requires "DJANGO_DEBUG" !in env && "DJANGO_ALLOWED_HOSTS" !in env
    ensures AllowedHosts(env) == []
  {
  }

  /** The secret keys refused outside DEBUG, compared in lower case. */
  const PlaceholderKeys := {"change_me", "changeme", "django-insecure-change-me"}

  const MissingKey := "DJANGO_SECRET_KEY es obligatorio cuando DJANGO_DEBUG=False"
  const PlaceholderKey := "DJANGO_SECRET_KEY no puede ser un placeholder cuando DJANGO_DEBUG=False"

  /**
   * `SECRET_KEY`: the stripped variable; when it is blank, `generated` (a
   * fresh random token) in DEBUG and a RuntimeError otherwise; a
   * placeholder is tolerated only in DEBUG.
   */
  function SecretKey(env: map<string, string>, debug: bool, generated: string): Result<string, string>
  {
    var key := Strip(GetEnv(env, "DJANGO_SECRET_KEY").GetOr(""));
    if key == "" && !debug then Err(MissingKey)
    else
      var key := if key == "" then generated else key;
      if Lower(key) in PlaceholderKeys && !debug then Err(PlaceholderKey)
      else Ok(key)
  }

  /**
   * DEBUG never refuses a key.  Outside DEBUG, the settings load exactly
   * when the stripped variable is neither blank nor a placeholder in any
   * letter case, and the key is then that stripped text.
   */
  lemma SecretKeyRules(env: map<string, string>, debug: bool, generated: string)
    ensures var key := Strip(GetEnv(env, "DJANGO_SECRET_KEY").GetOr(""));
            var r := SecretKey(env, debug, generated);
            (debug ==> r.Ok?) &&
            (!debug ==> (r.Ok? <==> key != "" && Lower(key) !in PlaceholderKeys)) &&
            (!debug && key == "" ==> r == Err(MissingKey)) &&
            (r.Ok? && key != "" ==> r.value == key) &&
            (r.Ok? && key == "" ==> r.value == generated)
  {
  }

  /** The `default` database entry. */
  datatype Database = Database(engine: string, name: string, user: string, password: string, host: string, port: string)

  const SqliteEngine := "django.db.backends.sqlite3"

  /** `DATABASES["default"]`, with `baseDir` the project directory. */
  function DefaultDatabase(env: map<string, string>, baseDir: string): Database
  {
    Database(GetEnvOr(env, "DJANGO_DB_ENGINE", SqliteEngine),
             GetEnvOr(env, "DJANGO_DB_NAME", baseDir + "/db.sqlite3"),
             GetEnvOr(env, "DJANGO_DB_USER", ""),
             GetEnvOr(env, "DJANGO_DB_PASSWORD", ""),
             GetEnvOr(env, "DJANGO_DB_HOST", ""),
             GetEnvOr(env, "DJANGO_DB_PORT", ""))
  }

  /** The names of the missing database settings, in the order they are checked. */
  function MissingDatabaseSettings(db: Database): seq<string>
  {
    (if db.name == "" then ["POSTGRES_DB (o DJANGO_DB_NAME)"] else []) +
    (if db.user == "" then ["POSTGRES_USER (o DJANGO_DB_USER)"] else []) +
    (if db.password == "" then ["POSTGRES_PASSWORD (o DJANGO_DB_PASSWORD)"] else [])
  }

  /** The database check: the RuntimeError message, or `None`. */
  function DatabaseCheck(debug: bool, db: Database): Option<string>
  {
    if debug || db.engine == SqliteEngine then None
    else
      var missing := MissingDatabaseSettings(db);
      if missing == [] then None else Some("Faltan variables de BD en producción: " + JoinWith(missing, ", "))
  }

  /** `sep.join(parts)` for a separator of several characters. */
  function JoinWith(parts: seq<string>, sep: string): string
  {
    if parts == [] then "" else if |parts| == 1 then parts[0] else parts[0] + sep + JoinWith(parts[1..], sep)
  }

  /**
   * Only a production server on another engine than SQLite is checked, and
   * it refuses to start exactly when the name, the user or the password is
   * empty; with no database variable set nothing is refused.
   */
  lemma DatabaseCheckRules(debug: bool, db: Database, env: map<string, string>, baseDir: string)
    ensures DatabaseCheck(debug, db).Some? <==>
              !debug && db.engine != SqliteEngine && (db.name == "" || db.user == "" || db.password == "")
    ensures "DJANGO_DB_ENGINE" !in env ==> DatabaseCheck(debug, DefaultDatabase(env, baseDir)).None?
  {
  }

  /** One entry of `AUTH_PASSWORD_VALIDATORS`; `options` is its `OPTIONS` dict, if it has one. */
  datatype Validator = Validator(name: string, options: Option<map<string, int>>)

  const MinimumLengthValidator := "django.contrib.auth.password_validation.MinimumLengthValidator"

  /** The validators as declared, none with options. */
  const DeclaredValidators := [
    Validator("django.contrib.auth.password_validation.UserAttributeSimilarityValidator", None),
    Validator(MinimumLengthValidator, None),
    Validator("django.contrib.auth.password_validation.CommonPasswordValidator", None),
    Validator("django.contrib.auth.password_validation.NumericPasswordValidator", None)]

  /** One step of the loop: the minimum-length validator gets `OPTIONS` and `min_length` 12 where they are missing. */
  function WithMinLength(v: Validator): (w: Validator)
    ensures w.name == v.name
    ensures v.name != MinimumLengthValidator ==> w == v
    ensures v.name == MinimumLengthValidator ==>
              w.options.Some? && "min_length" in w.options.value &&
              (v.options.Some? && "min_length" in v.options.value ==> w == v) &&
              (v.options.None? || "min_length" !in v.options.value ==>
                 w.options.value == v.options.GetOr(map[])["min_length" := 12])
  {
    if v.name != MinimumLengthValidator then v
    else
      var options := v.options.GetOr(map[]);
      Validator(v.name, Some(if "min_length" in options then options else options["min_length" := 12]))
  }

  /** The loop over `AUTH_PASSWORD_VALIDATORS`, updating each entry in place. */
  method SetMinimumLength(vs: array<Validator>)
    modifies vs
    ensures forall i :: 0 <= i < vs.Length ==> vs[i] == WithMinLength(old(vs[i]))
  {
    for i := 0 to vs.Length
      invariant forall k :: 0 <= k < i ==> vs[k] == WithMinLength(old(vs[k]))
      invariant forall k :: i <= k < vs.Length ==> vs[k] == old(vs[k])
    {
      var v := vs[i];
      if v.name == MinimumLengthValidator {
        var options := v.options.GetOr(map[]);
        if "min_length" !in options {
          options := options["min_length" := 12];
        }
        vs[i] := Validator(v.name, Some(options));
      }
    }
  }

  /**
   * Running the loop again changes nothing, and on the declared list it
   * gives the minimum-length validator exactly `min_length` 12.
   */
  lemma MinLengthRules(v: Validator)
    ensures WithMinLength(WithMinLength(v)) == WithMinLength(v)
    ensures WithMinLength(DeclaredValidators[1]).options == Some(map["min_length" := 12])
    ensures forall k :: 0 <= k < 4 && k != 1 ==> WithMinLength(DeclaredValidators[k]) == DeclaredValidators[k]
  {
  }
}
