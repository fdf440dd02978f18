/**
 * Start-up normalisation of the `DATABASE_URL` environment variable
 * (main.py:26-30): Heroku-style `postgres://` URLs are rewritten to the
 * `postgresql://` scheme SQLAlchemy expects, and a missing or empty
 * variable selects the local SQLite file.
 */
module DatabaseConfig {
  import opened Wrappers
  import opened Strings

  const PostgresScheme := "postgres://"
  const PostgresqlScheme := "postgresql://"
  const DefaultUrl := "sqlite:///./squad_v3.db"

  /**
   * The URL the engine is created with, given the environment variable's
   * value (`None` when it is not set).
   */
  function NormalizeDatabaseUrl(env: Option<string>): (url: string)
    ensures url != ""
  {
    var rewritten :=
      if env.Some? && env.value != "" && StartsWith(env.value, PostgresScheme)
      then ReplaceFirst(env.value, PostgresScheme, PostgresqlScheme)
      else if env.Some? then env.value
      else "";
    if rewritten == "" then DefaultUrl else rewritten
  }

  /** A `postgres://` URL keeps everything after the scheme, under `postgresql://`. */
  lemma PostgresSchemeRewritten(rest: string)
    ensures NormalizeDatabaseUrl(Some(PostgresScheme + rest)) == PostgresqlScheme + rest
  {
  }

  /** A missing or empty variable selects the SQLite default. */
  lemma MissingUrlDefaults(env: Option<string>)
    requires env.None? || env.value == ""
    ensures NormalizeDatabaseUrl(env) == DefaultUrl
  {
  }

  /** Any other non-empty URL is used as it is. */
  lemma OtherUrlUnchanged(u: string)
    requires u != "" && !StartsWith(u, PostgresScheme)
    ensures NormalizeDatabaseUrl(Some(u)) == u
  {
  }

  /** Normalising an already normalised URL changes nothing. */
  lemma NormalizeIdempotent(env: Option<string>)
    ensures NormalizeDatabaseUrl(Some(NormalizeDatabaseUrl(env))) == NormalizeDatabaseUrl(env)
  {
    var url := NormalizeDatabaseUrl(env);
    if env.Some? && env.value != "" && StartsWith(env.value, PostgresScheme) {
      var rest := env.value[|PostgresScheme|..];
      assert env.value == PostgresScheme + rest;
      PostgresSchemeRewritten(rest);
      assert url[8] != PostgresScheme[8];
    } else if env.Some? && env.value != "" {
      assert url == env.value;
    } else {
      assert url[0] != PostgresScheme[0];
    }
    OtherUrlUnchanged(url);
  }
}
