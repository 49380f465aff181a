/** Start-up of the data layer (server/config/database.js:10-290): which backend
    `initializeDatabase` settles on, and the repair of the admin password hash it
    performs on the PostgreSQL and SQLite paths. Connecting, running the schema
    file and hashing are done by drivers; here each attempt's success and the
    hash functions are inputs. */
module Bootstrap {
  import opened Common
  import opened Text

  /** The environment variables the choice reads; `None` is an unset variable. */
  datatype Env = Env(databaseUrl: Option<string>, dbType: Option<string>)

  /** Whether each connection attempt would succeed if made: the whole PostgreSQL
      block (connect, schema, admin sync), and the first MySQL pool connection. */
  datatype Probes = Probes(postgresOk: bool, mysqlOk: bool)

  /** How `initializeDatabase` ends: a chosen backend, or the PostgreSQL error
      thrown on to the caller. */
  datatype Choice = Chosen(kind: Backend) | Fatal

  /** `DATABASE_URL` is set to a non-empty string. */
  predicate UrlSet(env: Env) {
    env.databaseUrl.Some? && env.databaseUrl.value != ""
  }

  /** `(process.env.DB_TYPE || '').toLowerCase()`. */
  function DbType(env: Env): string {
    Lower(if env.dbType.Some? then env.dbType.value else "")
  }

  /** The condition under which PostgreSQL is attempted at all. */
  predicate TriesPostgres(env: Env) {
    UrlSet(env) || DbType(env) == "postgres" || DbType(env) == "postgresql"
  }

  /** The ordered probe: PostgreSQL if asked for; its failure is fatal when
      `DATABASE_URL` was given, otherwise MySQL is tried, then SQLite, which is
      always there. */
  function Choose(env: Env, p: Probes): (r: Choice)
    ensures r == Chosen(Postgres) <==> TriesPostgres(env) && p.postgresOk
    ensures r == Fatal <==> UrlSet(env) && !p.postgresOk
    ensures r == Chosen(MySql) <==> !(TriesPostgres(env) && (p.postgresOk || UrlSet(env))) && p.mysqlOk
    ensures r == Chosen(Sqlite) <==> !(TriesPostgres(env) && (p.postgresOk || UrlSet(env))) && !p.mysqlOk
  {
    if TriesPostgres(env) && p.postgresOk then Chosen(Postgres)
    else if TriesPostgres(env) && UrlSet(env) then Fatal
    else if p.mysqlOk then Chosen(MySql)
    else Chosen(Sqlite)
  }

  /** Without `DATABASE_URL` start-up always ends with a backend, and with neither
      variable pointing at PostgreSQL it never uses PostgreSQL. */
  lemma {:induction false} FallbackAlwaysEnds(env: Env, p: Probes)
    ensures !UrlSet(env) ==> Choose(env, p).Chosen?
    ensures !TriesPostgres(env) ==> Choose(env, p) == Choose(env, p.(postgresOk := false))
  {
  }

  /** `DB_TYPE` is read without regard to the case of its letters. */
  lemma {:induction false} DbTypeIgnoresCase(env: Env, p: Probes, dbType: string)
    requires env.dbType.Some? && Lower(env.dbType.value) == Lower(dbType)
    ensures Choose(env, p) == Choose(env.(dbType := Some(dbType)), p)
  {
  }

  /** `PostgreSQL` and `POSTGRES` select it (any case, by `DbTypeIgnoresCase`); an empty
      `DATABASE_URL` counts as unset. */
  lemma PostgresInAnyCase()
    ensures TriesPostgres(Env(None, Some("PostgreSQL")))
    ensures TriesPostgres(Env(None, Some("POSTGRES")))
    ensures !TriesPostgres(Env(Some(""), Some("mysql")))
  {
    assert Lower("PostgreSQL") == "postgresql";
    assert Lower("POSTGRES") == "postgres";
  }

  /** The object every module shares; `kind` is its `type` field, unset until
      start-up has chosen. */
  class Db {
    var kind: Option<Backend>

    constructor()
      ensures kind == None
    {
      kind := None;
    }

    /** `initializeDatabase`: tries the backends in order and records the one it
        settles on; `failed` is the rethrown PostgreSQL error. */
    method Initialize(env: Env, p: Probes) returns (failed: bool)
      modifies this
      ensures failed <==> Choose(env, p) == Fatal
      ensures failed ==> kind == old(kind)
      ensures !failed ==> kind == Some(Choose(env, p).kind)
    {
      failed := false;
      var databaseUrl := UrlSet(env);
      var dbType := DbType(env);
      if databaseUrl || dbType == "postgres" || dbType == "postgresql" {
        if p.postgresOk {
          kind := Some(Postgres);
          return;
        }
        if databaseUrl {
          failed := true;
          return;
        }
      }
      if p.mysqlOk {
        kind := Some(MySql);
        return;
      }
      kind := Some(Sqlite);
    }
  }

  // ---------------------------------------------------------------------------
  // The admin password

  const AdminPassword := "admin123"

  /** `password || ''`: a NULL password is compared as the empty string. */
  function StoredHash(stored: Option<string>): string {
    if stored.Some? then stored.value else ""
  }

  /** The admin user's row as the repair leaves it. `admin` is `None` when there is
      no admin user and `Some(stored)` otherwise; `verify(password, hash)` is the
      hash check and `newHash` a new hash of the password. */
  function RepairAdmin(admin: Option<Option<string>>, verify: (string, string) -> bool, newHash: string)
    : (r: Option<Option<string>>)
    ensures r.Some? <==> admin.Some?
    ensures r != admin ==> r == Some(Some(newHash))
    ensures admin.Some? ==> (r == admin <==> verify(AdminPassword, StoredHash(admin.value)) || admin.value == Some(newHash))
  {
    match admin
    case None => None
    case Some(stored) =>
      if verify(AdminPassword, StoredHash(stored)) then admin else Some(Some(newHash))
  }

  /** When `newHash` is a hash of the password, the admin can log in with it
      after the repair. */
  lemma {:induction false} AdminCanLogIn(admin: Option<Option<string>>, verify: (string, string) -> bool, newHash: string)
    requires verify(AdminPassword, newHash)
    ensures var r := RepairAdmin(admin, verify, newHash);
      admin.Some? ==> verify(AdminPassword, StoredHash(r.value))
  {
  }

  /** Running start-up again changes nothing more, whatever new hash the second
      run draws. */
  lemma {:induction false} RepairIdempotent(admin: Option<Option<string>>, verify: (string, string) -> bool, newHash: string, again: string)
    requires verify(AdminPassword, newHash)
    ensures var r := RepairAdmin(admin, verify, newHash);
      RepairAdmin(r, verify, again) == r
  {
  }
}
