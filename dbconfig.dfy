/** `getDbConfigFromEnv` of db.js and the rule that decides whether the
    MySQL pool is created. The environment is a map; `new URL(...)` is a
    parameter that yields the parsed components, or None when it throws. */
module DbConfig {
  import opened Js

  /** The components of a parsed connection URL, as the WHATWG `URL` object
      exposes them (`port` is "" when the URL names none). */
  datatype ParsedUrl = ParsedUrl(hostname: string, username: string, password: string, pathname: string, port: string)

  /** The `port` field: `Number(text)`, a variable's text used as it is (as
      the URL branch does with `MYSQLPORT || DB_PORT`), or the literal 3306. */
  datatype Port = NumberOf(text: string) | Text(text: string) | Literal(n: int)

  /** The resolved configuration; each text field is `undefined` (None) when
      nothing supplied it. */
  datatype Config = Config(host: Option<string>, user: Option<string>, password: Option<string>,
                           database: Option<string>, port: Port)

  /** The options db.js passes to `mysql.createPool`. */
  datatype PoolOptions = PoolOptions(host: string, user: string, password: string, database: string,
                                     port: Port, waitForConnections: bool, connectionLimit: nat)

  /** `MYSQL_URL || MYSQL_PUBLIC_URL || MYSQL_URL`. */
  function ConnectionUrl(env: Env): Option<string> {
    Or(Or(EnvVar(env, "MYSQL_URL"), EnvVar(env, "MYSQL_PUBLIC_URL")), EnvVar(env, "MYSQL_URL"))
  }

  /** The pathname with one leading `/` removed: `replace(/^\//, '')`. */
  function DatabaseFromPath(pathname: string): (db: string)
    ensures pathname != "" && pathname[0] == '/' ==> db == pathname[1..]
    ensures (pathname == "" || pathname[0] != '/') ==> db == pathname
  {
    if |pathname| > 0 && pathname[0] == '/' then pathname[1..] else pathname
  }

  /** The configuration built from a parsed URL (db.js:12-18). */
  function ConfigFromUrl(u: ParsedUrl, env: Env): (cfg: Config)
    ensures cfg.host == Some(u.hostname)
    ensures Truthy(cfg.user) <==> u.username != "" || Truthy(EnvVar(env, "MYSQLUSER")) || Truthy(EnvVar(env, "DB_USER"))
    ensures Truthy(cfg.password) <==> u.password != "" || Truthy(EnvVar(env, "MYSQLPASSWORD")) || Truthy(EnvVar(env, "DB_PASS"))
    ensures Truthy(cfg.database) <==>
      DatabaseFromPath(u.pathname) != "" || Truthy(EnvVar(env, "MYSQLDATABASE")) || Truthy(EnvVar(env, "DB_NAME"))
    ensures cfg.port.NumberOf? <==> u.port != ""
  {
    Config(
      Some(u.hostname),
      Or(Or(Some(u.username), EnvVar(env, "MYSQLUSER")), EnvVar(env, "DB_USER")),
      Or(Or(Some(u.password), EnvVar(env, "MYSQLPASSWORD")), EnvVar(env, "DB_PASS")),
      Or(Or(Some(DatabaseFromPath(u.pathname)), EnvVar(env, "MYSQLDATABASE")), EnvVar(env, "DB_NAME")),
      if u.port != "" then NumberOf(u.port)
      else if Truthy(EnvVar(env, "MYSQLPORT")) then Text(env["MYSQLPORT"])
      else if Truthy(EnvVar(env, "DB_PORT")) then Text(env["DB_PORT"])
      else Literal(3306))
  }

  /** The configuration built from the discrete variables (db.js:24-30). */
  function ConfigFromVariables(env: Env): (cfg: Config)
    ensures Truthy(cfg.host) <==> Truthy(EnvVar(env, "DB_HOST")) || Truthy(EnvVar(env, "MYSQLHOST")) || Truthy(EnvVar(env, "MYSQL_HOST"))
    ensures Truthy(cfg.user) <==> Truthy(EnvVar(env, "DB_USER")) || Truthy(EnvVar(env, "MYSQLUSER")) || Truthy(EnvVar(env, "MYSQL_USER"))
    ensures Truthy(cfg.password) <==>
      Truthy(EnvVar(env, "DB_PASS")) || Truthy(EnvVar(env, "MYSQLPASSWORD")) || Truthy(EnvVar(env, "MYSQL_PASSWORD"))
    ensures Truthy(cfg.database) <==>
      Truthy(EnvVar(env, "DB_NAME")) || Truthy(EnvVar(env, "MYSQLDATABASE")) || Truthy(EnvVar(env, "MYSQL_DATABASE"))
    ensures !cfg.port.Text?
  {
    Config(
      Or(Or(EnvVar(env, "DB_HOST"), EnvVar(env, "MYSQLHOST")), EnvVar(env, "MYSQL_HOST")),
      Or(Or(EnvVar(env, "DB_USER"), EnvVar(env, "MYSQLUSER")), EnvVar(env, "MYSQL_USER")),
      Or(Or(EnvVar(env, "DB_PASS"), EnvVar(env, "MYSQLPASSWORD")), EnvVar(env, "MYSQL_PASSWORD")),
      Or(Or(EnvVar(env, "DB_NAME"), EnvVar(env, "MYSQLDATABASE")), EnvVar(env, "MYSQL_DATABASE")),
      if Truthy(EnvVar(env, "DB_PORT")) then NumberOf(env["DB_PORT"])
      else if Truthy(EnvVar(env, "MYSQLPORT")) then NumberOf(env["MYSQLPORT"])
      else Literal(3306))
  }

  /** `getDbConfigFromEnv()`: the URL branch when a URL is configured and
      parses, the discrete variables otherwise. */
  function ConfigFromEnv(env: Env, parseUrl: string -> Option<ParsedUrl>): (cfg: Config)
    ensures Truthy(ConnectionUrl(env)) && parseUrl(ConnectionUrl(env).value).Some? ==>
      cfg == ConfigFromUrl(parseUrl(ConnectionUrl(env).value).value, env)
    ensures !Truthy(ConnectionUrl(env)) || parseUrl(ConnectionUrl(env).value).None? ==>
      cfg == ConfigFromVariables(env)
  {
    var url := ConnectionUrl(env);
    if Truthy(url) then
      match parseUrl(url.value)
      case Some(u) => ConfigFromUrl(u, env)
      case None => ConfigFromVariables(env)
    else ConfigFromVariables(env)
  }

  /** `cfg.host && cfg.user && cfg.password && cfg.database`. */
  predicate CreatesPool(cfg: Config): (creates: bool)
    ensures creates <==> forall v | v in [cfg.host, cfg.user, cfg.password, cfg.database] :: Truthy(v)
  {
    Truthy(cfg.host) && Truthy(cfg.user) && Truthy(cfg.password) && Truthy(cfg.database)
  }

  /** The module-level `pool`: created once from the configuration, with
      `waitForConnections` and a limit of 10 connections, or `null` (None). */
  function Pool(cfg: Config): (pool: Option<PoolOptions>)
    ensures pool.Some? <==> Truthy(cfg.host) && Truthy(cfg.user) && Truthy(cfg.password) && Truthy(cfg.database)
    ensures pool.Some? ==>
      && pool.value.host == cfg.host.value && pool.value.user == cfg.user.value
      && pool.value.password == cfg.password.value && pool.value.database == cfg.database.value
      && pool.value.port == cfg.port && pool.value.connectionLimit == 10 && pool.value.waitForConnections
  {
    if CreatesPool(cfg) then
      Some(PoolOptions(cfg.host.value, cfg.user.value, cfg.password.value, cfg.database.value, cfg.port, true, 10))
    else None
  }

  /** `MYSQL_URL` wins over `MYSQL_PUBLIC_URL`; the public URL is used only
      when `MYSQL_URL` is unset or empty. When the chosen URL parses, the
      host is its hostname. */
  lemma {:induction false} UrlPrecedence(env: Env, parseUrl: string -> Option<ParsedUrl>)
    ensures Truthy(EnvVar(env, "MYSQL_URL")) ==> ConnectionUrl(env) == EnvVar(env, "MYSQL_URL")
    ensures !Truthy(EnvVar(env, "MYSQL_URL")) && Truthy(EnvVar(env, "MYSQL_PUBLIC_URL")) ==>
      ConnectionUrl(env) == EnvVar(env, "MYSQL_PUBLIC_URL")
    ensures Truthy(ConnectionUrl(env)) <==> Truthy(EnvVar(env, "MYSQL_URL")) || Truthy(EnvVar(env, "MYSQL_PUBLIC_URL"))
    ensures Truthy(ConnectionUrl(env)) && parseUrl(ConnectionUrl(env).value).Some? ==>
      ConfigFromEnv(env, parseUrl).host == Some(parseUrl(ConnectionUrl(env).value).value.hostname)
  {
    OrChainIsFirstTruthy(EnvVar(env, "MYSQL_URL"), EnvVar(env, "MYSQL_PUBLIC_URL"), EnvVar(env, "MYSQL_URL"));
  }

  /** In the URL branch each credential comes from the URL when the URL
      has it, and otherwise from the first non-empty of its two fallbacks;
      the database is the pathname without its leading slash; the port is
      `Number(port)` when the URL has one, else `MYSQLPORT || DB_PORT || 3306`
      as text. The `MYSQL_USER`-style names play no part here. */
  lemma {:induction false} UrlBranchFallbacks(u: ParsedUrl, env: Env)
    ensures var cfg := ConfigFromUrl(u, env);
      && (u.username != "" ==> cfg.user == Some(u.username))
      && (u.username == "" ==> cfg.user == Or(EnvVar(env, "MYSQLUSER"), EnvVar(env, "DB_USER")))
      && (u.password != "" ==> cfg.password == Some(u.password))
      && (u.password == "" ==> cfg.password == Or(EnvVar(env, "MYSQLPASSWORD"), EnvVar(env, "DB_PASS")))
      && (DatabaseFromPath(u.pathname) != "" ==> cfg.database == Some(DatabaseFromPath(u.pathname)))
      && (DatabaseFromPath(u.pathname) == "" ==>
            cfg.database == Or(EnvVar(env, "MYSQLDATABASE"), EnvVar(env, "DB_NAME")))
      && (u.port != "" ==> cfg.port == NumberOf(u.port))
      && (u.port == "" && Truthy(EnvVar(env, "MYSQLPORT")) ==> cfg.port == Text(env["MYSQLPORT"]))
      && (u.port == "" && !Truthy(EnvVar(env, "MYSQLPORT")) && Truthy(EnvVar(env, "DB_PORT")) ==>
            cfg.port == Text(env["DB_PORT"]))
      && (u.port == "" && !Truthy(EnvVar(env, "MYSQLPORT")) && !Truthy(EnvVar(env, "DB_PORT")) ==>
            cfg.port == Literal(3306))
  {
  }

  /** Each discrete field is the first non-empty of its three names, in the
      order `DB_*`, `MYSQL*`, `MYSQL_*`, and is empty or missing only when all
      three are; the port is `Number(DB_PORT)`, else `Number(MYSQLPORT)`,
      else 3306. */
  lemma {:induction false} DiscreteBranchAliases(env: Env)
    ensures var cfg := ConfigFromVariables(env);
      && cfg.host == FirstTruthy([EnvVar(env, "DB_HOST"), EnvVar(env, "MYSQLHOST"), EnvVar(env, "MYSQL_HOST")])
      && cfg.user == FirstTruthy([EnvVar(env, "DB_USER"), EnvVar(env, "MYSQLUSER"), EnvVar(env, "MYSQL_USER")])
      && cfg.password == FirstTruthy([EnvVar(env, "DB_PASS"), EnvVar(env, "MYSQLPASSWORD"), EnvVar(env, "MYSQL_PASSWORD")])
      && cfg.database == FirstTruthy([EnvVar(env, "DB_NAME"), EnvVar(env, "MYSQLDATABASE"), EnvVar(env, "MYSQL_DATABASE")])
      && (Truthy(cfg.host) <==> Truthy(EnvVar(env, "DB_HOST")) || Truthy(EnvVar(env, "MYSQLHOST")) || Truthy(EnvVar(env, "MYSQL_HOST")))
      && (Truthy(EnvVar(env, "DB_PORT")) ==> cfg.port == NumberOf(env["DB_PORT"]))
      && (!Truthy(EnvVar(env, "DB_PORT")) && Truthy(EnvVar(env, "MYSQLPORT")) ==> cfg.port == NumberOf(env["MYSQLPORT"]))
      && (!Truthy(EnvVar(env, "DB_PORT")) && !Truthy(EnvVar(env, "MYSQLPORT")) ==> cfg.port == Literal(3306))
  {
    OrChainIsFirstTruthy(EnvVar(env, "DB_HOST"), EnvVar(env, "MYSQLHOST"), EnvVar(env, "MYSQL_HOST"));
    OrChainIsFirstTruthy(EnvVar(env, "DB_USER"), EnvVar(env, "MYSQLUSER"), EnvVar(env, "MYSQL_USER"));
    OrChainIsFirstTruthy(EnvVar(env, "DB_PASS"), EnvVar(env, "MYSQLPASSWORD"), EnvVar(env, "MYSQL_PASSWORD"));
    OrChainIsFirstTruthy(EnvVar(env, "DB_NAME"), EnvVar(env, "MYSQLDATABASE"), EnvVar(env, "MYSQL_DATABASE"));
  }

  /** The port plays no part in whether the pool is created. */
  lemma PortDoesNotMatter(cfg: Config, port: Port)
    ensures Pool(cfg).Some? <==> Pool(cfg.(port := port)).Some?
  {
  }

  /** With none of the host variables and no connection URL set, there is
      no pool, and the server falls back to its other stores. */
  lemma {:induction false} NoConfigurationNoPool(env: Env, parseUrl: string -> Option<ParsedUrl>)
    requires "MYSQL_URL" !in env && "MYSQL_PUBLIC_URL" !in env
    requires "DB_HOST" !in env && "MYSQLHOST" !in env && "MYSQL_HOST" !in env
    ensures Pool(ConfigFromEnv(env, parseUrl)) == None
  {
    DiscreteBranchAliases(env);
  }

  /** A parseable URL without credentials makes a pool only through
      `MYSQLUSER`/`DB_USER`: `MYSQL_USER`, which the discrete branch accepts,
      is not consulted, so setting only it leaves the pool `null`. */
  lemma {:induction false} UrlBranchIgnoresUnderscoreUser(env: Env, parseUrl: string -> Option<ParsedUrl>)
    requires Truthy(ConnectionUrl(env))
    requires parseUrl(ConnectionUrl(env).value).Some?
    requires parseUrl(ConnectionUrl(env).value).value.username == ""
    requires "MYSQLUSER" !in env && "DB_USER" !in env
    ensures Pool(ConfigFromEnv(env, parseUrl)) == None
  {
    UrlBranchFallbacks(parseUrl(ConnectionUrl(env).value).value, env);
  }
}
