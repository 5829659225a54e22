/** The application settings record and the values derived from it: the
    CORS origin list, the MySQL, MongoDB and Redis connection URIs, and the
    Celery broker and result-backend fallbacks
    (backend/python-api/app/core/config.py). */
module Config {
  import opened Wrappers
  import opened PyStr
  import opened UriSyntax

  /** The fields of `Settings` that the derivations and the start-up
      validation read. */
  datatype Settings = Settings(
    environment: string,
    debug: bool,
    secretKey: string,
    mysqlHost: string,
    mysqlPort: int,
    mysqlUser: string,
    mysqlPassword: string,
    mysqlDatabase: string,
    mysqlSslMode: string,
    mongodbHost: string,
    mongodbPort: int,
    mongodbUser: string,
    mongodbPassword: string,
    mongodbDatabase: string,
    mongodbReplicaSet: Option<string>,
    mongodbSsl: bool,
    mongodbAuthSource: string,
    redisHost: string,
    redisPort: int,
    redisPassword: Option<string>,
    redisDb: int,
    redisSsl: bool,
    celeryBrokerUrl: Option<string>,
    celeryResultBackend: Option<string>)

  /** The field defaults; the secret key is generated at random when the
      environment does not set one, so it is a parameter here. */
  function DefaultSettings(secretKey: string): Settings {
    Settings(
      environment := "production",
      debug := false,
      secretKey := secretKey,
      mysqlHost := "localhost",
      mysqlPort := 3306,
      mysqlUser := "admin",
      mysqlPassword := "password",
      mysqlDatabase := "production_db",
      mysqlSslMode := "REQUIRED",
      mongodbHost := "localhost",
      mongodbPort := 27017,
      mongodbUser := "admin",
      mongodbPassword := "password",
      mongodbDatabase := "production_db",
      mongodbReplicaSet := Some("rs0"),
      mongodbSsl := true,
      mongodbAuthSource := "admin",
      redisHost := "localhost",
      redisPort := 6379,
      redisPassword := None,
      redisDb := 0,
      redisSsl := false,
      celeryBrokerUrl := None,
      celeryResultBackend := None)
  }

  // ---------------------------------------------------------------------
  // ENVIRONMENT

  datatype Environment = Development | Staging | Production

  function EnvironmentName(e: Environment): string {
    match e
    case Development => "development"
    case Staging => "staging"
    case Production => "production"
  }

  /** The pattern `^(development|staging|production)$` the field must match
      (a whole-text match: the pattern engine's `$` does not accept a
      trailing newline). */
  predicate ValidEnvironment(s: string) {
    s == "development" || s == "staging" || s == "production"
  }

  /** Reads an environment name; defined on exactly the names the pattern
      accepts. */
  function ParseEnvironment(s: string): (r: Option<Environment>)
    ensures r.Some? <==> ValidEnvironment(s)
    ensures r.Some? ==> EnvironmentName(r.value) == s
  {
    if s == "development" then Some(Development)
    else if s == "staging" then Some(Staging)
    else if s == "production" then Some(Production)
    else None
  }

  /** Every environment's name passes the pattern and reads back as itself. */
  lemma EnvironmentNameRoundTrip(e: Environment)
    ensures ValidEnvironment(EnvironmentName(e))
    ensures ParseEnvironment(EnvironmentName(e)) == Some(e)
  {
    assert "development"[0] != "staging"[0] && "staging"[0] != "production"[0];
    assert "development"[0] != "production"[0];
  }

  // ---------------------------------------------------------------------
  // CORS_ORIGINS

  /** What the `CORS_ORIGINS` validator receives: the raw environment text,
      or a list already. */
  datatype CorsInput = CorsText(text: string) | CorsList(origins: seq<string>)

  /** `assemble_cors_origins`: a text is split at every comma and each piece
      stripped of surrounding whitespace; a list passes through unchanged. */
  function AssembleCorsOrigins(v: CorsInput): (r: seq<string>)
    ensures v.CorsList? ==> r == v.origins
    ensures v.CorsText? ==>
      && |r| == multiset(v.text)[','] + 1
      && forall i :: 0 <= i < |r| ==> Stripped(r[i]) && ',' !in r[i]
  {
    match v
    case CorsList(origins) => origins
    case CorsText(text) => StripEach(Split(text, ','))
  }

  /** `[i.strip() for i in pieces]` */
  function StripEach(pieces: seq<string>): (r: seq<string>)
    ensures |r| == |pieces|
    ensures forall i :: 0 <= i < |r| ==> r[i] == Strip(pieces[i])
    ensures forall i :: 0 <= i < |r| ==> Stripped(r[i])
    ensures forall i :: 0 <= i < |r| ==> forall c :: c in r[i] ==> c in pieces[i]
  {
    var r := seq(|pieces|, i requires 0 <= i < |pieces| => Strip(pieces[i]));
    assert forall i :: 0 <= i < |r| ==> forall c :: c in r[i] ==> c in pieces[i] by {
      forall i | 0 <= i < |r| ensures forall c :: c in r[i] ==> c in pieces[i] {
        StripIsSlice(pieces[i]);
      }
    }
    r
  }

  lemma StripIsSlice(s: string)
    ensures forall c :: c in Strip(s) ==> c in s
  {
    var r := Strip(s);
    var k := SkipSpaces(s, 0);
    forall c | c in r ensures c in s {
      var i :| 0 <= i < |r| && r[i] == c;
      assert s[k + i] == c;
    }
  }

  /** Each origin read from a text is the corresponding comma-free piece of
      that text, stripped; the pieces joined by commas are the text. */
  lemma CorsEntriesArePieces(text: string)
    ensures var pieces := Split(text, ',');
      var r := AssembleCorsOrigins(CorsText(text));
      && Join(pieces, [',']) == text
      && |r| == |pieces|
      && forall i :: 0 <= i < |r| ==> ',' !in pieces[i] && r[i] == Strip(pieces[i])
  {
  }

  /** The empty text gives one empty origin, as `"".split(",")` does. */
  lemma CorsEmptyText()
    ensures AssembleCorsOrigins(CorsText("")) == [""]
  {
    assert Split("", ',') == [""];
    assert Strip("") == "";
  }

  /** Writing a list of clean origins as one comma-separated text, with any
      whitespace after each comma, and validating it gives back the list. */
  lemma CorsRoundTrip(origins: seq<string>, pad: string)
    requires |origins| >= 1 && AllSpace(pad)
    requires forall i :: 0 <= i < |origins| ==> ',' !in origins[i] && Stripped(origins[i])
    ensures AssembleCorsOrigins(CorsText(Join(origins, [','] + pad))) == origins
  {
    var pieces := Split(Join(origins, [','] + pad), ',');
    assert !IsSpace(',');
    SplitStripJoin(origins, ',', pad);
    assert |pieces| == |origins| && forall i :: 0 <= i < |origins| ==> Strip(pieces[i]) == origins[i];
    StripEachGives(pieces, origins);
  }

  lemma StripEachGives(pieces: seq<string>, r: seq<string>)
    requires |pieces| == |r| && forall i :: 0 <= i < |r| ==> Strip(pieces[i]) == r[i]
    ensures StripEach(pieces) == r
  {
  }

  /** Validating a validated list again, as text or as a list, changes
      nothing. */
  lemma CorsIdempotent(v: CorsInput)
    ensures var r := AssembleCorsOrigins(v);
      AssembleCorsOrigins(CorsList(r)) == r
    ensures v.CorsText? ==>
      var r := AssembleCorsOrigins(v);
      AssembleCorsOrigins(CorsText(Join(r, ","))) == r
  {
    if v.CorsText? {
      var r := AssembleCorsOrigins(v);
      assert [','] + "" == ",";
      CorsRoundTrip(r, "");
    }
  }

  // ---------------------------------------------------------------------
  // MYSQL_DATABASE_URI

  /** `MYSQL_DATABASE_URI` as written: the three adjacent f-string pieces
      form ONE string before the conditional applies, so the whole URI, not
      only its `?ssl=true` suffix, depends on the SSL mode. */
  function MySqlDatabaseUri(st: Settings): string {
    if st.mysqlSslMode == "REQUIRED" then MySqlBase(st) + "?ssl=true" else ""
  }

  /** The connection part of the MySQL URI: driver scheme, credentials,
      host, port and database. */
  function MySqlBase(st: Settings): string {
    "mysql+aiomysql://" + st.mysqlUser + ":" + st.mysqlPassword
    + "@" + st.mysqlHost + ":" + IntToDecimal(st.mysqlPort) + "/" + st.mysqlDatabase
  }

  /** The URI with the SSL suffix alone made conditional: what the property
      evidently means to build. */
  function MySqlDatabaseUriFixed(st: Settings): string {
    MySqlBase(st) + (if st.mysqlSslMode == "REQUIRED" then "?ssl=true" else "")
  }

  /** The MySQL fields hold no character that would end their part of the
      URI early. */
  predicate MySqlFieldsReadable(st: Settings) {
    && ':' !in st.mysqlUser && '@' !in st.mysqlUser && '/' !in st.mysqlUser
    && '?' !in st.mysqlUser && '#' !in st.mysqlUser
    && '@' !in st.mysqlPassword && '/' !in st.mysqlPassword
    && '?' !in st.mysqlPassword && '#' !in st.mysqlPassword
    && ':' !in st.mysqlHost && '@' !in st.mysqlHost && '/' !in st.mysqlHost
    && '?' !in st.mysqlHost && '#' !in st.mysqlHost
    && '?' !in st.mysqlDatabase && '#' !in st.mysqlDatabase
  }

  const MySqlScheme := "mysql+aiomysql"

  function MySqlConn(st: Settings, query: Option<string>): ConnUri {
    ConnUri(MySqlScheme, Some(Credentials(st.mysqlUser, st.mysqlPassword)),
            st.mysqlHost, IntToDecimal(st.mysqlPort), st.mysqlDatabase, query)
  }

  lemma MySqlConnWellFormed(st: Settings, query: Option<string>)
    requires MySqlFieldsReadable(st) && (query.Some? ==> '#' !in query.value)
    ensures WellFormed(MySqlConn(st, query))
  {
    MySqlSchemePlain();
    DecimalHasNoDelimiters(st.mysqlPort);
  }

  lemma MySqlSchemePlain()
    ensures ':' !in MySqlScheme && '/' !in MySqlScheme && '?' !in MySqlScheme && '#' !in MySqlScheme
  {
    assert forall i :: 0 <= i < |MySqlScheme| ==> MySqlScheme[i] in "mysql+aiomy";
  }

  lemma MySqlConnRender(st: Settings, query: Option<string>)
    ensures Render(MySqlConn(st, query)) == MySqlBase(st) + QueryText(query)
  {
    var u := MySqlConn(st, query);
    assert MySqlScheme + "://" == "mysql+aiomysql://";
    CredentialsHead(MySqlScheme, st.mysqlUser, st.mysqlPassword);
    RenderFrom(u, "mysql+aiomysql://" + st.mysqlUser + ":" + st.mysqlPassword + "@");
  }

  /** With SSL mode `REQUIRED` the URI names the user, password, host, port
      and database and asks for SSL. */
  lemma MySqlDatabaseUriRequired(st: Settings)
    requires st.mysqlSslMode == "REQUIRED" && MySqlFieldsReadable(st)
    ensures Parse(MySqlDatabaseUri(st)) == Some(MySqlConn(st, Some("ssl=true")))
    ensures ParseDecimal(Parse(MySqlDatabaseUri(st)).value.port) == st.mysqlPort
  {
    var u := MySqlConn(st, Some("ssl=true"));
    MySqlConnRender(st, u.query);
    assert QueryText(u.query) == "?ssl=true";
    MySqlConnWellFormed(st, u.query);
    ParseRender(u);
    ParseIntToDecimal(st.mysqlPort);
  }

  /** With any other SSL mode the URI is the empty string, which is no
      connection URI at all. */
  lemma MySqlUriEmptyUnlessRequired(st: Settings)
    ensures MySqlDatabaseUri(st) == "" <==> st.mysqlSslMode != "REQUIRED"
    ensures st.mysqlSslMode != "REQUIRED" ==> Parse(MySqlDatabaseUri(st)) == None
  {
  }

  /** The corrected URI always names the connection, asks for SSL exactly in
      mode `REQUIRED`, and agrees with the property as written there. */
  lemma MySqlDatabaseUriFixedParses(st: Settings)
    requires MySqlFieldsReadable(st)
    ensures Parse(MySqlDatabaseUriFixed(st)) ==
      Some(MySqlConn(st, if st.mysqlSslMode == "REQUIRED" then Some("ssl=true") else None))
    ensures st.mysqlSslMode == "REQUIRED" ==> MySqlDatabaseUriFixed(st) == MySqlDatabaseUri(st)
  {
    var u := MySqlConn(st, if st.mysqlSslMode == "REQUIRED" then Some("ssl=true") else None);
    MySqlConnRender(st, u.query);
    assert QueryText(u.query) == (if st.mysqlSslMode == "REQUIRED" then "?ssl=true" else "");
    MySqlConnWellFormed(st, u.query);
    ParseRender(u);
  }

  // ---------------------------------------------------------------------
  // MONGODB_URI

  /** `MONGODB_URI`: the connection part, then the SSL, replica-set and
      auth-source parameters, each written with its own leading separator. */
  function MongoDbUri(st: Settings): string {
    MongoDbBase(st) + MongoDbSslParam(st) + MongoDbReplicaParam(st) + MongoDbAuthParam(st)
  }

  /** The part of the MongoDB URI before any parameter. */
  function MongoDbBase(st: Settings): string {
    "mongodb://" + st.mongodbUser + ":" + st.mongodbPassword
    + "@" + st.mongodbHost + ":" + IntToDecimal(st.mongodbPort) + "/" + st.mongodbDatabase
  }

  const SslOption := "ssl=true"
  const CertOption := "ssl_cert_reqs=CERT_NONE"

  /** `?ssl=true&ssl_cert_reqs=CERT_NONE` when SSL is on (the one literal,
      written here in its parts). */
  function MongoDbSslParam(st: Settings): string {
    if st.mongodbSsl then "?" + SslOption + "&" + CertOption else ""
  }

  function ReplicaOption(st: Settings): string
    requires st.mongodbReplicaSet.Some?
  {
    "replicaSet=" + st.mongodbReplicaSet.value
  }

  function AuthOption(st: Settings): string {
    "authSource=" + st.mongodbAuthSource
  }

  /** `&replicaSet=<name>` when the replica-set name is truthy. */
  function MongoDbReplicaParam(st: Settings): string {
    if Truthy(st.mongodbReplicaSet) then "&" + ReplicaOption(st) else ""
  }

  /** `&authSource=<name>`, always. */
  function MongoDbAuthParam(st: Settings): string {
    "&" + AuthOption(st)
  }

  /** The replica-set and auth-source options, in the order they are
      written. */
  function MongoDbServerOptions(st: Settings): (r: seq<string>)
    ensures |r| >= 1
  {
    (if Truthy(st.mongodbReplicaSet) then [ReplicaOption(st)] else []) + [AuthOption(st)]
  }

  /** The connection options the URI carries, in the order it writes them. */
  function MongoDbOptions(st: Settings): (r: seq<string>)
    ensures |r| >= 1
  {
    (if st.mongodbSsl then [SslOption, CertOption] else []) + MongoDbServerOptions(st)
  }

  /** `x + (sep + y)` regrouped. */
  lemma Regroup(x: string, sep: string, y: string)
    ensures sep + x + (sep + y) == sep + (x + (sep + y))
  {
  }

  lemma JoinConsAssoc(p: string, rest: seq<string>, sep: string)
    requires |rest| >= 1
    ensures Join([p] + rest, sep) == p + (sep + Join(rest, sep))
  {
    JoinCons(p, rest, sep);
  }

  lemma MongoDbServerParams(st: Settings)
    ensures MongoDbReplicaParam(st) + MongoDbAuthParam(st) == "&" + Join(MongoDbServerOptions(st), "&")
  {
    var auth := AuthOption(st);
    if Truthy(st.mongodbReplicaSet) {
      var replica := ReplicaOption(st);
      assert MongoDbServerOptions(st) == [replica] + [auth];
      JoinConsAssoc(replica, [auth], "&");
      Regroup(replica, "&", auth);
    } else {
      assert MongoDbServerOptions(st) == [auth];
      assert MongoDbReplicaParam(st) + MongoDbAuthParam(st) == "&" + auth;
    }
  }

  lemma SslOptionsJoin(server: seq<string>)
    requires |server| >= 1
    ensures "?" + SslOption + "&" + CertOption + ("&" + Join(server, "&")) ==
      ['?'] + Join([SslOption, CertOption] + server, "&")
  {
    var j := Join(server, "&");
    var tail := [CertOption] + server;
    JoinConsAssoc(CertOption, server, "&");
    assert [SslOption, CertOption] + server == [SslOption] + tail;
    JoinConsAssoc(SslOption, tail, "&");
    var rest := CertOption + ("&" + j);
    ConcatAssoc("?" + SslOption + "&", CertOption, "&" + j);
    ConcatAssoc("?" + SslOption, "&", rest);
    ConcatAssoc("?", SslOption, "&" + rest);
  }

  lemma MongoDbAllParams(st: Settings)
    ensures MongoDbSslParam(st) + MongoDbReplicaParam(st) + MongoDbAuthParam(st) ==
      [if st.mongodbSsl then '?' else '&'] + Join(MongoDbOptions(st), "&")
  {
    MongoDbServerParams(st);
    var server := MongoDbServerOptions(st);
    var s, r, a := MongoDbSslParam(st), MongoDbReplicaParam(st), MongoDbAuthParam(st);
    ConcatAssoc(s, r, a);
    if st.mongodbSsl {
      SslOptionsJoin(server);
    } else {
      assert MongoDbOptions(st) == server;
    }
  }

  /** The URI is the connection part, one separator, and the options joined
      by `&`; that separator is `?` only when SSL is on, and `&` otherwise. */
  lemma MongoDbUriShape(st: Settings)
    ensures MongoDbUri(st) ==
      MongoDbBase(st) + [if st.mongodbSsl then '?' else '&'] + Join(MongoDbOptions(st), "&")
  {
    MongoDbAllParams(st);
    var b, s, r, a := MongoDbBase(st), MongoDbSslParam(st), MongoDbReplicaParam(st), MongoDbAuthParam(st);
    var sep := [if st.mongodbSsl then '?' else '&'];
    ConcatAssoc(b + s, r, a);
    ConcatAssoc(b, s, r + a);
    ConcatAssoc(s, r, a);
    ConcatAssoc(b, sep, Join(MongoDbOptions(st), "&"));
  }

  /** The MongoDB URI always begins with the connection part and always
      ends with the auth-source parameter. */
  lemma MongoDbUriFrame(st: Settings)
    ensures MongoDbBase(st) <= MongoDbUri(st)
    ensures var suffix := "&authSource=" + st.mongodbAuthSource;
      |suffix| <= |MongoDbUri(st)| && MongoDbUri(st)[|MongoDbUri(st)| - |suffix|..] == suffix
  {
    var b, s, r, a := MongoDbBase(st), MongoDbSslParam(st), MongoDbReplicaParam(st), MongoDbAuthParam(st);
    assert "&authSource=" + st.mongodbAuthSource == a;
    var x := b + s + r;
    assert (x + a)[|x|..] == a;
    ConcatAssoc(b + s, r, a);
    ConcatAssoc(b, s, r + a);
    assert b <= b + (s + (r + a));
  }

  /** The SSL options are present exactly when SSL is on, and then first;
      the replica-set option exactly when the name is truthy, and then just
      before the auth-source option, which always comes last. */
  lemma MongoDbOptionsPresence(st: Settings)
    ensures SslOption in MongoDbOptions(st) <==> st.mongodbSsl
    ensures CertOption in MongoDbOptions(st) <==> st.mongodbSsl
    ensures st.mongodbSsl ==> MongoDbOptions(st)[..2] == [SslOption, CertOption]
    ensures st.mongodbReplicaSet.Some? ==>
      (ReplicaOption(st) in MongoDbOptions(st) <==> Truthy(st.mongodbReplicaSet))
    ensures Truthy(st.mongodbReplicaSet) ==>
      MongoDbOptions(st)[|MongoDbOptions(st)| - 2] == ReplicaOption(st)
    ensures MongoDbOptions(st)[|MongoDbOptions(st)| - 1] == AuthOption(st)
    ensures |MongoDbOptions(st)| ==
      (if st.mongodbSsl then 2 else 0) + (if Truthy(st.mongodbReplicaSet) then 1 else 0) + 1
  {
    var opts := MongoDbOptions(st);
    var server := MongoDbServerOptions(st);
    assert SslOption[0] == 's' && CertOption[0] == 's' && CertOption != SslOption;
    assert AuthOption(st)[0] == 'a';
    if st.mongodbReplicaSet.Some? {
      assert ReplicaOption(st)[0] == 'r';
    }
    assert SslOption !in server && CertOption !in server;
  }

  /** The MongoDB fields hold no character that would end their part of the
      URI early. */
  predicate MongoDbFieldsReadable(st: Settings) {
    && ':' !in st.mongodbUser && '@' !in st.mongodbUser && '/' !in st.mongodbUser
    && '?' !in st.mongodbUser && '#' !in st.mongodbUser
    && '@' !in st.mongodbPassword && '/' !in st.mongodbPassword
    && '?' !in st.mongodbPassword && '#' !in st.mongodbPassword
    && ':' !in st.mongodbHost && '@' !in st.mongodbHost && '/' !in st.mongodbHost
    && '?' !in st.mongodbHost && '#' !in st.mongodbHost
    && '?' !in st.mongodbDatabase && '#' !in st.mongodbDatabase
    && (st.mongodbReplicaSet.Some? ==> '?' !in st.mongodbReplicaSet.value && '#' !in st.mongodbReplicaSet.value)
    && '?' !in st.mongodbAuthSource && '#' !in st.mongodbAuthSource
  }

  function MongoDbConn(st: Settings, path: string, query: Option<string>): ConnUri {
    ConnUri("mongodb", Some(Credentials(st.mongodbUser, st.mongodbPassword)),
            st.mongodbHost, IntToDecimal(st.mongodbPort), path, query)
  }

  lemma SslOptionsPlain()
    ensures '?' !in SslOption && '&' !in SslOption && '#' !in SslOption
    ensures '?' !in CertOption && '&' !in CertOption && '#' !in CertOption
  {
  }

  lemma OptionNamesPlain()
    ensures '?' !in "replicaSet=" && '&' !in "replicaSet=" && '#' !in "replicaSet="
    ensures '?' !in "authSource=" && '&' !in "authSource=" && '#' !in "authSource="
  {
  }

  /** No option holds `c` when no option name and no value does. */
  lemma MongoDbOptionsAvoid(st: Settings, c: char)
    requires c !in SslOption && c !in CertOption && c !in "replicaSet=" && c !in "authSource="
    requires st.mongodbReplicaSet.Some? ==> c !in st.mongodbReplicaSet.value
    requires c !in st.mongodbAuthSource
    ensures forall i :: 0 <= i < |MongoDbOptions(st)| ==> c !in MongoDbOptions(st)[i]
  {
    var server := MongoDbServerOptions(st);
    assert forall i :: 0 <= i < |server| ==> c !in server[i];
  }

  /** No option holds `?` or `#`. */
  lemma MongoDbOptionsPlain(st: Settings)
    requires MongoDbFieldsReadable(st)
    ensures forall i :: 0 <= i < |MongoDbOptions(st)| ==>
      '?' !in MongoDbOptions(st)[i] && '#' !in MongoDbOptions(st)[i]
  {
    SslOptionsPlain();
    OptionNamesPlain();
    MongoDbOptionsAvoid(st, '?');
    MongoDbOptionsAvoid(st, '#');
  }

  lemma JoinPlain(parts: seq<string>, c: char, sep: string)
    requires c !in sep
    requires forall i :: 0 <= i < |parts| ==> c !in parts[i]
    ensures c !in Join(parts, sep)
    decreases |parts|
  {
    if |parts| > 1 {
      JoinPlain(parts[1..], c, sep);
    }
  }

  /** Split at `&`, the options text gives back the options in order: SSL
      first, then the replica set, then the auth source. */
  lemma MongoDbOptionsSplit(st: Settings)
    requires st.mongodbReplicaSet.Some? ==> '&' !in st.mongodbReplicaSet.value
    requires '&' !in st.mongodbAuthSource
    ensures Split(Join(MongoDbOptions(st), "&"), '&') == MongoDbOptions(st)
  {
    SslOptionsPlain();
    OptionNamesPlain();
    MongoDbOptionsAvoid(st, '&');
    assert "&" == ['&'];
    SplitJoin(MongoDbOptions(st), '&');
  }

  lemma MongoDbConnRender(st: Settings, extra: string, query: Option<string>)
    ensures Render(MongoDbConn(st, st.mongodbDatabase + extra, query)) ==
      MongoDbBase(st) + extra + QueryText(query)
  {
    var u := MongoDbConn(st, st.mongodbDatabase + extra, query);
    var head := "mongodb://" + st.mongodbUser + ":" + st.mongodbPassword + "@";
    assert "mongodb" + "://" == "mongodb://";
    CredentialsHead("mongodb", st.mongodbUser, st.mongodbPassword);
    RenderFrom(u, head);
    var p := head + st.mongodbHost + ":" + u.port + "/";
    assert p + (st.mongodbDatabase + extra) == p + st.mongodbDatabase + extra;
  }

  lemma MongoDbConnWellFormed(st: Settings, path: string, query: Option<string>)
    requires MongoDbFieldsReadable(st) && '?' !in path && '#' !in path
    requires query.Some? ==> '#' !in query.value
    ensures WellFormed(MongoDbConn(st, path, query))
  {
    DecimalHasNoDelimiters(st.mongodbPort);
  }

  /** With SSL on, a client reads the database and all options correctly. */
  lemma MongoDbUriWithSsl(st: Settings)
    requires st.mongodbSsl && MongoDbFieldsReadable(st)
    ensures Parse(MongoDbUri(st)) ==
      Some(MongoDbConn(st, st.mongodbDatabase, Some(Join(MongoDbOptions(st), "&"))))
  {
    MongoDbUriFixedParses(st);
  }

  /** With SSL off there is no `?`: a client finds no options at all and
      takes the database name to run on through every parameter. */
  lemma MongoDbUriWithoutSsl(st: Settings)
    requires !st.mongodbSsl && MongoDbFieldsReadable(st)
    ensures Parse(MongoDbUri(st)) ==
      Some(MongoDbConn(st, st.mongodbDatabase + "&" + Join(MongoDbOptions(st), "&"), None))
    ensures Parse(MongoDbUri(st)).value.path != st.mongodbDatabase
  {
    var options := Join(MongoDbOptions(st), "&");
    var path := st.mongodbDatabase + "&" + options;
    var u := MongoDbConn(st, path, None);
    MongoDbUriAsRendered(st, options);
    MongoDbOptionsPlain(st);
    JoinPlain(MongoDbOptions(st), '?', "&");
    JoinPlain(MongoDbOptions(st), '#', "&");
    MongoDbConnWellFormed(st, path, None);
    ParseRender(u);
  }

  /** With SSL off the URI is the rendering of a connection whose path is
      the database name followed by `&` and the options. */
  lemma MongoDbUriAsRendered(st: Settings, options: string)
    requires !st.mongodbSsl && options == Join(MongoDbOptions(st), "&")
    ensures MongoDbUri(st) == Render(MongoDbConn(st, st.mongodbDatabase + "&" + options, None))
  {
    var b, db := MongoDbBase(st), st.mongodbDatabase;
    MongoDbUriShape(st);
    ConcatAssoc(db, "&", options);
    MongoDbConnRender(st, "&" + options, None);
    assert QueryText(None) == [];
    assert b + ("&" + options) + [] == b + ("&" + options);
    ConcatAssoc(b, "&", options);
  }

  /** The URI with the options always introduced by `?`. */
  function MongoDbUriFixed(st: Settings): string {
    MongoDbBase(st) + "?" + Join(MongoDbOptions(st), "&")
  }

  /** The corrected URI always gives the client the database and every
      option, and agrees with the property as written when SSL is on. */
  lemma MongoDbUriFixedParses(st: Settings)
    requires MongoDbFieldsReadable(st)
    ensures Parse(MongoDbUriFixed(st)) ==
      Some(MongoDbConn(st, st.mongodbDatabase, Some(Join(MongoDbOptions(st), "&"))))
    ensures st.mongodbSsl ==> MongoDbUriFixed(st) == MongoDbUri(st)
  {
    var options := Join(MongoDbOptions(st), "&");
    var u := MongoDbConn(st, st.mongodbDatabase, Some(options));
    MongoDbUriShape(st);
    MongoDbFixedRender(st, options);
    MongoDbOptionsPlain(st);
    JoinPlain(MongoDbOptions(st), '#', "&");
    MongoDbConnWellFormed(st, st.mongodbDatabase, Some(options));
    ParseRender(u);
  }

  lemma MongoDbFixedRender(st: Settings, options: string)
    requires options == Join(MongoDbOptions(st), "&")
    ensures Render(MongoDbConn(st, st.mongodbDatabase, Some(options))) == MongoDbUriFixed(st)
  {
    MongoDbConnRender(st, "", Some(options));
    assert st.mongodbDatabase + "" == st.mongodbDatabase;
    var b := MongoDbBase(st);
    assert b + "" + QueryText(Some(options)) == b + "?" + options;
  }

  // ---------------------------------------------------------------------
  // REDIS_URI

  /** `REDIS_URI`: the protocol, the password part, then host, port and
      database number. */
  function RedisUri(st: Settings): string {
    RedisProtocol(st) + "://" + RedisPasswordPart(st)
    + st.redisHost + ":" + IntToDecimal(st.redisPort) + "/" + IntToDecimal(st.redisDb)
  }

  /** `rediss` with SSL, `redis` without. */
  function RedisProtocol(st: Settings): string {
    if st.redisSsl then "rediss" else "redis"
  }

  /** `:password@` for a truthy password, nothing otherwise. */
  function RedisPasswordPart(st: Settings): string {
    if Truthy(st.redisPassword) then ":" + st.redisPassword.value + "@" else ""
  }

  /** The host and password hold no character that would end their part of
      the URI early. */
  predicate RedisFieldsReadable(st: Settings) {
    && ':' !in st.redisHost && '@' !in st.redisHost && '/' !in st.redisHost
    && '?' !in st.redisHost && '#' !in st.redisHost
    && (st.redisPassword.Some? ==>
          && '@' !in st.redisPassword.value && '/' !in st.redisPassword.value
          && '?' !in st.redisPassword.value && '#' !in st.redisPassword.value)
  }

  function RedisConn(st: Settings): ConnUri {
    ConnUri(
      RedisProtocol(st),
      if Truthy(st.redisPassword) then Some(Credentials("", st.redisPassword.value)) else None,
      st.redisHost, IntToDecimal(st.redisPort), IntToDecimal(st.redisDb), None)
  }

  lemma RedisConnRender(st: Settings)
    ensures Render(RedisConn(st)) == RedisUri(st)
  {
    var u := RedisConn(st);
    RenderFlat(u);
    if Truthy(st.redisPassword) {
      assert [] + ":" == ":";
    }
    assert CredentialsText(u.credentials) == RedisPasswordPart(st);
    assert QueryText(u.query) == [];
    var x := RedisUri(st);
    assert x + [] == x;
  }

  /** A client reads the Redis URI as: scheme `rediss` exactly when SSL is
      on, an (empty-user) password exactly when it is truthy, and the host,
      port and database number given, with nothing after them. */
  lemma RedisUriParses(st: Settings)
    requires RedisFieldsReadable(st)
    ensures Parse(RedisUri(st)) == Some(RedisConn(st))
    ensures ParseDecimal(Parse(RedisUri(st)).value.port) == st.redisPort
    ensures ParseDecimal(Parse(RedisUri(st)).value.path) == st.redisDb
  {
    DecimalHasNoDelimiters(st.redisPort);
    DecimalHasNoDelimiters(st.redisDb);
    var u := RedisConn(st);
    RedisConnRender(st);
    ParseRender(u);
    ParseIntToDecimal(st.redisPort);
    ParseIntToDecimal(st.redisDb);
  }

  /** The Redis URI always ends with `host:port/db`. */
  lemma RedisUriEndsWithDatabase(st: Settings)
    ensures var suffix := st.redisHost + ":" + IntToDecimal(st.redisPort) + "/" + IntToDecimal(st.redisDb);
      |suffix| <= |RedisUri(st)| && RedisUri(st)[|RedisUri(st)| - |suffix|..] == suffix
  {
    var h := RedisProtocol(st) + "://" + RedisPasswordPart(st);
    var host, port, db := st.redisHost, IntToDecimal(st.redisPort), IntToDecimal(st.redisDb);
    ConcatAssoc(h, host, ":");
    ConcatAssoc(h, host + ":", port);
    ConcatAssoc(h, host + ":" + port, "/");
    ConcatAssoc(h, host + ":" + port + "/", db);
    var suffix := host + ":" + port + "/" + db;
    assert (h + suffix)[|h|..] == suffix;
  }

  // ---------------------------------------------------------------------
  // CELERY_BROKER_URL_DEFAULT, CELERY_RESULT_BACKEND_DEFAULT

  /** `CELERY_BROKER_URL or REDIS_URI`: never empty. */
  function CeleryBrokerUrlDefault(st: Settings): (r: string)
    ensures r != ""
  {
    Or(st.celeryBrokerUrl, RedisUri(st))
  }

  /** `CELERY_RESULT_BACKEND or REDIS_URI`: never empty. */
  function CeleryResultBackendDefault(st: Settings): (r: string)
    ensures r != ""
  {
    Or(st.celeryResultBackend, RedisUri(st))
  }

  /** An explicit broker URL makes the broker default independent of every
      Redis field (of every other field, in fact). */
  lemma CeleryBrokerIgnoresRedis(st: Settings, other: Settings)
    requires Truthy(st.celeryBrokerUrl) && other.celeryBrokerUrl == st.celeryBrokerUrl
    ensures CeleryBrokerUrlDefault(other) == CeleryBrokerUrlDefault(st)
  {
  }

  /** An explicit result backend makes the result-backend default
      independent of every Redis field (of every other field, in fact). */
  lemma CeleryResultBackendIgnoresRedis(st: Settings, other: Settings)
    requires Truthy(st.celeryResultBackend) && other.celeryResultBackend == st.celeryResultBackend
    ensures CeleryResultBackendDefault(other) == CeleryResultBackendDefault(st)
  {
  }

  /** Without an explicit URL, a client reads the default as the Redis
      connection. */
  lemma CeleryFallbackIsRedis(st: Settings)
    requires !Truthy(st.celeryBrokerUrl) && !Truthy(st.celeryResultBackend)
    requires RedisFieldsReadable(st)
    ensures Parse(CeleryBrokerUrlDefault(st)) == Some(RedisConn(st))
    ensures Parse(CeleryResultBackendDefault(st)) == Some(RedisConn(st))
  {
    RedisUriParses(st);
  }
}
