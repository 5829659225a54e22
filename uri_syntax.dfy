/** The shape of the connection URIs the settings build,
    `scheme://[user:password@]host:port/path[?query]`, and how a client
    library reads one back into its parts. The reader splits each part at
    the first delimiter that ends it, as the generic syntax of RFC 3986,
    section 3, does. A text that RFC 3986 would read differently is refused:
    one with a fragment (`#`), a `/` or `?` before the scheme's `:`, or a `?`
    inside the authority. Percent-encoding is not modelled. The reader is
    the inverse the URI builders are checked against. */
module UriSyntax {
  import opened Wrappers
  import opened PyStr

  datatype Credentials = Credentials(user: string, password: string)

  datatype ConnUri = ConnUri(
    scheme: string,
    credentials: Option<Credentials>,
    host: string,
    port: string,
    path: string,
    query: Option<string>)

  function CredentialsText(c: Option<Credentials>): string {
    match c
    case None => ""
    case Some(Credentials(user, password)) => user + ":" + password + "@"
  }

  function QueryText(q: Option<string>): string {
    match q
    case None => ""
    case Some(text) => "?" + text
  }

  /** `[user:password@]host:port` */
  function AuthorityText(c: Option<Credentials>, host: string, port: string): string {
    CredentialsText(c) + host + ":" + port
  }

  /** `path[?query]` */
  function PathQueryText(path: string, q: Option<string>): string {
    path + QueryText(q)
  }

  /** Everything after `scheme:`. */
  function HierarchyText(u: ConnUri): string {
    "//" + AuthorityText(u.credentials, u.host, u.port) + "/" + PathQueryText(u.path, u.query)
  }

  /** The text of a connection URI. */
  function Render(u: ConnUri): string {
    u.scheme + ":" + HierarchyText(u)
  }

  /** The text of a connection URI, written out part by part. */
  lemma RenderFlat(u: ConnUri)
    ensures Render(u) ==
      u.scheme + "://" + CredentialsText(u.credentials) + u.host + ":" + u.port + "/" + u.path + QueryText(u.query)
  {
    var a := AuthorityText(u.credentials, u.host, u.port);
    var h := "//" + a + "/" + PathQueryText(u.path, u.query);
    assert Render(u) == u.scheme + ":" + h;
    assert u.scheme + ":" + h == u.scheme + "://" + a + "/" + u.path + QueryText(u.query);
  }

  /** The same text, with everything up to the credentials given as one
      piece. */
  lemma RenderFrom(u: ConnUri, head: string)
    requires head == u.scheme + "://" + CredentialsText(u.credentials)
    ensures Render(u) == head + u.host + ":" + u.port + "/" + u.path + QueryText(u.query)
  {
    RenderFlat(u);
  }

  /** The credentials part written out. */
  lemma CredentialsHead(scheme: string, user: string, password: string)
    ensures scheme + "://" + CredentialsText(Some(Credentials(user, password))) ==
      scheme + "://" + user + ":" + password + "@"
  {
    var x := scheme + "://";
    assert x + (user + ":" + password + "@") == x + user + ":" + password + "@";
  }

  /** The parts can be read back only if no part holds a character that
      delimits the parts after it, or a `#`, which would start a fragment. */
  predicate WellFormed(u: ConnUri) {
    && ':' !in u.scheme && '/' !in u.scheme && '?' !in u.scheme && '#' !in u.scheme
    && (u.credentials.Some? ==>
          && ':' !in u.credentials.value.user
          && '@' !in u.credentials.value.user
          && '/' !in u.credentials.value.user
          && '?' !in u.credentials.value.user
          && '#' !in u.credentials.value.user
          && '@' !in u.credentials.value.password
          && '/' !in u.credentials.value.password
          && '?' !in u.credentials.value.password
          && '#' !in u.credentials.value.password)
    && ':' !in u.host && '@' !in u.host && '/' !in u.host && '?' !in u.host && '#' !in u.host
    && ':' !in u.port && '@' !in u.port && '/' !in u.port && '?' !in u.port && '#' !in u.port
    && '?' !in u.path && '#' !in u.path
    && (u.query.Some? ==> '#' !in u.query.value)
  }

  function ParseHostPort(credentials: Option<Credentials>, hostPort: string): Option<(Option<Credentials>, string, string)> {
    match Partition(hostPort, ':')
    case None => None
    case Some((host, port)) => Some((credentials, host, port))
  }

  /** Reads `[user:password@]host:port`. */
  function ParseAuthority(authority: string): Option<(Option<Credentials>, string, string)> {
    match Partition(authority, '@')
    case None => ParseHostPort(None, authority)
    case Some((userInfo, hostPort)) =>
      match Partition(userInfo, ':')
      case None => None
      case Some((user, password)) => ParseHostPort(Some(Credentials(user, password)), hostPort)
  }

  /** Reads `path[?query]`. */
  function ParsePathQuery(s: string): (string, Option<string>) {
    match Partition(s, '?')
    case None => (s, None)
    case Some((path, query)) => (path, Some(query))
  }

  /** Reads a connection URI; `None` when the text has a fragment, no
      `scheme://`, no `/` after the authority, or no `:` before the port. */
  function Parse(s: string): Option<ConnUri> {
    if '#' in s then None
    else
      match Partition(s, ':')
      case None => None
      case Some((scheme, afterScheme)) =>
        if '/' in scheme || '?' in scheme then None else ParseHierarchy(scheme, afterScheme)
  }

  /** Reads `//authority/path[?query]` after the scheme. */
  function ParseHierarchy(scheme: string, afterScheme: string): Option<ConnUri> {
    if |afterScheme| < 2 || afterScheme[..2] != "//" then None
    else
      match Partition(afterScheme[2..], '/')
      case None => None
      case Some((authority, pathQuery)) =>
        if '?' in authority then None
        else
          match ParseAuthority(authority)
          case None => None
          case Some((credentials, host, port)) =>
            Some(ConnUri(scheme, credentials, host, port, ParsePathQuery(pathQuery).0, ParsePathQuery(pathQuery).1))
  }

  lemma ParseAuthorityRender(c: Option<Credentials>, host: string, port: string)
    requires c.Some? ==> ':' !in c.value.user && '@' !in c.value.user && '@' !in c.value.password
    requires ':' !in host && '@' !in host && '@' !in port
    ensures ParseAuthority(AuthorityText(c, host, port)) == Some((c, host, port))
  {
    var hostPort := host + ":" + port;
    PartitionAt(host, ':', port);
    match c
    case None =>
      assert AuthorityText(c, host, port) == hostPort;
    case Some(Credentials(user, password)) =>
      var userInfo := user + ":" + password;
      AuthorityWithCredentials(userInfo, host, port);
      assert AuthorityText(c, host, port) == userInfo + ['@'] + hostPort;
      PartitionAt(userInfo, '@', hostPort);
      PartitionAt(user, ':', password);
  }

  lemma AuthorityWithCredentials(userInfo: string, host: string, port: string)
    ensures userInfo + "@" + host + ":" + port == userInfo + ['@'] + (host + ":" + port)
  {
    var x := userInfo + "@";
    assert x + host + ":" == x + (host + ":");
  }

  lemma ParsePathQueryRender(path: string, q: Option<string>)
    requires '?' !in path
    ensures ParsePathQuery(PathQueryText(path, q)) == (path, q)
  {
    match q
    case None =>
      assert PathQueryText(path, q) == path;
    case Some(text) =>
      assert PathQueryText(path, q) == path + ['?'] + text;
      PartitionAt(path, '?', text);
  }

  /** Dropping the leading `//` of `//a/p`. */
  lemma DropSlashes(a: string, p: string)
    ensures |"//" + a + "/" + p| >= 2
    ensures ("//" + a + "/" + p)[..2] == "//"
    ensures ("//" + a + "/" + p)[2..] == a + ['/'] + p
  {
    var h := "//" + a + "/" + p;
    assert h == ['/', '/'] + (a + ['/'] + p);
  }

  lemma ParseHierarchyRender(u: ConnUri)
    requires WellFormed(u)
    ensures ParseHierarchy(u.scheme, HierarchyText(u)) == Some(u)
  {
    var a := AuthorityText(u.credentials, u.host, u.port);
    var p := PathQueryText(u.path, u.query);
    DropSlashes(a, p);
    assert '/' !in CredentialsText(u.credentials);
    assert '/' !in a && '?' !in a;
    PartitionAt(a, '/', p);
    ParseAuthorityRender(u.credentials, u.host, u.port);
    ParsePathQueryRender(u.path, u.query);
  }

  /** Reading a rendered well-formed URI gives back every part. */
  lemma ParseRender(u: ConnUri)
    requires WellFormed(u)
    ensures Parse(Render(u)) == Some(u)
  {
    NoFragment(u);
    assert Render(u) == u.scheme + [':'] + HierarchyText(u);
    PartitionAt(u.scheme, ':', HierarchyText(u));
    ParseHierarchyRender(u);
  }

  /** A well-formed URI renders without a `#`. */
  lemma NoFragment(u: ConnUri)
    requires WellFormed(u)
    ensures '#' !in Render(u)
  {
    RenderFlat(u);
    assert '#' !in CredentialsText(u.credentials);
    assert '#' !in QueryText(u.query);
  }

  lemma RenderParseAuthority(authority: string)
    requires ParseAuthority(authority).Some?
    ensures var (c, host, port) := ParseAuthority(authority).value;
      AuthorityText(c, host, port) == authority
  {
    match Partition(authority, '@')
    case None =>
      var (host, port) := Partition(authority, ':').value;
      assert AuthorityText(None, host, port) == host + [':'] + port;
    case Some((userInfo, hostPort)) =>
      var (user, password) := Partition(userInfo, ':').value;
      var (host, port) := Partition(hostPort, ':').value;
      assert userInfo == user + ":" + password;
      assert hostPort == host + ":" + port;
      AuthorityWithCredentials(userInfo, host, port);
      assert AuthorityText(Some(Credentials(user, password)), host, port) == userInfo + ['@'] + hostPort;
  }

  lemma RenderParsePathQuery(s: string)
    ensures var (path, q) := ParsePathQuery(s); PathQueryText(path, q) == s
  {
  }

  lemma RenderParseHierarchy(scheme: string, afterScheme: string)
    requires ParseHierarchy(scheme, afterScheme).Some?
    ensures var u := ParseHierarchy(scheme, afterScheme).value;
      u.scheme == scheme && HierarchyText(u) == afterScheme
  {
    var (authority, pathQuery) := Partition(afterScheme[2..], '/').value;
    var (c, host, port) := ParseAuthority(authority).value;
    var (path, q) := ParsePathQuery(pathQuery);
    assert ParseHierarchy(scheme, afterScheme).value == ConnUri(scheme, c, host, port, path, q);
    RenderParseAuthority(authority);
    RenderParsePathQuery(pathQuery);
    HierarchyParts(afterScheme, authority, pathQuery);
  }

  /** `//authority/pathQuery` put back together. */
  lemma HierarchyParts(afterScheme: string, authority: string, pathQuery: string)
    requires |afterScheme| >= 2 && afterScheme[..2] == "//"
    requires afterScheme[2..] == authority + ['/'] + pathQuery
    ensures afterScheme == "//" + authority + "/" + pathQuery
  {
    DropSlashes(authority, pathQuery);
    assert afterScheme == afterScheme[..2] + afterScheme[2..];
  }

  /** Conversely, whatever the reader accepts is exactly the rendering of
      what it read: the reader drops nothing. */
  lemma RenderParse(s: string)
    requires Parse(s).Some?
    ensures Render(Parse(s).value) == s
  {
    var scheme, afterScheme := Partition(s, ':').value.0, Partition(s, ':').value.1;
    RenderParseHierarchy(scheme, afterScheme);
    assert s == scheme + ":" + afterScheme;
  }
}
