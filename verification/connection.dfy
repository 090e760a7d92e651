/** The connection-string parser of the Redis client wrapper: the text
    `[password@]address[:port][/database]` becomes a `ConnectionString`. */
module RedisClient {
  import opened Wrappers
  import opened Strings
  import opened Numbers

  const DefaultPort: int := 6379
  const DefaultDatabase: int := 0

  /** The parsed connection parameters. An empty password means that no
      authentication is used. */
  datatype ConnectionString = ConnectionString(address: string, port: int, password: string, database: int)

  /** An address as the parser can produce it: none of the three separators. */
  predicate IsPlainAddress(s: string) {
    '/' !in s && '@' !in s && ':' !in s
  }

  /** A password as the parser can produce it: no `@` and no `/` (a `:` is allowed). */
  predicate IsPlainPassword(s: string) {
    '@' !in s && '/' !in s
  }

  /** The three passes of `parseConnectionString`, each on the address left by
      the previous one. Only the pieces at index 0 and 1 of each split are
      read; a numeric piece that does not parse leaves the default in place. */
  function Parse(connString: string): (r: ConnectionString)
    ensures InInt64(r.port) && InInt64(r.database)
  {
    // Database: split on '/'.
    var serverDbParts := Split(connString, '/');
    var address1 := if |serverDbParts| == 1 then connString else serverDbParts[0];
    var database := if |serverDbParts| == 1 then DefaultDatabase else Atoi(serverDbParts[1]).GetOr(DefaultDatabase);
    // Password: split on '@'.
    var serverUserParts := Split(address1, '@');
    var address2 := if |serverUserParts| > 1 then serverUserParts[1] else address1;
    var password := if |serverUserParts| > 1 then serverUserParts[0] else "";
    // Port: split on ':'.
    var serverPortParts := Split(address2, ':');
    var address3 := if |serverPortParts| > 1 then serverPortParts[0] else address2;
    var port := if |serverPortParts| > 1 then Atoi(serverPortParts[1]).GetOr(DefaultPort) else DefaultPort;
    ConnectionString(address3, port, password, database)
  }

  /** Whatever the input, the address holds none of the separators and the
      password neither `@` nor `/`: each is a piece of a split on those
      characters, taken from text already free of the earlier ones. */
  lemma ParseShape(connString: string)
    ensures IsPlainAddress(Parse(connString).address)
    ensures IsPlainPassword(Parse(connString).password)
  {
    var serverDbParts := Split(connString, '/');
    SplitSpec(connString, '/');
    var address1 := if |serverDbParts| == 1 then connString else serverDbParts[0];
    assert '/' !in address1;
    var serverUserParts := Split(address1, '@');
    SplitSpec(address1, '@');
    var address2 := if |serverUserParts| > 1 then serverUserParts[1] else address1;
    if |serverUserParts| > 1 {
      PieceAvoids(address1, '@', '/', 0);
      PieceAvoids(address1, '@', '/', 1);
    }
    assert '/' !in address2 && '@' !in address2;
    var serverPortParts := Split(address2, ':');
    SplitSpec(address2, ':');
    if |serverPortParts| > 1 {
      PieceAvoids(address2, ':', '/', 0);
      PieceAvoids(address2, ':', '@', 0);
    }
  }

  /** The `host:port` text handed to the Redis driver when a client is built. */
  function DialAddress(c: ConnectionString): (d: string)
    ensures |d| > |c.address| && d[..|c.address|] == c.address && d[|c.address|] == ':'
    ensures ':' !in c.address ==> Before(d, ':') == c.address && After(d, ':') == Itoa(c.port)
  {
    var d := c.address + ":" + Itoa(c.port);
    FirstIndexSpec(d, ':');
    assert forall j :: 0 <= j < |c.address| ==> d[j] == c.address[j];
    assert d[|c.address| + 1..] == Itoa(c.port);
    d
  }

  /** Writes a connection string in the documented syntax from its segment
      texts, each optional segment present exactly when it is `Some`. */
  function Compose(address: string, password: Option<string>, portText: Option<string>, dbText: Option<string>): string {
    var server := address + (if portText.Some? then [':'] + portText.value else "");
    var host := (if password.Some? then password.value + ['@'] else "") + server;
    host + (if dbText.Some? then ['/'] + dbText.value else "")
  }

  /** The decimal text of an optional number, as `strconv.Itoa` writes it. */
  function DecimalText(n: Option<int>): Option<string> {
    if n.Some? then Some(Itoa(n.value)) else None
  }
}
