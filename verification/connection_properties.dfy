/** Properties of the connection-string parser: each field described by the
    first occurrences of the separators, the defaults, which text is
    discarded, and the round trips through the documented syntax. */
module ConnectionProperties {
  import opened Wrappers
  import opened Strings
  import opened Numbers
  import opened RedisClient

  // The grammar read by first occurrences, independently of `Split`.

  /** Everything before the first `/`. */
  function HostPart(s: string): string {
    Before(s, '/')
  }

  /** The database text: between the first `/` and the next one. */
  function DatabaseText(s: string): string {
    Before(After(s, '/'), '/')
  }

  /** The host part with the credential removed: between the first `@` and the next one. */
  function ServerPart(s: string): string {
    var host := HostPart(s);
    if '@' in host then Before(After(host, '@'), '@') else host
  }

  /** The credential: the host part before its first `@`, or empty without one. */
  function PasswordPart(s: string): string {
    var host := HostPart(s);
    if '@' in host then Before(host, '@') else ""
  }

  /** The address: the server part before its first `:`. */
  function AddressPart(s: string): string {
    Before(ServerPart(s), ':')
  }

  /** The port text: between the first `:` of the server part and the next one. */
  function PortText(s: string): string {
    Before(After(ServerPart(s), ':'), ':')
  }

  /** Every field of `Parse` is the first-occurrence reading of the input.
      The port is 6379 unless the server part has a `:` and the text between
      that `:` and the next one is an integer; the database is 0 unless the
      input has a `/` and the text between the first `/` and the next one is
      an integer. */
  lemma ParseFields(s: string)
    ensures Parse(s).address == AddressPart(s)
    ensures Parse(s).password == PasswordPart(s)
    ensures Parse(s).port ==
      (if ':' in ServerPart(s) && Atoi(PortText(s)).Some? then Atoi(PortText(s)).value else DefaultPort)
    ensures Parse(s).database ==
      (if '/' in s && Atoi(DatabaseText(s)).Some? then Atoi(DatabaseText(s)).value else DefaultDatabase)
  {
    SplitPieces(s, '/');
    var host := HostPart(s);
    if '/' !in s {
      assert Split(s, '/') == [s];
    }
    SplitPieces(host, '@');
    var server := ServerPart(s);
    if '@' !in host {
      assert Split(host, '@') == [host];
    }
    SplitPieces(server, ':');
    if ':' !in server {
      assert Split(server, ':') == [server];
    }
  }

  /** The record starts from its defaults: without a `:` in the server part
      the port stays 6379, without a `@` in the host part the password stays
      empty, and without a `/` the database stays 0. */
  lemma DefaultsKept(s: string)
    ensures ':' !in ServerPart(s) ==> Parse(s).port == DefaultPort
    ensures '@' !in HostPart(s) ==> Parse(s).password == ""
    ensures '/' !in s ==> Parse(s).database == DefaultDatabase
  {
    ParseFields(s);
  }

  /** A numeric segment that is not an integer never causes an error: the
      default stays in place. */
  lemma BadNumbersKeepDefaults(s: string)
    ensures Atoi(PortText(s)).None? ==> Parse(s).port == DefaultPort
    ensures Atoi(DatabaseText(s)).None? ==> Parse(s).database == DefaultDatabase
  {
    ParseFields(s);
  }

  /** Without any separator the whole input is the address and every other
      field keeps its default. */
  lemma ParsePlainInput(s: string)
    requires IsPlainAddress(s)
    ensures Parse(s) == ConnectionString(s, DefaultPort, "", DefaultDatabase)
  {
    SplitWithout(s, '/');
    SplitWithout(s, '@');
    SplitWithout(s, ':');
  }

  /** Text after a second `/` is dropped. */
  lemma DatabaseTailIgnored(host: string, db: string, tail: string)
    requires '/' !in host && '/' !in db
    ensures Parse(host + "/" + db + "/" + tail) == Parse(host + "/" + db)
  {
    assert host + "/" + db + "/" + tail == host + ['/'] + (db + ['/'] + tail);
    assert host + "/" + db == host + ['/'] + db;
    SplitAtFirst(host, db + ['/'] + tail, '/');
    SplitAtFirst(db, tail, '/');
    SplitTwo(host, db, '/');
  }


  /** Text after a second `@` is dropped. */
  lemma CredentialTailIgnored(password: string, server: string, tail: string)
    requires IsPlainPassword(password) && '@' !in server
    requires '/' !in server && '/' !in tail
    ensures Parse(password + "@" + server + "@" + tail) == Parse(password + "@" + server)
  {
    var long := password + "@" + server + "@" + tail;
    var short := password + "@" + server;
    assert long == password + ['@'] + (server + ['@'] + tail);
    assert short == password + ['@'] + server;
    SplitWithout(long, '/');
    SplitWithout(short, '/');
    SplitAtFirst(password, server + ['@'] + tail, '@');
    SplitAtFirst(server, tail, '@');
    SplitTwo(password, server, '@');
  }

  /** Text after a second `:` is dropped. */
  lemma PortTailIgnored(address: string, port: string, tail: string)
    requires IsPlainAddress(address)
    requires '/' !in port && '@' !in port && ':' !in port
    requires '/' !in tail && '@' !in tail
    ensures Parse(address + ":" + port + ":" + tail) == Parse(address + ":" + port)
  {
    var long := address + ":" + port + ":" + tail;
    var short := address + ":" + port;
    assert long == address + [':'] + (port + [':'] + tail);
    assert short == address + [':'] + port;
    SplitWithout(long, '/');
    SplitWithout(short, '/');
    SplitWithout(long, '@');
    SplitWithout(short, '@');
    SplitAtFirst(address, port + [':'] + tail, ':');
    SplitAtFirst(port, tail, ':');
    SplitTwo(address, port, ':');
  }

  /** `Parse` reads a string made of its three segments correctly once each
      split is known to cut at the segment boundaries. */
  lemma ParseOfSegments(s: string, host: string, dbText: Option<string>,
                        password: Option<string>, server: string,
                        address: string, portText: Option<string>)
    requires Split(s, '/') == (if dbText.Some? then [host, dbText.value] else [s])
    requires dbText.None? ==> s == host
    requires Split(host, '@') == (if password.Some? then [password.value, server] else [host])
    requires password.None? ==> host == server
    requires Split(server, ':') == (if portText.Some? then [address, portText.value] else [server])
    requires portText.None? ==> server == address
    ensures Parse(s) == ConnectionString(
              address,
              if portText.Some? then Atoi(portText.value).GetOr(DefaultPort) else DefaultPort,
              password.GetOr(""),
              if dbText.Some? then Atoi(dbText.value).GetOr(DefaultDatabase) else DefaultDatabase)
  {
  }

  /** The server text `address[:port]`: free of `/` and `@`, and cut by the
      port split exactly at the optional `:`. */
  lemma ServerSegments(address: string, portText: Option<string>)
    requires IsPlainAddress(address)
    requires portText.Some? ==> IsPlainAddress(portText.value)
    ensures var server := address + (if portText.Some? then [':'] + portText.value else "");
      && '/' !in server && '@' !in server
      && Split(server, ':') == (if portText.Some? then [address, portText.value] else [server])
      && (portText.None? ==> server == address)
  {
    if portText.Some? {
      assert address + ([':'] + portText.value) == address + [':'] + portText.value;
      SplitTwo(address, portText.value, ':');
    } else {
      assert address + "" == address;
      SplitWithout(address, ':');
    }
  }

  /** The host text `[password@]server`: free of `/`, and cut by the
      credential split exactly at the optional `@`. */
  lemma HostSegments(password: Option<string>, server: string)
    requires password.Some? ==> IsPlainPassword(password.value)
    requires '/' !in server && '@' !in server
    ensures var host := (if password.Some? then password.value + ['@'] else "") + server;
      && '/' !in host
      && Split(host, '@') == (if password.Some? then [password.value, server] else [host])
      && (password.None? ==> host == server)
  {
    if password.Some? {
      SplitTwo(password.value, server, '@');
    } else {
      assert "" + server == server;
      SplitWithout(server, '@');
    }
  }

  /** The whole text `host[/database]`, cut by the database split exactly at
      the optional `/`. */
  lemma ConnSegments(host: string, dbText: Option<string>)
    requires '/' !in host
    requires dbText.Some? ==> '/' !in dbText.value
    ensures var s := host + (if dbText.Some? then ['/'] + dbText.value else "");
      && Split(s, '/') == (if dbText.Some? then [host, dbText.value] else [s])
      && (dbText.None? ==> s == host)
  {
    if dbText.Some? {
      assert host + (['/'] + dbText.value) == host + ['/'] + dbText.value;
      SplitTwo(host, dbText.value, '/');
    } else {
      assert host + "" == host;
      SplitWithout(host, '/');
    }
  }

  /** Parsing a composed connection string gives back its segments: the
      address and password as written, the port and database as `Atoi` reads
      their texts, and the default for every segment that is absent or not a
      number. */
  lemma ParseComposed(address: string, password: Option<string>, portText: Option<string>, dbText: Option<string>)
    requires IsPlainAddress(address)
    requires password.Some? ==> IsPlainPassword(password.value)
    requires portText.Some? ==> IsPlainAddress(portText.value)
    requires dbText.Some? ==> '/' !in dbText.value
    ensures Parse(Compose(address, password, portText, dbText)) == ConnectionString(
              address,
              if portText.Some? then Atoi(portText.value).GetOr(DefaultPort) else DefaultPort,
              password.GetOr(""),
              if dbText.Some? then Atoi(dbText.value).GetOr(DefaultDatabase) else DefaultDatabase)
  {
    var server := address + (if portText.Some? then [':'] + portText.value else "");
    var host := (if password.Some? then password.value + ['@'] else "") + server;
    var s := host + (if dbText.Some? then ['/'] + dbText.value else "");
    ServerSegments(address, portText);
    HostSegments(password, server);
    ConnSegments(host, dbText);
    ParseOfSegments(s, host, dbText, password, server, address, portText);
  }

  /** Round trip: writing an address, an optional password and optional
      64-bit port and database numbers in the documented syntax and parsing
      the text gives them back, each absent segment taking its default. */
  lemma ComposeRoundTrip(address: string, password: Option<string>, port: Option<int>, database: Option<int>)
    requires IsPlainAddress(address)
    requires password.Some? ==> IsPlainPassword(password.value)
    requires port.Some? ==> InInt64(port.value)
    requires database.Some? ==> InInt64(database.value)
    ensures Parse(Compose(address, password, DecimalText(port), DecimalText(database)))
         == ConnectionString(address, port.GetOr(DefaultPort), password.GetOr(""), database.GetOr(DefaultDatabase))
  {
    if port.Some? {
      ItoaAvoids(port.value, '/');
      ItoaAvoids(port.value, '@');
      ItoaAvoids(port.value, ':');
      AtoiItoa(port.value);
    }
    if database.Some? {
      ItoaAvoids(database.value, '/');
      AtoiItoa(database.value);
    }
    ParseComposed(address, password, DecimalText(port), DecimalText(database));
  }

  /** Feeding the driver's dial address back to the parser keeps the address
      and the port; password and database take their defaults. */
  lemma DialAddressRoundTrip(c: ConnectionString)
    requires IsPlainAddress(c.address) && InInt64(c.port)
    ensures Parse(DialAddress(c)) == ConnectionString(c.address, c.port, "", DefaultDatabase)
  {
    var digits := Itoa(c.port);
    var d := DialAddress(c);
    assert d == c.address + [':'] + digits;
    ItoaAvoids(c.port, '/');
    ItoaAvoids(c.port, '@');
    ItoaAvoids(c.port, ':');
    AtoiItoa(c.port);
    SplitWithout(d, '/');
    SplitWithout(d, '@');
    SplitTwo(c.address, digits, ':');
  }

  /** The dial address built from any parsed connection string re-parses to
      the same address and port. */
  lemma DialAddressOfParse(s: string)
    ensures var c := Parse(s);
      Parse(DialAddress(c)) == ConnectionString(c.address, c.port, "", DefaultDatabase)
  {
    ParseShape(s);
    DialAddressRoundTrip(Parse(s));
  }
}
