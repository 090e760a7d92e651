/** The parser's expected results on the repository's own examples and on
    inputs that show which text it discards. Each lemma takes the input as a
    parameter fixed by its precondition, shows that it is the composition of
    its segments, and reads it back with the general results. The input is
    a parameter rather than a literal inside `Parse(...)` only to keep the
    verifier from evaluating the parser on the literal, which is costly. */
module TestVectors {
  import opened Wrappers
  import opened Numbers
  import opened RedisClient
  import opened ConnectionProperties

  /** The decimal texts used below, as `Itoa` writes them. */
  lemma DecimalSamples()
    ensures Itoa(0) == "0" && Itoa(1) == "1" && Itoa(3) == "3" && Itoa(5500) == "5500"
  {
    assert NatToDigits(550) == NatToDigits(55) + ['0'];
    assert NatToDigits(5500) == NatToDigits(550) + ['0'];
  }

  lemma FullStringWithDatabase(s: string)
    requires s == "password@localhost/0"
    ensures Parse(s) == ConnectionString("localhost", 6379, "password", 0)
  {
    var address, password, dbText := "localhost", "password", "0";
    assert s == Compose(address, Some(password), None, Some(dbText));
    assert Atoi(dbText) == Some(0) by { DecimalSamples(); AtoiItoa(0); }
    ParseComposed(address, Some(password), None, Some(dbText));
  }

  lemma HostOnly(s: string)
    requires s == "localhost"
    ensures Parse(s) == ConnectionString("localhost", 6379, "", 0)
  {
    ParsePlainInput(s);
  }

  lemma HostWithDatabase(s: string)
    requires s == "localhost/3"
    ensures Parse(s) == ConnectionString("localhost", 6379, "", 3)
  {
    var address, dbText := "localhost", "3";
    assert s == Compose(address, None, None, Some(dbText));
    assert Atoi(dbText) == Some(3) by { DecimalSamples(); AtoiItoa(3); }
    ParseComposed(address, None, None, Some(dbText));
  }

  lemma FullStringWithPortAndDatabase(s: string)
    requires s == "password@localhost:5500/3"
    ensures Parse(s) == ConnectionString("localhost", 5500, "password", 3)
  {
    var address, password, portText, dbText := "localhost", "password", "5500", "3";
    assert s == Compose(address, Some(password), Some(portText), Some(dbText));
    assert Atoi(portText) == Some(5500) by { DecimalSamples(); AtoiItoa(5500); }
    assert Atoi(dbText) == Some(3) by { DecimalSamples(); AtoiItoa(3); }
    ParseComposed(address, Some(password), Some(portText), Some(dbText));
  }

  lemma HostAndPassword(s: string)
    requires s == "password@localhost:5500"
    ensures Parse(s) == ConnectionString("localhost", 5500, "password", 0)
  {
    var address, password, portText := "localhost", "password", "5500";
    assert s == Compose(address, Some(password), Some(portText), None);
    assert Atoi(portText) == Some(5500) by { DecimalSamples(); AtoiItoa(5500); }
    ParseComposed(address, Some(password), Some(portText), None);
  }

  /** A port that is not a number leaves 6379 in place. */
  lemma NonNumericPort(s: string)
    requires s == "password@localhost:abc"
    ensures Parse(s) == ConnectionString("localhost", 6379, "password", 0)
  {
    var address, password, portText := "localhost", "password", "abc";
    assert s == Compose(address, Some(password), Some(portText), None);
    assert !IsDigit(portText[0]) && !IsSign(portText[0]);
    ParseComposed(address, Some(password), Some(portText), None);
  }

  lemma ShortDatabase(s: string)
    requires s == "h/1"
    ensures Parse(s) == ConnectionString("h", 6379, "", 1)
  {
    var address, dbText := "h", "1";
    assert s == Compose(address, None, None, Some(dbText));
    assert Atoi(dbText) == Some(1) by { DecimalSamples(); AtoiItoa(1); }
    ParseComposed(address, None, None, Some(dbText));
  }

  /** Only the text up to a second `/` counts: `h/1/2` selects database 1. */
  lemma SecondSlashDropped(s: string)
    requires s == "h/1/2"
    ensures Parse(s) == ConnectionString("h", 6379, "", 1)
  {
    var address, dbText, tail := "h", "1", "2";
    assert s == address + "/" + dbText + "/" + tail;
    DatabaseTailIgnored(address, dbText, tail);
    ShortDatabase(address + "/" + dbText);
  }

  lemma ShortPassword(s: string)
    requires s == "a@b"
    ensures Parse(s) == ConnectionString("b", 6379, "a", 0)
  {
    var password, address := "a", "b";
    assert s == Compose(address, Some(password), None, None);
    ParseComposed(address, Some(password), None, None);
  }

  /** Only the text up to a second `@` counts: `a@b@c` has password `a` and address `b`. */
  lemma SecondAtDropped(s: string)
    requires s == "a@b@c"
    ensures Parse(s) == ConnectionString("b", 6379, "a", 0)
  {
    var password, address, tail := "a", "b", "c";
    assert s == password + "@" + address + "@" + tail;
    CredentialTailIgnored(password, address, tail);
    ShortPassword(password + "@" + address);
  }

  lemma ShortPort(s: string)
    requires s == "h:1"
    ensures Parse(s) == ConnectionString("h", 1, "", 0)
  {
    var address, portText := "h", "1";
    assert s == Compose(address, None, Some(portText), None);
    assert Atoi(portText) == Some(1) by { DecimalSamples(); AtoiItoa(1); }
    ParseComposed(address, None, Some(portText), None);
  }

  /** Only the text up to a second `:` counts: `h:1:2` selects port 1. */
  lemma SecondColonDropped(s: string)
    requires s == "h:1:2"
    ensures Parse(s) == ConnectionString("h", 1, "", 0)
  {
    var address, portText, tail := "h", "1", "2";
    assert s == address + ":" + portText + ":" + tail;
    PortTailIgnored(address, portText, tail);
    ShortPort(address + ":" + portText);
  }

  /** The address may come out empty: for the empty input, and when the
      input starts with `/`. */
  lemma EmptyAddress(s: string, t: string)
    requires s == "" && t == "/3"
    ensures Parse(s) == ConnectionString("", 6379, "", 0)
    ensures Parse(t) == ConnectionString("", 6379, "", 3)
  {
    ParsePlainInput(s);
    var dbText := "3";
    assert t == Compose(s, None, None, Some(dbText));
    assert Atoi(dbText) == Some(3) by { DecimalSamples(); AtoiItoa(3); }
    ParseComposed(s, None, None, Some(dbText));
  }
}
