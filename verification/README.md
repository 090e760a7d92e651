# Redis client connection-string parser

A Dafny model of the connection-string parser of a small Go wrapper around a
Redis client. The wrapper is built from one text of the form

    [password@]address[:port][/database]

The method `parseConnectionString` turns that text into a
`RedisConnectionString` record (main.go:15-20) with the fields `Address`,
`Port`, `Password` and `Database`, in that order; the model's
`RedisClient.ConnectionString` has the same four fields in the same order.
The parser starts from port 6379 (main.go:99), and from database 0 and an
empty password as the zero values of the record literal (main.go:98-100), and overwrites each only when its segment is present.
When a client is built, the address and port are joined again into the
`host:port` dial address that the driver receives.

The model has six modules:

- `Wrappers` holds the `Option` type.
- `Strings` mirrors Go's `strings.Split` for a one-character separator. It
  splits at every occurrence, and an input without the separator gives one
  piece. The module also gives `Split` an inverse (`Join`) and a
  first-occurrence reading (`Before`/`After`).
- `Numbers` mirrors `strconv.Atoi` and `strconv.Itoa` for Go's `int` on a
  64-bit platform. The accepted syntax is an optional sign followed by
  decimal digits, and the value must lie in the signed 64-bit range.
- `RedisClient` holds the record (`ConnectionString`), the parser (`Parse`),
  the dial address (`DialAddress`), and a writer for the documented syntax
  (`Compose`).
- `ConnectionProperties` and `TestVectors` hold the properties:
  - each field equals an independent first-occurrence reading of the input;
  - the defaults (port 6379, database 0);
  - which separators a field can contain;
  - which text is discarded;
  - the round trips through the documented syntax and through the dial address;
  - the repository's own parser test cases.

## Behaviour worth noting

- The address can be empty: the inputs `""` and `"/3"` give an empty address.
- The parser splits at every occurrence of a separator and reads only pieces 0
  and 1 of each split. So text after a second `/` is always dropped. Within
  the text before the first `/`, text after a second `@` is dropped. Within
  the text after that `@`, text after a second `:` is dropped. A second `@`
  or `:` earlier in the input than a `/` or `@` still changes the result:
  `h:1:x@y` has address `y` and password `h:1:x`. The tail lemmas below state
  the exact conditions.
- `New` builds a fresh client on every call and overwrites the package-level
  client; the parsed record is not reused between calls.

## Model

| member | source | states |
|---|---|---|
| RedisClient.Parse | main.go:97-127 | The three passes of the parser, over `/`, then `@`, then `:`. Port and database always fit a 64-bit Go `int`. |
| RedisClient.ParseShape | main.go:101-124 | For every input, the parsed address contains no `/`, `@` or `:`, and the password contains no `@` or `/`. |
| ConnectionProperties.ParseFields | main.go:97-127 | Each field of `Parse` equals an independent reading by first occurrences. The address is the server part before its first `:`. The password is the host part before its first `@`, or empty. The port is the text between the first `:` of the server part and the next `:` when that text is an integer, otherwise 6379. The database is the text between the first `/` and the next `/` when that text is an integer, otherwise 0. |
| ConnectionProperties.DefaultsKept | main.go:98-104 | The record starts from its defaults: without a `:` in the server part the port is 6379, without a `@` in the host part the password is empty, and without a `/` the database is 0. |
| ConnectionProperties.BadNumbersKeepDefaults | main.go:107-123 | A port or database text that is not an integer never causes an error: the field keeps 6379 or 0. |
| ConnectionProperties.ParsePlainInput | main.go:98-104 | Input without `/`, `@` or `:` is the address itself, with port 6379, an empty password and database 0. |
| ConnectionProperties.DatabaseTailIgnored | main.go:101-109 | For a host part and database text free of `/`, appending `/tail` with any tail after the database segment does not change the result. |
| ConnectionProperties.CredentialTailIgnored | main.go:112-116 | In a string without `/`, with a password free of `@` and `/` and a server part free of `@`, appending `@tail` with a `/`-free tail after the server part does not change the result. |
| ConnectionProperties.PortTailIgnored | main.go:118-124 | After a plain `address:port` (no `/`, `@` or `:` in either part), appending `:tail` with a tail free of `/` and `@` does not change the result. |
| ConnectionProperties.ParseOfSegments | main.go:101-126 | Once each split is known to cut exactly at the segment boundaries, the parsed record is made of those segments, with defaults for absent or non-numeric numbers. |
| ConnectionProperties.ServerSegments | main.go:118-124 | `address[:port]` splits on `:` into exactly its address and port text. |
| ConnectionProperties.HostSegments | main.go:112-116 | `[password@]server` splits on `@` into exactly its password and server text. |
| ConnectionProperties.ConnSegments | main.go:101-110 | `host[/database]` splits on `/` into exactly its host and database text. |
| ConnectionProperties.ParseComposed | main.go:97-127 | Parsing text written in the documented syntax gives back the address and password as written. Port and database are what `Atoi` reads from their texts, or the defaults. |
| ConnectionProperties.ComposeRoundTrip | main.go:97-127 | Round trip: any separator-free address, any password without `@` or `/`, and any optional 64-bit port and database, written as text and parsed, come back unchanged. Absent parts take their defaults. |
| RedisClient.DialAddress | main.go:39 | The dial address is the address, a `:`, then the port's decimal text; when the address has no `:`, the first `:` separates exactly the address from the port text. |
| ConnectionProperties.DialAddressRoundTrip | main.go:39 | The `address:port` dial address of a record with a plain address parses back to the same address and port. |
| ConnectionProperties.DialAddressOfParse | main.go:35-39 | For every input, the dial address built from the parsed record re-parses to the same address and port. |
| Strings.FirstIndex | main.go:101 | The index at which the split cuts lies within the text. |
| Strings.FirstIndexSpec | main.go:101 | That index holds the separator, no earlier position does, and it equals the length exactly when the separator is absent. |
| Strings.Split | main.go:101 | `strings.Split` always returns at least one piece. |
| Strings.SplitSpec | main.go:102 | The split has exactly one piece iff the separator does not occur, and no piece contains the separator. |
| Strings.JoinSplit | main.go:101 | Joining the pieces of a split with the separator gives back the input. |
| Strings.SplitJoin | main.go:101 | Splitting the join of separator-free pieces gives back those pieces. |
| Strings.PieceAvoids | main.go:112-120 | A piece of a split contains no character that is absent from the input. This is how later passes inherit freedom from earlier separators. |
| Strings.SplitWithout | main.go:102-104 | Text without the separator splits into the single piece `[s]`. |
| Strings.SplitAtFirst | main.go:101 | The first piece ends at the first separator, and the rest is split again. |
| Strings.SplitTwo | main.go:101 | `p + sep + q` with separator-free `p` and `q` splits into exactly `[p, q]`. |
| Strings.Before | main.go:106 | The text before the first separator contains no separator, and it is the whole text when the separator is absent. |
| Strings.SplitHead | main.go:106 | Piece 0 of a split is the text before the first separator. |
| Strings.SplitSecond | main.go:107 | When the separator occurs there are at least two pieces, and piece 1 is the text between the first separator and the next one. |
| Strings.SplitPieces | main.go:106-107 | Piece 0 of a split is the text before the first separator. When the separator occurs, piece 1 is the text between the first separator and the next one. |
| Numbers.Atoi | main.go:107 | `strconv.Atoi` succeeds only on an optional sign followed by digits, and its result lies in the 64-bit range. An unsigned digit string is read as its decimal value when that value is at most 2^63-1, and is rejected otherwise. |
| Numbers.AtoiPlus | main.go:107 | A leading `+` does not change what `Atoi` reads. |
| Numbers.AtoiMinus | main.go:107 | A leading `-` before digits gives the negated value when it is at least -2^63, and an error otherwise (also when no digits follow). |
| Numbers.DigitChar | main.go:39 | The digit character written for a value below ten reads back as that value. |
| Numbers.NatToDigits | main.go:39 | The canonical decimal digits of a natural number: non-empty, all digits, with value equal to the number, and no leading zero. |
| Numbers.Itoa | main.go:39 | `strconv.Itoa` writes digits with a leading `-` exactly for negative numbers. |
| Numbers.AtoiItoa | main.go:39 | `Atoi` reads back every 64-bit integer that `Itoa` wrote. |
| Numbers.ItoaAvoids | main.go:39 | The decimal text of a number contains no character other than digits and `-`, in particular none of `/`, `@`, `:`. |
| TestVectors.DecimalSamples | main_test.go:24-101 | `Itoa` writes 0, 1, 3 and 5500 as the texts the test inputs use. |
| TestVectors.FullStringWithDatabase | main_test.go:24-36 | `password@localhost/0` gives address `localhost`, port 6379, password `password`, database 0. |
| TestVectors.HostOnly | main_test.go:37-49 | `localhost` gives address `localhost`, port 6379, an empty password, database 0. |
| TestVectors.HostWithDatabase | main_test.go:50-62 | `localhost/3` gives address `localhost`, port 6379, an empty password, database 3. |
| TestVectors.FullStringWithPortAndDatabase | main_test.go:63-75 | `password@localhost:5500/3` gives address `localhost`, port 5500, password `password`, database 3. |
| TestVectors.HostAndPassword | main_test.go:76-88 | `password@localhost:5500` gives address `localhost`, port 5500, password `password`, database 0. |
| TestVectors.NonNumericPort | main_test.go:89-101 | `password@localhost:abc` keeps port 6379. |
| TestVectors.ShortDatabase | main.go:101-109 | `h/1` selects database 1. |
| TestVectors.SecondSlashDropped | main.go:101-109 | `h/1/2` selects database 1: the text after a second `/` is dropped. |
| TestVectors.ShortPassword | main.go:112-116 | `a@b` has password `a` and address `b`. |
| TestVectors.SecondAtDropped | main.go:112-116 | `a@b@c` has password `a` and address `b`: the text after a second `@` is dropped. |
| TestVectors.ShortPort | main.go:118-124 | `h:1` selects port 1. |
| TestVectors.SecondColonDropped | main.go:118-124 | `h:1:2` selects port 1: the text after a second `:` is dropped. |
| TestVectors.EmptyAddress | main.go:101-106 | The empty input and `/3` both give an empty address. |

## Left out

- `New` (main.go:29-47): the construction of the driver client, its context and the package-level client are not modelled. Only the dial-address expression on line 39 is, as `DialAddress`. The password and database are handed to the driver unchanged.
- `Ping`, `Close`, `Set`, `SetExpiring`, `Get` and `GetAllKeys`: these pass calls through to the Redis driver. Network I/O, expiry times and the driver's behaviour are outside the model.
- The integration tests in `main_test.go` after line 110: they run against an in-memory Redis server.
- Numbers.Atoi: only the 64-bit platform is modelled, where Go's `int` is 64 bits wide. On a 32-bit platform the accepted range would be narrower.
- Numbers.Atoi: `strconv.Atoi`'s error values, which distinguish syntax errors from range errors, are collapsed into `None`. The parser only tests whether an error occurred.
- Strings are modelled as sequences of characters, while Go strings are byte sequences. This changes nothing here: the separators, signs and digits are ASCII, and UTF-8 never places an ASCII byte inside a multi-byte character.
- Strings.Split: only one-character separators are modelled, which are the only ones the parser uses. Go's special case for an empty separator does not arise.
