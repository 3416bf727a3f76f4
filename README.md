# Greeting service: request logic in Dafny

A model of the request logic of a small Go HTTP service (`main.go`). The
service answers `GET /?name=…` with a greeting: a name of fewer than five
bytes gets `"Hello <name>! Your name is to short\n"`, any other name gets
`"Hi <name>"`. The greeting function returns an error beside its reply, and
the handler would answer 500 with the error text if it were ever set; it
never is.

Go strings are byte strings and Go's `len` counts bytes, so names are byte
sequences here (`Utf8.Bytes`) and the threshold is on bytes. The module
`Utf8` holds the UTF-8 encoding of Dafny strings, only to state how the byte
threshold relates to a character count: five characters always suffice, and
a four-character name with one non-ASCII character (`"José"`) is already
long enough.

Modules:
- `Utf8` (`utf8.dfy`): the byte type, ASCII literals, UTF-8 encoding and its length facts.
- `Wrappers`, `Greetings` (`greeting.dfy`): `Option`, the greeting, a parser that reads a reply back, and the lemmas about them.
- `Handler` (`handler.dfy`): the query lookup, the mapping from the greeting's outcome to a response, and the handler.

## Model

| member | source | states |
|---|---|---|
| Greetings.Greeting | main.go:159-170 | the error is always nil; the reply is the name plus 30 bytes when the name has fewer than 5 bytes, plus 3 otherwise |
| Greetings.Branch | main.go:163-169 | the reply starts with "Hello " exactly when the name has fewer than 5 bytes, and with "Hi " exactly when it has 5 or more |
| Greetings.ParseReplyCorrect | main.go:163-169 | a byte string is the greeting for a name if and only if parsing it (prefix "Hello " and suffix "! Your name is to short\n" around a name under 5 bytes, or prefix "Hi " before a name of 5 bytes or more) gives that name |
| Greetings.ParseGreeting | main.go:163-169 | round trip: parsing the greeting for a name gives the name back |
| Greetings.GreetingInjective | main.go:163-169 | distinct names get distinct replies |
| Greetings.Boundary | main.go:163-169 | the 4-byte name "abcd" gets "Hello abcd! Your name is to short\n" and the 5-byte name "abcde" gets "Hi abcde" |
| Greetings.EmptyName | main.go:163-165 | the empty name gets "Hello ! Your name is to short\n" |
| Greetings.LongInCharacters | main.go:163 | any name of five or more characters, UTF-8 encoded, gets the "Hi " reply |
| Greetings.AsciiBranch | main.go:163 | for ASCII names the "Hello " reply is given exactly when the name has fewer than five characters |
| Greetings.ThresholdCountsBytes | main.go:163 | the four-character name "José" is five bytes and gets "Hi José": the threshold counts bytes, not characters |
| Handler.QueryGet | main.go:148 | the name is the first value of the `name` parameter, or empty when the parameter is absent or has no value |
| Handler.Respond | main.go:149-156 | status 500 with the error text exactly when the greeting reports an error; status 200 with the reply exactly when it does not |
| Handler.Handle | main.go:142-157 | the response is always 200, its body is the greeting for the query's name, and parsing the body gives that name back |
| Handler.NeverInternalError | main.go:149-153 | the 500 branch is never taken, for any query |
| Handler.AbsentName | main.go:148-149 | an absent or empty `name` gives 200 with "Hello ! Your name is to short\n" |
| Handler.FirstNameWins | main.go:148 | values after the first `name` value do not change the response |
| Handler.Alice | main.go:148-156 | `GET /?name=Alice` is answered with "Hi Alice" |

## Left out

- `main` (main.go:31-115): signal handling, the cancellation context, goroutines, server start-up and shutdown are concurrency and OS/network I/O.
- `middleware` (main.go:117-140): request ids from `uuid.New()` (randomness), wall-clock timing and the floating-point `elapsed_ms`, the request logger and the histogram record are foreign calls, clocks and floats.
- Metrics and exporter set-up, histogram bucket boundaries, log-file opening and the multi-writer logger (main.go:43-97) are library configuration and file I/O.
- Every log call in `handler` and `greeting` (main.go:145-146, 155, 160-168), including the Warn entry for a short name, is a side effect on an external logger and is treated as a no-op; the `ctx` argument of `greeting` only carries that logger and is dropped.
- Parsing and percent-decoding the raw query string into `url.Values` happens inside `net/url`; the model starts from the parsed map.
- Handler.Respond: the headers and the trailing newline that `http.Error` adds, and the implicit 200 of `w.Write`, belong to `net/http`; the model records only the status and the error text or reply.
