# jwp-dashboard-http core in Dafny

A model of the request-line parser and the two form handlers of a small
hand-written HTTP server (`nextstep.jwp`), with proofs of what they promise.

- **Request-line parser** (`JwpHttpRequest.of`). The input is the sequence of
  lines `readLine` would return, and the end of that sequence stands for `null`.
  The parser splits the first line with Java `String.split(" ")` semantics and
  keeps tokens 0, 1 and 2 as method, URI and HTTP version. It then discards
  header lines up to the first blank one. Each exception the Java code can
  throw, other than an `IOException` from `readLine`, is a `ParseError`. They
  are tried in the code's order: no request line, then fewer than three tokens,
  then input that ends before a blank line.
- **Java text operations** (`JavaText`). `split(" ")` is modelled exactly:
  every space separates, trailing empty tokens are dropped, and a string with
  no space comes back whole (so `"".split(" ")` is `[""]`). `isBlank` uses
  `Character.isWhitespace`.
- **Login** (`LoginHandler.handle`). Without parameters the handler serves the
  login page. With parameters it redirects to `index.html` exactly when the
  account exists and the password matches, and to `401.html` otherwise.
- **Registration** (`RegisterHandler.handle`). Without parameters the handler
  serves the registration page and leaves the directory unchanged. With
  parameters it saves `User(account, password, email)` and redirects to
  `index.html`. If the account is already present it fails with
  `AlreadyRegisteredUser` and produces no response.
- **User directory**. It is a `map<string, User>` passed in and handed back.
  It offers lookup and an insert that refuses a duplicate account.
- **Responses**. A response is `Ok(body)` or `Found(path)`. An optional
  serializer reproduces the wire text the handler tests expect: a space before
  the CRLF that ends the status line and each header line, `Location: http://localhost:8080/<path> `, and `Content-Length`
  equal to the UTF-8 byte length of the body. It is proved inverse to a
  reader of that text.

Two details of the parser that the model keeps:

- A request line with more than three tokens is accepted and the extra tokens
  are ignored (`JwpHttpRequest.java:26-29`).
- A header line of only white space ends the headers, because the loop tests
  `isBlank` (`JwpHttpRequest.java:32`).

Modules: `Outcomes` (Option/Result), `JavaText`, `JwpRequest`, `Users`,
`Responses`, `HandlerSupport` (parameters, resources, handler errors),
`LoginHandler`, `RegisterHandler`, `Scenarios` (properties that span both
handlers).

## Model

| member | source | states |
|---|---|---|
| JavaText.WhitespaceBoundaries | app/src/main/java/nextstep/jwp/model/JwpHttpRequest.java:32 | The white space `isBlank` accepts includes space, tab, line feed, carriage return, vertical tab, form feed, the unit separator, em space, ideographic space and the line separator, and excludes the three no-break spaces, NEXT LINE, the zero-width space and letters |
| JavaText.IsBlankConcat | app/src/main/java/nextstep/jwp/model/JwpHttpRequest.java:32 | A line is blank exactly when each of any two parts it is cut into is blank, so the empty line is blank and a single visible character anywhere makes a line non-blank |
| JavaText.JavaSplit | app/src/main/java/nextstep/jwp/model/JwpHttpRequest.java:26 | No token of `split(" ")` contains a space, and the last token is non-empty unless the input is empty |
| JavaText.JavaSplitMeaning | app/src/main/java/nextstep/jwp/model/JwpHttpRequest.java:26 | The tokens joined by single spaces are a prefix of the line and only spaces follow; no tokens at all exactly when the line is a non-empty run of spaces |
| JavaText.JavaSplitJoin | app/src/main/java/nextstep/jwp/model/JwpHttpRequest.java:26 | Space-free tokens whose last one is non-empty, joined with spaces, split back into exactly those tokens |
| JavaText.JoinSplitAll | app/src/main/java/nextstep/jwp/model/JwpHttpRequest.java:26 | Cutting a line at every space and gluing the pieces back gives the line |
| JavaText.SplitAllJoin | app/src/main/java/nextstep/jwp/model/JwpHttpRequest.java:26 | Gluing space-free pieces and cutting at every space gives the pieces back |
| JavaText.TrailingSpaceIgnored | app/src/main/java/nextstep/jwp/model/JwpHttpRequest.java:26 | A trailing space on a non-empty line leaves its tokens unchanged, because trailing empty tokens are dropped |
| JavaText.JavaSplitThreeThenAnything | app/src/main/java/nextstep/jwp/model/JwpHttpRequest.java:26-29 | Three space-free tokens followed by a space and anything at all still split into at least three tokens, and those three come first |
| JwpRequest.SkipHeaders | app/src/main/java/nextstep/jwp/model/JwpHttpRequest.java:31-34 | The header loop succeeds exactly when some line is blank, and leaves unread the lines after the first blank one; otherwise it fails on the missing line |
| JwpRequest.Parse | app/src/main/java/nextstep/jwp/model/JwpHttpRequest.java:20-37 | Fails with NoRequestLine exactly on empty input, with MissingToken exactly when the first line has fewer than three tokens, and with UnterminatedHeaders exactly when no blank line follows; on success the fields are tokens 0, 1, 2 |
| JwpRequest.ReadRequest | app/src/main/java/nextstep/jwp/model/JwpHttpRequest.java:20-37 | The loop form of the parser, reading until a blank line or the end of input, computes the same result as `Parse` |
| JwpRequest.ParseWellFormed | app/src/main/java/nextstep/jwp/model/JwpHttpRequest.java:20-37 | `m u v`, with or without a trailing space, then any header lines and a blank line, parses to `Request(m, u, v)` whatever follows |
| JwpRequest.ParseTrailingSpace | app/src/main/java/nextstep/jwp/model/JwpHttpRequest.java:26-29 | A trailing space on the request line never changes the outcome of parsing |
| JwpRequest.ParseExtraTokens | app/src/main/java/nextstep/jwp/model/JwpHttpRequest.java:26-29 | Tokens after the third do not affect the result |
| JwpRequest.VisibleCharContinuesHeaders | app/src/main/java/nextstep/jwp/model/JwpHttpRequest.java:31-34 | A header line with one non-white-space character anywhere, however padded, does not stop the header loop: skipping continues with the next line |
| JwpRequest.ParseIgnoresHeaders | app/src/main/java/nextstep/jwp/model/JwpHttpRequest.java:31-36 | Once a blank line is present, the header lines have no effect: only the request line decides the result |
| Users.Save | app/src/main/java/nextstep/jwp/model/handler/RegisterHandler.java:32 | The insert fails exactly when the account is present; otherwise it adds the user under its account and keeps every earlier entry |
| Users.SavePreservesWellKeyed | app/src/main/java/nextstep/jwp/model/handler/RegisterHandler.java:31-32 | A successful save keeps every user filed under its own account name |
| Users.FindAfterSave | app/src/main/java/nextstep/jwp/model/handler/LoginHandler.java:34 | After a successful save, the lookup finds the saved user under its account and gives exactly the earlier answer for every other account |
| Users.SaveThenFind | app/src/main/java/nextstep/jwp/model/handler/RegisterHandler.java:32 | A user that was saved is found again under its account |
| HandlerSupport.ServePageOnlyReadsPath | app/src/main/java/nextstep/jwp/model/handler/LoginHandler.java:39-43 | Serving a page reads only the resource at its own path: two resource tables that agree on that path give the same outcome |
| LoginHandler.LoginFail | app/src/main/java/nextstep/jwp/model/handler/LoginHandler.java:59-66 | The failure response is a redirect, and never to the success page |
| LoginHandler.Handle | app/src/main/java/nextstep/jwp/model/handler/LoginHandler.java:24-37 | Without parameters: the login page, or ResourceNotFound. With parameters: always a redirect, to `index.html` exactly when the account exists with that password, otherwise to `401.html` |
| LoginHandler.PageIgnoresDirectory | app/src/main/java/nextstep/jwp/model/handler/LoginHandler.java:25-30 | Without parameters the outcome does not depend on the directory |
| LoginHandler.UnknownAccountLikeWrongPassword | app/src/main/java/nextstep/jwp/model/handler/LoginHandler.java:34-62 | An unknown account and a wrong password produce the same response, the redirect to `401.html` |
| RegisterHandler.Handle | app/src/main/java/nextstep/jwp/model/handler/RegisterHandler.java:23-36 | Without parameters: the registration page and the same directory. With parameters: AlreadyRegisteredUser exactly when the account is present; otherwise a redirect to `index.html` and a directory that gains exactly that user |
| RegisterHandler.RespondsOnlyAfterSave | app/src/main/java/nextstep/jwp/model/handler/RegisterHandler.java:31-35 | A redirect is produced only when the save succeeded, and the directory handed back is the one the save produced |
| RegisterHandler.HandlePreservesWellKeyed | app/src/main/java/nextstep/jwp/model/handler/RegisterHandler.java:31-32 | Registration keeps every user filed under its own account name |
| Scenarios.RegisterThenLogin | app/src/main/java/nextstep/jwp/model/handler/RegisterHandler.java:31-35 | After a registration, a login with the same account and password reaches `index.html` |
| Scenarios.RegisterTwiceFails | app/src/main/java/nextstep/jwp/model/handler/RegisterHandler.java:31-32 | Registering the same account again fails with AlreadyRegisteredUser |
| Scenarios.RegisterKeepsLogins | app/src/main/java/nextstep/jwp/model/handler/RegisterHandler.java:32 | A registration does not change the login outcome of any account that was already present |
| Scenarios.HandlerTestOutcomes | app/src/test/java/nextstep/jwp/RequestHandlerTest.java:76-245 | The outcomes the handler tests expect: correct password gives `index.html`; wrong password and unknown account give `401.html`; a new account redirects to `index.html`; `gugu` again fails with AlreadyRegisteredUser |
| Responses.Utf8Length | app/src/test/java/nextstep/jwp/RequestHandlerTest.java:70 | The Content-Length byte count lies between one and four bytes per character, and equals the character count exactly for ASCII text |
| Responses.DecimalRoundTrip | app/src/test/java/nextstep/jwp/RequestHandlerTest.java:41 | The written Content-Length numeral reads back as the same number |
| Responses.SerializeRoundTrip | app/src/test/java/nextstep/jwp/RequestHandlerTest.java:39-43 | Every response can be read back from its wire text, including the page length and the trailing-space format |
| Responses.SerializeFoundMatchesTest | app/src/test/java/nextstep/jwp/RequestHandlerTest.java:99-103 | The redirect to `index.html` is written as exactly the four lines the tests join: status line, Location line, empty line, empty body |
| Responses.SerializeOkMatchesTest | app/src/test/java/nextstep/jwp/RequestHandlerTest.java:67-72 | A page is written as exactly the five parts the tests join: status line, Content-Type line, Content-Length line carrying the body's UTF-8 byte count, empty line, body |
| Responses.SerializeInjective | app/src/test/java/nextstep/jwp/RequestHandlerTest.java:99-103 | Different responses have different wire text, so the status and Location lines identify a redirect |

## Left out

- Socket I/O: writing to the `OutputStream` is replaced by returning the response. An `IOException` swallowed with `printStackTrace` is not modelled.
- JwpRequest.Parse: an `IOException` thrown by `readLine` (`JwpHttpRequest.java:21`, `:31`, `:33`) is not modelled. The lines are given as a sequence, and reading them cannot fail.
- `findResourceFile`: reading from the class path is a file-system read. Resources are a map from path to contents. A missing resource fails with `ResourceNotFound`, where the Java code would throw on a null URL.
- `InMemoryUserRepository` is not part of this model. It is a map that is passed in and handed back. Sharing it across threads is a concurrency concern and is out of scope.
- `User` is not part of this model, so `checkPassword` is taken to be string equality.
- The request class the handlers use is not part of this model, so `getParam`/`isEmptyParams` are not modelled. Parameters are an abstract map, and percent-decoding is not modelled. `HandlerSupport.GetParam` reads an absent key as `""` so that the function is total.
- LoginHandler.Handle: with parameters, assumes `getParam` returns a value for a missing `account` or `password` key. The "always a redirect" clause is proved only under that assumption.
- RegisterHandler.Handle: with parameters, assumes `getParam` returns a value for a missing `account`, `password` or `email` key. The duplicate/success split is proved only under that assumption.
- `JwpHttpResponse` is not part of this model. The serializer in `Responses` follows the wire text the handler tests expect, not its code. `Content-Length` assumes the platform charset is UTF-8.
- `ResourceController.doGet` is not modelled: it only forwards to an abstract controller and resource loading, neither of which is part of this model. Routing in `RequestHandler` is not modelled either.
- Getters `getMethod`, `getUri` and `getHttpVersion` are the destructors of the `Request` datatype. They return the constructor's arguments by definition, so no separate member states this.
- Scenarios.HandlerTestOutcomes: the directory contents `gugu`/`password` come from what the tests expect, because the repository's initial data is not part of this model.
