# go-bitly client core in Dafny

This project models the core of go-bitly, a Go client for version 4 of the Bitly API,
and proves properties of the model. The core has four parts:

- **Credentials** (`authentication.dfy`, with `base64.dfy`). HTTP Basic credentials produce
  `Authorization: Basic <base64 of username:password>`, following section 2 of RFC 7617.
  Token credentials produce `Authorization: Bearer <token>`, following section 2.1 of
  RFC 6750. The standard base64 encoding of section 4 of RFC 4648 is modelled in full. A
  reference decoder sits next to it, so that the round trip can be stated.
- **The client** (`bitly.dfy`):
  - `versioned` puts a path, with the slashes at its ends trimmed, under `/v4/`.
  - `NewRequest` builds a request: the URL is the base URL followed by the path, the body is
    the JSON payload, and there are three fixed headers.
  - `CheckResponse` maps a non-2xx status to an error.
  - `Do` fills the caller's target only from a successful response.
  - `BasicAuthTransport.RoundTrip` forwards a copy of a request with a Basic `Authorization`
    header and leaves the caller's request untouched.

  `Client`, `Request`, `Header` and `Box` (the caller's target) are classes whose methods
  update fields, as in the Go code. Everything else that only computes is a function, except
  `Bitly.CopyEntries`, a method whose loop mirrors the range loop that copies the request's
  header in `BasicAuthTransport.RoundTrip`.
- **Groups** (`groups.dfy`): `groupPath` and `ListGroups`.
- **User** (`user.dfy`): `Get`, `Update` and `GetGroups`.

The network, the JSON encoder and decoder, and `http.NewRequest` are outside the model. What
they produce enters as values:

- `Exchange` is the response or the transport failure for one request;
- a `Result` is what the encoder made of a payload;
- an `Option` is the error `http.NewRequest` raised, if any.

Each service operation is split into two parts:

- the request it sends, or the error it returns before sending anything (`…Call`);
- how it shapes the client's `Reply` into its result.

`text.dfy` holds Go's byte strings, `strings.Trim(s, "/")` and the decimal rendering of
`%v`. `wrappers.dfy` holds `Option` and `Result`.

## Model

| member | source | states |
|---|---|---|
| Text.BytesRoundTrip | bitly/authentication.go:33-34 | converting a byte string to `[]byte` and back gives the same string |
| Text.TrimSlashes | bitly/bitly.go:170 | the trimmed path has no slash at either end and is no longer than the input |
| Text.TrimSlashesPadded | bitly/bitly.go:170 | the trimmed path is the input with some slashes removed at the front and some at the back, and nothing else |
| Text.TrimIdempotent | bitly/bitly.go:170 | trimming an already trimmed path changes nothing |
| Text.Bytes | bitly/authentication.go:34 | `[]byte(s)` has one byte per character, each equal to that character's code |
| Text.FormatInt | bitly/bitly.go:122-124 | `%v` of an int: decimal digits that read back as the number, without leading zeros, after a `-` for a negative number |
| Text.FormatNatValue | bitly/bitly.go:122-124 | the decimal digits `%v` prints for a status read back as that status |
| Base64.Encode | bitly/authentication.go:34 | the encoding has 4·⌈n/3⌉ characters: alphabet characters, then 0 to 2 `=` that pad the last group |
| Base64.DecodeEncode | bitly/authentication.go:34 | decoding the encoding of any byte sequence gives that sequence back |
| Base64.EncodeInjective | bitly/authentication.go:34 | different byte sequences have different encodings |
| Base64.LastSextet | bitly/authentication.go:34 | the last 6-bit value of a partial final group has its low bits clear: four after a single byte, two after a pair |
| Base64.EncodeZeroBits | bitly/authentication.go:34 | the character before the padding encodes zero bits below the data, as section 3.5 of RFC 4648 requires; with the length, alphabet and round trip this fixes the encoding of every input |
| Authentication.NewHTTPBasicCredentials | bitly/authentication.go:21-26 | Basic credentials store the username and password unchanged, with no validation |
| Authentication.NewOauthTokenCredentials | bitly/authentication.go:41-45 | token credentials store the token unchanged, with no validation |
| Authentication.BasicAuth | bitly/authentication.go:32-35 | the encoding of `username:password` is never empty and is a whole number of 4-character groups, since the colon is always there |
| Authentication.BasicAuthDecodes | bitly/authentication.go:32-35 | `basicAuth` decodes back to the bytes of `username:password` |
| Authentication.BasicAuthAlphabet | bitly/authentication.go:32-35 | `basicAuth` has 4·⌈(\|u\|+\|p\|+1)/3⌉ characters, all from the standard alphabet except 0 to 2 `=` at the end |
| Authentication.BasicAuthExampleTest | bitly/authentication_test.go:14-18 | `test` / `test` encodes to `dGVzdDp0ZXN0` |
| Authentication.BasicAuthExampleAdmin | bitly/authentication_test.go:19-23 | `admin` / `super_password` encodes to `YWRtaW46c3VwZXJfcGFzc3dvcmQ=` |
| Authentication.EmptyBasicCredentials | bitly/authentication.go:28-35 | empty username and password give `Basic Og==` (the encoding of a lone colon) |
| Authentication.Headers | bitly/authentication.go:28-49 | both kinds of credentials yield exactly one header, `Authorization`: `Basic ` and the encoded pair, or `Bearer ` and the token |
| Authentication.HeadersExamples | bitly/authentication_test.go:39-72 | the header maps the tests expect for `test` / `test` and for the token `secret_token` |
| Authentication.HeadersRoundTrip | bitly/authentication.go:28-49 | the `Authorization` value identifies the credentials again (for Basic, when the username has no colon) |
| Authentication.BearerHeaderInjective | bitly/authentication.go:47-49 | different tokens give different Bearer headers |
| Bitly.ErrorText | bitly/bitly.go:121-125 | errors raised outside the core keep their own text; an API error text starts with method, URL and `: ` and ends with a space and the message; `errOptionsRequired` (bitly/bitly.go:24) reads `options cannot be empty` |
| Bitly.ParameterErrorText | bitly/bitly.go:103-105 | the parameter error text is exactly the parameter name followed by the fixed ` paramater is required and cannot be empty` |
| Bitly.ApiErrorText | bitly/bitly.go:121-125 | the API error text is method, URL, `: `, the status in decimal digits without leading zeros, a space and the message |
| Bitly.ForbiddenText | bitly/groups_test.go:55-60 | a 403 with message `FORBIDDEN` reads `… 403 FORBIDDEN` |
| Bitly.CheckResponse | bitly/bitly.go:127-138 | no error exactly for statuses 200 to 299; otherwise the decoded error body with method, URL and status, or the decoder's error |
| Bitly.CheckResponseBounds | bitly/bitly.go:128 | 200 and 299 are successes, 199 and 300 are not |
| Bitly.Versioned | bitly/bitly.go:169-171 | the result starts with `/v4/` and continues with the path, trimmed of its edge slashes and of nothing else |
| Bitly.VersionedPlain | bitly/bitly.go:169-171 | a path with no slash at its ends is put under `/v4/` unchanged |
| Bitly.VersionedIgnoresSlashes | bitly/bitly.go:169-171 | one more slash before or after the path gives the same result |
| Bitly.VersionedUser | bitly/user.go:33 | the user resource is at `/v4/user` |
| Bitly.DoReply | bitly/bitly.go:66-96 | a response exists exactly when the transport succeeded; no error exactly for a 2xx whose body decodes into the target, if there is one; the target is filled only then; a non-2xx gives the error of `CheckResponse`, a transport failure its own error, and a 2xx body that does not decode the decoder's error |
| Bitly.SendReply | bitly/bitly.go:140-147 | an encoder error or an `http.NewRequest` error stops before sending; otherwise the outcome of `Do` on `baseURL + path` |
| Bitly.Header.Set | bitly/bitly.go:59-61 | the name has exactly the one value and every other name keeps its values |
| Bitly.CopyEntries | bitly/bitly.go:194-197 | the copy loop produces a map equal to the original |
| Bitly.Client.NewClient | bitly/bitly.go:36-42 | base URL `https://api-ssl.bitly.com`, user agent `go-bitly/0.1.0`, debugging off |
| Bitly.Client.NewRequest | bitly/bitly.go:44-64 | the encoder error or the request error, or a fresh request for `BaseURL + path` with the encoded body and exactly the JSON content type, JSON accept and user agent headers |
| Bitly.Client.Do | bitly/bitly.go:66-96 | status and error are those of `DoReply`; the target changes only as `Filled` says |
| Bitly.Client.SendRequest | bitly/bitly.go:140-147 | status, error and target are those of `SendReply` for the client's base URL |
| Bitly.Client.Get | bitly/bitly.go:149-151 | `sendRequest` with GET and no payload |
| Bitly.Client.Post | bitly/bitly.go:153-155 | `sendRequest` with POST and the payload |
| Bitly.Client.Put | bitly/bitly.go:157-159 | `sendRequest` with PUT and the payload |
| Bitly.Client.Patch | bitly/bitly.go:161-163 | `sendRequest` with PATCH and the payload |
| Bitly.Client.Delete | bitly/bitly.go:165-167 | `sendRequest` with DELETE and the payload |
| Bitly.BasicAuthTransport.Next | bitly/bitly.go:209-214 | the configured transport, or the default transport when none is set |
| Bitly.BasicAuthTransport.RoundTrip | bitly/bitly.go:185-201 | a fresh copy of the request with the same method, URL and body, every original header plus the Basic `Authorization`, handed to `Next()`; the caller's header is unchanged |
| Bitly.ForwardedHeaderNames | bitly/bitly.go:192-199 | the forwarded header adds only `Authorization`, with the value Basic credentials produce, and keeps every other name and value |
| Groups.GroupPath | bitly/groups.go:25-31 | `/groups` exactly for the empty GUID, `/groups/<guid>` otherwise |
| Groups.VersionedGroupPath | bitly/groups.go:25-31 | a GUID without slashes ends up at `/v4/groups` or right below `/v4/groups/` |
| Groups.ListGroupsCall | bitly/groups.go:38-41 | always a GET of `/v4/groups` without payload, whatever the organization GUID |
| Groups.ListGroups | bitly/groups.go:37-47 | exactly one of the listing and the error: the client's error unchanged, or the decoded listing |
| Groups.ListGroupsResponses | bitly/groups_test.go:44-74 | a 2xx with `{"groups":[]}` gives an empty listing; any other status gives no listing and the API error |
| Groups.ListGroupsForbidden | bitly/groups_test.go:55-60 | a 403 with `FORBIDDEN` gives no listing and an error ending in `403 FORBIDDEN` |
| User.GetCall | bitly/user.go:33-36 | a GET of `/v4/user` without payload |
| User.Get | bitly/user.go:32-38 | a user is returned in every case next to the client's error; it is the decoded user if there is one, the zero user otherwise |
| User.GetReturnsUserOnError | bitly/user.go:32-38 | as written, a 403 returns the zero user together with the API error |
| User.GetOrError | bitly/user_test.go:102-122 | corrected: exactly one of the user and the error |
| User.GetVersionsAgreeOnSuccess | bitly/user.go:32-38 | on a 2xx whose body decodes, the written and the corrected `Get` both return the user and no error |
| User.UpdateCall | bitly/user.go:40-48 | nothing is sent without options; otherwise a PATCH of `/v4/user` carrying them |
| User.Update | bitly/user.go:40-49 | without options, no user and `errOptionsRequired`; otherwise a user next to the client's error: the decoded user if there is one, the zero user otherwise |
| User.UpdateWithoutOptionsText | bitly/user.go:41-43 | the error without options reads `options cannot be empty` |
| User.GetGroupsCall | bitly/user.go:51-58 | nothing is sent for an empty login; otherwise a GET of `/v4/user` |
| User.GetGroupsIgnoresLogin | bitly/user.go:51-58 | every non-empty login sends the same request |
| User.GetGroups | bitly/user.go:51-60 | for an empty login, no listing and the `login` parameter error; otherwise a listing next to the client's error: the decoded listing if there is one, the empty listing otherwise |
| User.GetGroupsEmptyLoginText | bitly/user.go:52-54 | the empty-login error text is exactly `login paramater is required and cannot be empty` |

## Left out

- The network is not modelled, and neither is `httpClient.Do`. Its outcome, together with
  what the JSON decoder makes of the body, is the `Exchange` input of `Do`.
- The JSON encoder is not modelled. Its result is the `payload` input of `NewRequest`.
- `http.NewRequest` is not modelled: its URL parsing and its checks of the method are
  represented by the `rejected` input. The URL is kept as the string `BaseURL + path`. The
  API error text therefore prints that string where Go prints the parsed URL.
- Bitly.ErrorText: an API error names the method and URL of the request as it was built.
  Go prints those of the request the final response answered. When `http.Client` follows a
  redirect, that is the last hop, and a 301, 302 or 303 also turns a POST into a GET.
  Redirects are not modelled.
- Bitly.Client.Do: the `io.Writer` branch (bitly/bitly.go:88-89) is not modelled. Targets
  are always filled by JSON decoding.
- Bitly.Client.Do: a Go decoder that fails part way can leave the target partly written.
  The model leaves the target unchanged on any decode error.
- Bitly.Client.Do: the `*http.Response` it returns is reduced to its status code.
- The debug logging in `Do` (bitly/bitly.go:67-69 and 76-78) is output only and is left out.
- Bitly.Client.NewClient: the `httpClient` parameter and field are left out, because the
  exchange is an input. The `Groups` and `User` fields, and the `GroupsService` and
  `UserService` interfaces, are wiring and are left out too. The `UserService` interface
  (bitly/user.go:62-66) declares `Update` without options. `UserClient.Update` does not
  match it, and the model follows `UserClient.Update`.
- Header names are not canonicalised. The names the core uses are already in canonical form.
- Bitly.BasicAuthTransport.RoundTrip: it returns the transport the copy is handed to, not
  that transport's response, because the downstream round trip is outside the model.
- `BasicAuthTransport.Client()` (bitly/bitly.go:205-207) only wraps the transport in an
  `http.Client` and is left out.
- The `context.Context` parameters of the user operations are never used by the source and
  are left out.
- `JSONDate` is an opaque instant. time.go is not part of this model, and neither are url.go
  or pagination.go.
- Base64.Decode is a reference inverse used to state the round trip. Like a lenient decoder,
  it does not reject non-zero padding bits; `Base64.EncodeZeroBits` states instead that
  the encoder never produces them. Go's decoder is not part of the core.
- Go strings are byte strings. A `GoString` is a `string` whose characters are all below
  256, one character per byte. UTF-8 is not modelled.
- `Update` and `GetGroups` return their allocated result next to an error, in the same way
  as `Get` (see Findings). They are modelled as written. No test of the source fixes what
  they should return.

## Findings

| source | as written | input that shows it | evidently intended | confidence | as-written member | corrected member |
|---|---|---|---|---|---|---|
| bitly/user.go:32-38 | `Get` returns the allocated `&User{}` together with the error whenever the request fails | a 403 response with body `{"message":"FORBIDDEN"}`: bitly/user_test.go:102-108 expects no user, and lines 155-156 fail on a non-nil one | no user when there is an error, as `ListGroups` does (bitly/groups.go:42-44) | medium, not executed | User.GetReturnsUserOnError | User.GetOrError |
