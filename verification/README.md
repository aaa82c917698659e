# Session manager plugin: a Dafny model

A model of the session store of the APISIX session manager plugin
(`session/session.go`), with proofs about it. The plugin keeps client
sessions in memory and runs as a request filter and a response filter
inside the proxy.

- **Cookie codec** (`cookies.dfy`, module `Cookies`). `getKeyFromCookies`
  splits a `Cookie` header on `"; "` with Go's `strings.Split` semantics.
  It returns the remainder of the first segment that starts with `key=`.
  The model defines `Split`, its inverse `Join`, the search, and a loop
  method proved against it. Lemmas cover the round trip of the `name=value`
  pair the filters write, first-occurrence-wins, and skipping other cookies.
  The `"; "` separator is the cookie-string separator of section 4.2.1 of
  RFC 6265.
- **Headers** (`headers.dfy`, module `Headers`). A header map from name to
  value. A name that was never set reads as `""`, as the header `Get` does.
- **Store and filters** (`session.dfy`, module `Sessions`). `Session` is a
  class, so the session-id index and the request-id index share one object.
  Refreshing the API key through one index is then visible through the other.
  `Instance` holds the two maps `sessions` and `requestSessions`.
  `RequestFilter`, `ResponseFilter`, `createSession`, `removeSession` and the
  expiry goroutine are methods over that state. Their contracts give both
  indices and the changed headers exactly. `Valid()` says that each index
  files a session under its own id. `createSession` preserves it when the
  session carries the ids it is filed under, as the request filter's call
  does. `removeSession`, the expiry task, both filters and `Exchange` preserve
  it outright.
- Request and response ids are Go `uint32` values, modelled as the newtype
  `u32`. The response phase finds its request as `id - 1` with uint32
  wrap-around, made explicit in `RequestIDOf`.
- The UUID the request filter draws is the parameter `freshID`.
- The expiry goroutine is returned as a `Timer` value. `ExpiryTask` runs it to
  completion, followed by the cleanup loop's `removeSession`.

On a cookie hit the request filter files no entry under the new request id:
neither index changes (session/session.go:138-160). So the response filter of
that exchange writes no `Set-Cookie` unless some session is still filed under
that request id. `Sessions.Instance.Exchange` states both outcomes.

## Model

| member | source | states |
|---|---|---|
| `Cookies.Split` | session/session.go:99 | `strings.Split(cookies, "; ")` with a non-empty separator returns at least one piece, even for an empty header |
| `Cookies.SplitPieces` | session/session.go:99 | no piece of the split contains the separator, and the first piece is the start of the header |
| `Cookies.FreeCons` | session/session.go:99 | a character that does not start a separator, followed by a separator-free prefix of the rest, is a separator-free prefix of the whole |
| `Cookies.SplitJoin` | session/session.go:99 | joining the pieces of `strings.Split(cookies, "; ")` with the separator gives the header back, so the split loses nothing |
| `Cookies.SplitFree` | session/session.go:99 | a header with no `"; "` in it splits into exactly one segment, itself |
| `Cookies.SplitAppend` | session/session.go:99 | splitting `a + "; " + b` gives the segments of `a` followed by the segments of `b` |
| `Cookies.TrimPrefix` | session/session.go:101-102 | `strings.TrimPrefix` after the `strings.HasPrefix` test (`HasPrefix` is a length check plus a slice comparison, as Go defines it): when the string starts with the prefix, putting the prefix back in front of the result gives the string; otherwise the string is returned unchanged |
| `Cookies.CookiePair` | session/session.go:149 | `fmt.Sprintf("%s=%s", name, value)`: the pair starts with `name=`, and trimming `name=` gives the value back |
| `Cookies.FirstWithPrefix` | session/session.go:100-101 | the index of the first segment that starts with the prefix: every earlier segment lacks it, the one found has it, and `|segs|` means none has it |
| `Cookies.KeyFromCookies` | session/session.go:97-107 | an empty header gives `("", false)`; when the cookie is not found the value is `""` and no segment starts with `key=` |
| `Cookies.KeyFromCookiesFound` | session/session.go:100-103 | when segment `j` is the first to start with `key=`, the result is `true` with the rest of segment `j` after `key=`; later duplicates are ignored |
| `Cookies.KeyFromCookiesMissing` | session/session.go:97-106 | when no segment starts with `key=`, the result is `("", false)` |
| `Cookies.GetKeyFromCookies` | session/session.go:97-107 | the loop over the segments, with its early return, returns exactly `KeyFromCookies(key, cookies)` |
| `Cookies.PairFree` | session/session.go:149 | a `name=value` pair contains no `"; "` when neither the name nor the value does |
| `Cookies.CookieRoundTrip` | session/session.go:149 | reading cookie `name` from the header `name=value` gives `(value, true)` when neither contains `"; "` |
| `Cookies.FirstOccurrenceWins` | session/session.go:100-103 | in `name=value; rest` the cookie reads as `value`, whatever `rest` holds |
| `Cookies.SkipOtherCookie` | session/session.go:100-104 | a leading segment that does not start with `key=` does not change the result for the rest of the header |
| `Headers.Get` | session/mock.go:137-144 | the value under the name when it is set, and `""` (Go's zero value) when it is not |
| `Headers.Set` | session/mock.go:120-144 | after setting, the name reads as the new value; every other name reads as before; an unset name reads as `""` |
| `Sessions.RequestIDOf` | session/session.go:174-176 | the request id is the one whose uint32 successor is the response id; response id 0 maps to 0xFFFF_FFFF |
| `Sessions.Session.constructor` | session/session.go:140-143 | a new session records its creating request id and its session id, with an empty API key and not sticky |
| `Sessions.Instance.constructor` | session/session.go:61-65 | a new store has both indices empty |
| `Sessions.Instance.Lookup` | session/session.go:109-113 | non-null exactly when the id is filed, and then it is the very object filed under the id; in a valid store the session found carries that id |
| `Sessions.Instance.CreateSession` | session/session.go:119-127 | the session is filed under the session id and under the request id; every other key of both maps keeps its entry; validity is kept when the session carries those ids |
| `Sessions.Instance.RemoveSession` | session/session.go:82-87 | only the key `sid` leaves the session-id index; the request-id index is untouched; removing an absent id changes nothing |
| `Sessions.Instance.ExpiryTask` | session/session.go:153-159 | with a timeout of zero or less the store never changes; otherwise exactly that session id is removed from the session-id index |
| `Sessions.Instance.StartSession` | session/session.go:139-159 | a fresh session for `freshID` and `r.id` is filed under both; its API key is the incoming one when key auth is on; `Cookie` becomes `name=freshID`; the expiry timer carries the configured timeout |
| `Sessions.Instance.RelayApiKey` | session/session.go:161-166 | with key auth on, a non-empty incoming key replaces the pinned key and the header is set to the pinned key; with it off, nothing changes |
| `Sessions.Instance.RequestFilter` | session/session.go:132-167 | returning client: indices, `Cookie` header and timer unchanged. New client: exactly one fresh session, filed under `freshID` and `r.id`, and the new `Cookie` header reads back as `freshID`. The forwarded API key equals the pinned one when key auth is on. No other session or header changes. Validity is kept |
| `Sessions.Instance.ResponseFilter` | session/session.go:171-180 | `Set-Cookie` is `name=<session id>` of the session filed under `respID - 1` (uint32) if there is one, and it reads back as that id; otherwise the headers are unchanged; the store never changes |
| `Sessions.Instance.Exchange` | session/session.go:132-179 | a request phase followed by the response phase under the next id. New client: one fresh session, not sticky, holding the incoming API key when key auth is on, filed under `freshID` and `r.id`, with its expiry timer returned, `Cookie` rewritten to it, and `Set-Cookie` naming it. Returning client: both indices and `Cookie` unchanged, no timer, the pinned key replaced by a non-empty incoming key when key auth is on, and `Set-Cookie` is written only when a session is still filed under `r.id`, naming that session. The forwarded API key header, every other request header and every other session are as in the request filter; validity is kept |

## Left out

- Locks (`sessMx`, `reqSessMx`): the model is sequential. So it cannot show that `removeSession` releases its lock before it deletes.
- The `cleanup` goroutine, the `cleanupQueue` channel and `time.After`: concurrency and timers. A positive timeout is modelled as `ExpiryTask` removing the session at some later point.
- `uuid.New()`: a foreign library. The new session id is the parameter `freshID`, and nothing checks it for freshness, as in the code.
- The zap logger, `newLogger`, `Name`, `ParseConf` and JSON decoding: I/O and foreign libraries. The configuration is the record `Config`. The `Instance` constructor models only the two empty maps that `New` creates.
- `getSessionFromRequestID`: unused by the plugin. It also reads the session-id map with its argument, so it is not the response-phase lookup, which reads `requestSessions` directly.
- The custom-key verification mode and its 401 short-circuit: not present in this revision of the code. Only the test file refers to them: the `CustomKeyAuth` setting (session/session_test.go:53), the 401 status (:80) and the `customKeyValue` field (:110).
- `isSticky`: the code never sets it. The model keeps it `false` and shows that no filter changes it.
- Go strings are byte sequences, but the model uses sequences of `char`. The cookie search only compares and slices, so the two behave the same.
- `Cookies.CookieRoundTrip`: requires the cookie name, not only the value, to contain no `"; "`. A name with the separator in it would itself be split, and the round trip would fail.
