# A verified model of a TTL-gated HTTP response cache

This project models `cache.go`, a small Go package. The package caches HTTP responses as files in a local `cache` directory. A request is keyed by a cache name. The name is either a caller-supplied custom name or a hash of the method, URL and headers. It lives in the file `cache-<name>.txt`, which holds the JSON envelope `{"status":…,"body":"…"}`. Each call first checks the entry:

- A fresh entry (younger than the TTL, 60 minutes unless overridden) is served.
- An absent or stale entry is fetched and written, if the caller allows updates.
- Otherwise the call is refused with a permission error.

Read-only "peek" calls inspect an entry without any network traffic.

The model is split into these modules:

- `StringOrder` (`string_order.dfy`): lexicographic order on strings, proved a strict total order.
- `CacheKey` (`cache_key.dfy`): cache-name derivation.
  - `ComposeFilename` and its inverse `FilenameToName`.
  - The header rendering of `mapToString`, both as written and in sorted order.
  - `RequestString` and `EffectiveCacheName`.
- `Envelope` (`envelope.dfy`): the JSON envelope of `Response`.
  - `Encode` follows the output of encoding/json as of Go 1.22 (earlier versions write `\u0008` and `\u000c` where 1.22 writes `\b` and `\f`): compact form, the escapes `\"` `\\` `\b` `\f` `\n` `\r` `\t`, and `\u` escapes for other control characters, `<`, `>`, `&`, U+2028 and U+2029.
  - `Decode` reads that form back, with all JSON string escapes.
  - The round trip `Decode(Encode(r)) == Some(r)` is proved.
- `Store` (`store.dfy`): the cache directory.
  - The class `CacheDir` holds the files (a map from file name to text and modification time), whether the directory exists, the clock `now`, and whether the medium accepts writes.
  - Its methods are the file helpers and `checkCacheExistenceAndPermissions`. Each is proved against a function of `DirState`, the directory snapshot.
- `Transport` (`transport.dfy`): the HTTP client.
  - A class whose replies are a script given as input, one per call; a call made when the script is exhausted fails.
  - It records every request, so the model can state when the network is used.
- `Fetcher` (`fetcher.dfy`): the orchestration.
  - The methods are `cacheHttpResponse`, `httpRequest`, `HttpRequest*`, the `Basic*` wrappers and the `GetCacheAndStaleness*` peeks.
  - Each method is proved equal to a specification function: `FetchAndStore` (for `CacheHttpResponse`), `OutgoingHeader` (for the header loop `AddHeaders`), `RefreshSpec`, `WithNameSpec`, `DecodedSpec`, `PeekSpec` or `PeekDecodedSpec`. These functions map the directory and transport states before a call to the states after it and the result.
- `CacheProperties` (`cache_properties.dfy`): lemmas over those specification functions.

External pieces are parameters:

- The SHA-1 hash is a function `hash: string -> string`.
- The caller's decode target (`interface{}`) is a function `parse: string -> Option<T>`.
- Times and TTLs are integers counting nanoseconds, the unit of `time.Duration`.
- `time.Since(modTime)` is `now - modTime`.

Two points where the model and the code part ways:

- `mapToString` (cache.go:40-46) writes the header lines in Go's map iteration order, so a request with two or more header names has no single cache name. `MapToString` models that loop as written. The model derives the name of a request from its header names in sorted order instead (`CanonicalHeaders`). See Findings.
- `WriteStringToCacheFile` as written declares `err` twice (cache.go:109 and cache.go:114), so it does not compile. The model follows the evident intent: create the directory, then write the file.

## Model

| member | source | states |
|---|---|---|
| `CacheKey.ComposeFilename` | cache.go:56-58 | The file name is the cache name framed by the prefix `cache-` and the extension `.txt`, and its length is the sum of the three lengths. |
| `CacheKey.FilenameRoundTrip` | cache.go:56-58 | The name can be recovered from the file name: a cache file is `"cache-" + name + ".txt"`. |
| `CacheKey.FilenameOnlyComposed` | cache.go:18-20 | Every string that parses as a cache file name is exactly `"cache-" + name + ".txt"` for the name it yields. |
| `CacheKey.ComposeFilenameInjective` | cache.go:56-58 | Distinct cache names give distinct file names. |
| `CacheKey.MapToString` | cache.go:40-46 | The result is the `key="[v1 v2]"` lines of the header map in some order that lists every name exactly once; which order is left open, as Go leaves map iteration order open. |
| `CacheKey.RenderAppend` | cache.go:42-44 | The text of a listing of header names is the texts of its parts, in the order listed: one `HeaderLine` per name, as each loop iteration appends one `Fprintf` line. |
| `CacheKey.RenderingDependsOnOrder` | cache.go:42-44 | As written, the rendering depends on iteration order: the map {a:[1], b:[2]} renders differently in its two orders. |
| `CacheKey.CanonicalRenderingIsOrderIndependent` | cache.go:40-46 | Corrected rendering: every strictly sorted listing of the keys gives the same text, so the text depends on the header map alone. |
| `CacheKey.CanonicalHeaders` | cache.go:40-46 | The sorted rendering is one of the texts the loop of `mapToString` may produce, since it renders a listing of every name exactly once. It is empty exactly when the map is. |
| `CacheKey.SortedKeys` | cache.go:42 | The sorted order used by the corrected rendering lists every header name exactly once, in increasing order. It is an order the language permits for `range`. |
| `CacheKey.RequestString` | cache.go:48-50 | The request text starts with method + URL. With no headers it is exactly method + URL. |
| `CacheKey.EffectiveCacheName` | cache.go:52-65 | A non-empty custom name is used verbatim. Otherwise the name is `hash(RequestString(req))`, the hash of the request text, which is `hash(method + url)` when there are no headers. |
| `CacheKey.CustomNameDecidesFile` | cache.go:60-63 | Requests with non-empty custom names get the same file name exactly when the names are equal, whatever their URLs and headers. |
| `Envelope.EncodePlain` | cache.go:123 | The envelope `json.Marshal` writes is one line of plain text. Every control character, `<`, `>`, `&`, U+2028 and U+2029 in the body is escaped. The text opens with the status member and ends with `}`. |
| `Envelope.DecodeEncodeThen` | cache.go:89 | An envelope read back on its own gives the stored response. The model's `Decode` rejects all text after the closing brace; Go rejects any such text other than whitespace (see Left out). |
| `Envelope.DecodeRejects` | cache.go:89 | An empty file does not decode, and neither does an envelope followed by more text. Go would accept trailing whitespace (see Left out). |
| `Envelope.DecodeEncode` | cache.go:122-129 | A response written as JSON reads back as the same status code and body. |
| `Envelope.ParseEscapeString` | cache.go:28 | The escaped body string literal decodes to the original body, and nothing after the closing quote is consumed. |
| `Envelope.ParseShowInt` | cache.go:27 | The status number decodes to the status code, and nothing after it is consumed. |
| `Store.EffectiveTTL` | cache.go:176-179 | The effective TTL is the override when it is nonzero, and `DefaultTTL` (60 minutes) when it is zero. It is never zero, and it is positive for a non-negative override. |
| `Store.Classify` | cache.go:170-181 | An entry is absent exactly when its modification time cannot be read. It is fresh exactly when its age `now - modTime` is below the effective TTL. |
| `Store.Check` | cache.go:167-193 | No error exactly when the file exists and is younger than the effective TTL, or updates are allowed. A refresh is asked for exactly when updates are allowed and the file is missing or at least one TTL old. Every error is `PermissionDenied` with `isStale` false. |
| `Store.Write` | cache.go:106-120 | A write succeeds exactly when the medium accepts writes. It then leaves the directory in place and adds the file name to the existing ones. A failure is `IOError` and changes nothing. The clock and the medium never change, and "no files without a directory" is kept. |
| `Store.Decide` | cache.go:181-192 | The decision table. There is no error exactly when the entry is fresh or updates are allowed. A refresh is asked for exactly when the entry is absent or stale and updates are allowed. Every refusal is `(false, PermissionDenied)`. |
| `Store.WriteThenRead` | cache.go:106-120 | A successful write is read back verbatim and stamped with the current time. The files afterwards are the old files updated at that one name, so every other file keeps its text and its modification time. It keeps "no files without a directory". A failed write changes nothing. |
| `Store.CacheDir.GetCacheFileAsString` | cache.go:74-80 | A read succeeds exactly when the file exists, and returns its text. A missing file gives `NotFound`. |
| `Store.CacheDir.GetCacheFileAsStruct` | cache.go:83-95 | Returns the file's text decoded by the given parser. A missing file gives `NotFound`, and text the parser rejects gives `DecodeError`. |
| `Store.CacheDir.GetCacheFileModifiedTime` | cache.go:97-104 | Returns the file's modification time, or `NotFound`. |
| `Store.CacheDir.VerifyCacheDirExists` | cache.go:67-69 | The directory exists afterwards if it existed before or the medium accepts writes. Otherwise the call gives `IOError`. |
| `Store.CacheDir.WriteStringToCacheFile` | cache.go:106-120 | Creates the directory, then stores the text under the file name, stamped with `now`. On a medium that refuses writes it gives `IOError` and nothing changes. |
| `Store.CacheDir.WriteStructToCacheFile` | cache.go:122-129 | Stores the JSON encoding of the response, as `WriteStringToCacheFile` would. |
| `Store.CacheDir.CheckCacheExistenceAndPermissions` | cache.go:167-193 | Changes nothing and answers by the decision table of `Store.Decide` on the entry's freshness. `isStale` without an error implies that updates are allowed. |
| `Transport.Transport.Do` | cache.go:146-156 | Records the request and returns the next scripted reply. It fails when the script is exhausted. |
| `Fetcher.AddHeaders` | cache.go:139-144 | `Header.Add` for every value of every name gives exactly the names that have values, each with its values in order. |
| `Fetcher.FetchAndStore` | cache.go:133-164 | Exactly one request, the outgoing one, is sent. A failed or missing reply gives `UpstreamError` and leaves the directory unchanged. Otherwise the reply is consumed and stored as the `Response{status, body}` envelope stamped `now`, or the write fails with `IOError` and changes nothing. |
| `Fetcher.CacheHttpResponse` | cache.go:133-164 | One round trip. On success the reply is stored as a `Response` envelope. A failed round trip gives `UpstreamError` and writes nothing. |
| `Fetcher.RequestToCache` | cache.go:196-213 | `httpRequest`: check, then fetch and write only when the check asks for it, then return the file name. Errors are passed on. |
| `Fetcher.HttpRequestWithName` | cache.go:224-237 | `httpRequest`, then the envelope read back from the cache file. |
| `Fetcher.HttpRequest` | cache.go:217-219 | `HttpRequestWithName` with an empty custom name. |
| `Fetcher.HttpRequestReturnStructWithName` | cache.go:250-263 | Status 0 and the error when the request fails. Otherwise the cached status code, with the body decoded by the parser or `DecodeError`. |
| `Fetcher.HttpRequestReturnStruct` | cache.go:242-244 | `HttpRequestReturnStructWithName` with an empty custom name. |
| `Fetcher.BasicHttpRequest` | cache.go:266-268 | No headers, TTL override 0, updates allowed, no custom name. |
| `Fetcher.BasicHttpRequestReturnStruct` | cache.go:271-273 | The same defaults, returning the decoded body. |
| `Fetcher.BasicHttpRequestWithName` | cache.go:276-278 | No headers, TTL override 0, updates allowed, the given cache name. |
| `Fetcher.BasicHttpRequestWithNameReturnStruct` | cache.go:281-283 | The same defaults with the given cache name, returning the decoded body. |
| `Fetcher.GetCacheAndStaleness` | cache.go:286-299 | Reads only, with no transport. On a check error it returns the empty `Response` and the check's `isStale`. Otherwise it returns the decoded envelope or the read error. |
| `Fetcher.GetCacheAndStalenessReturnStruct` | cache.go:303-315 | Reads only. Returns the check's `isStale` with the check error, or with the whole file decoded by the parser. |
| `CacheProperties.StalenessTransition` | cache.go:181-187 | An entry at least one effective TTL old is refused to a read-only caller and refreshed for one that may update. A younger entry is served either way. |
| `CacheProperties.CheckErrorStopsRequest` | cache.go:200-203 | A refused check is returned as `PermissionDenied`. Nothing is fetched or written. |
| `CacheProperties.TransportOnlyWhenStale` | cache.go:205-210 | The transport is called exactly once, with the request, when the check asks for a refresh. Otherwise the transport is untouched. |
| `CacheProperties.FailureWritesNothing` | cache.go:146-150 | A request that fails at any step leaves the cache directory exactly as it was. |
| `CacheProperties.FailedFetchReported` | cache.go:206-209 | A failed round trip during a refresh is reported as `UpstreamError`. |
| `CacheProperties.RefreshStoresReply` | cache.go:158-163 | A refresh stores exactly `Response{status, body}` of the reply under the request's file name, stamped with `now`. Every other file is unchanged. |
| `CacheProperties.RequestReturnsFetchedReply` | cache.go:224-236 | After a refresh, `HttpRequestWithName` returns the fetched reply. |
| `CacheProperties.SuccessLeavesFreshEntry` | cache.go:181-182 | After any successful request, the file decodes to the returned response and is fresh at the same instant, for a non-negative TTL override. |
| `CacheProperties.RepeatServedFromCache` | cache.go:181-182 | A second request for the same file at the same instant returns the first one's response, whatever its permission. It makes no round trip and no write. |
| `CacheProperties.ReadOnlyRepeat` | cache.go:183-184 | A read-only repeat right after a refreshing request succeeds with the same response. |
| `CacheProperties.SharedCustomName` | cache.go:61-63 | Two requests with the same custom name share one entry: the second is served what the first stored. |
| `CacheProperties.NoCacheNoPermission` | cache.go:188-189 | A never-seen request without permission to update is refused, and no file is created. |
| `CacheProperties.DecodeFailureKeepsEnvelope` | cache.go:251-262 | A failed request gives status 0. A body that fails to decode gives the cached status and `DecodeError`, while the plain request returns the envelope. |
| `CacheProperties.PeekOnRefusal` | cache.go:287-290 | A read-only peek at an absent or stale entry returns the empty `Response`, `isStale = false` and the permission error. |
| `CacheProperties.PeekWithPermission` | cache.go:291-298 | With updates allowed, a peek at a missing entry gives `isStale = true` and `NotFound`. A peek at a stale entry returns its contents with `isStale = true`. |
| `CacheProperties.PeekAfterRequest` | cache.go:286-298 | After a successful request, a read-only peek at its file returns the same response, not stale. |
| `CacheProperties.FirstRequestScenario` | cache.go:266-268 | A basic GET on an empty cache writes one file, `cache-<hash(method+url)>.txt`, holding the 200 reply, and returns that reply. |

## Left out

- Real HTTP is not modelled: `http.NewRequest`, the 60-second client timeout and `client.Do` are replaced by the scripted transport. A malformed method or URL surfaces as a failed round trip.
- The `log.Fatal` on a failed body read (cache.go:153-156) ends the process, so it is not modelled.
- `CacheKey.RequestString`, `CacheKey.EffectiveCacheName`, `CacheProperties.ReadOnlyRepeat` and `CacheProperties.RepeatServedFromCache`: the first two render the headers in sorted order (`CanonicalHeaders`), not in the iteration order `mapToString` uses as written. So do `Fetcher.RequestToCache` and every method built on it. The repeat properties (`CacheProperties.ReadOnlyRepeat`, and `CacheProperties.RepeatServedFromCache` applied to one request twice) therefore hold for the sorted key only. As written, a request with two or more header names may resolve to a different file on its second call.
- `Fetcher.AddHeaders`: `Header.Add` puts header names into MIME canonical form (`content-type` becomes `Content-Type`). The model passes names through unchanged.
- SHA-1 and hex encoding (cache.go:33-38) are not modelled. The hash is a parameter.
- The decode target `interface{}` is replaced by a parser function.
- `Envelope.Decode`, `Envelope.DecodeEncodeThen` and `Envelope.DecodeRejects`: `Decode` accepts only the compact form `Encode` writes, with nothing after it. encoding/json also accepts whitespace, fields in another order, unknown fields and missing fields.
- Two JSON details are not modelled. `json.Marshal` replaces invalid UTF-8 with U+FFFD, but model strings are Unicode scalars. The decoder combines an escaped surrogate pair into one character, but the model decodes each lone surrogate escape to U+FFFD.
- `Envelope.DecodeEncode`, `CacheProperties.RequestReturnsFetchedReply` and the other read-back properties hold only for bodies that are valid UTF-8, since model strings cannot hold anything else. In Go, a body that is not valid UTF-8 (an image, a Latin-1 page) comes back from the cache altered, with U+FFFD in place of each invalid byte.
- Status codes are unbounded integers. Go's `int` is 64 bits.
- The error path of `json.Marshal` (cache.go:123-126) cannot be taken for a `Response`, so it is not modelled.
- `Store.Write`, `Store.WriteThenRead`, `Fetcher.FetchAndStore`, `Fetcher.CacheHttpResponse`, `Store.CacheDir.WriteStringToCacheFile` and `CacheProperties.FailureWritesNothing`: a write either happens completely or changes nothing, so "a failed write changes nothing" holds by construction. The source gives no such guarantee. `os.MkdirAll` can create the directory before `os.WriteFile` fails, for example on a file name that is too long. `os.WriteFile` truncates the file first, so a failure partway through can leave a partly written entry stamped with the current time. A refresh that runs out of space can therefore leave an entry that checks as fresh but fails to decode until the TTL passes.
- Filesystem failures are modelled by one flag, `writable`. `os.Stat` errors other than "does not exist" are not modelled. The source treats them as "absent" too.
- The `os.Stat` race at cache.go:171-174 is not modelled: the model is single-threaded, so the two stats agree. The source can return `(true, err)` there.
- Go's monotonic clock and the saturation of `time.Since` are not modelled. The clock does not move during a call.
- Error messages and Go error values are not modelled. Errors are named by cause.
- Directory paths (`filepath.Join`) and file permissions are not modelled.
- `CacheProperties.RefreshStoresReply`, `CacheProperties.RequestReturnsFetchedReply` and `Store.Write`: whether a write succeeds here depends only on `writable`, never on the file name. In Go, a custom name whose path needs a subdirectory that does not exist (such as `x/y`, which names `cache/cache-x/y.txt`) fails every write at cache.go:114, because cache.go:68 creates only `cache`. So these properties hold only for names without `/`.
- `CacheKey.ComposeFilenameInjective` and `CacheKey.CustomNameDecidesFile`: distinct names give distinct file names, but not always distinct files. `filepath.Join` cleans the path, so the custom names `a/../b` and `c/../b` both open `cache/b.txt`. The claim of distinct files holds only for names without `/` and without `.` or `..` segments.
- Printing (cache.go:107) is not modelled.
- Concurrent callers on one key are not modelled.
- `main.go` is a scratch program, and `cache_test.go` calls functions that `cache.go` does not define. Neither is part of this model.

## Findings

| source | as written | input that shows it | evidently intended | confidence | as-written member | corrected member |
|---|---|---|---|---|---|---|
| cache.go:40-46 | `mapToString` writes one line per header in Go's map iteration order. That order is unspecified and varies between runs, so one request can hash to different cache names. | Headers `{"a": ["1"], "b": ["2"]}`: the order a, b and the order b, a render different texts, so the hashes and cache files differ | A rendering that depends only on the header map, e.g. with keys in sorted order, which the rest of this model uses | not executed; high | `CacheKey.RenderingDependsOnOrder` | `CacheKey.CanonicalRenderingIsOrderIndependent` |
