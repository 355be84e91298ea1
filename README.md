# host-translating-proxy, modelled in Dafny

host-translating-proxy is a reverse proxy. It forwards every request to one
backend and makes the backend believe the request was addressed to it. Its
response hook replaces the backend host by the host it reads from
`resp.Request.Host` in Location, Set-Cookie and eligible bodies; it is meant
to make the client believe that the response came from the public host it
addressed. This project models the request director and the response
rewriter in `main.go`, together with the helpers they use:

- `stripPort`, `hasAnyPrefix` and `mapHeaderVals`;
- the `closingBuffer` that carries a rewritten body.

The model has five modules:

- `Base`: bytes, the error kinds, `Result` and `Option`.
- `TextOps`: `strings.Replace` / `bytes.Replace` with `n = -1` as
  `ReplaceAll`, and the UTF-8 encoding behind `[]byte(s)`.
- `Headers`: a Go `http.Header` as a map from canonical field names to value
  lists, with `Get`, `Set` and `Del`, and `mapHeaderVals`.
- `Bodies`: the backend's body stream and `closingBuffer`.
- `HostProxy`: `stripPort`, `hasAnyPrefix`, the request and response
  objects, and the `proxy` type with its two hooks.

Requests, URLs and responses are classes whose fields the hooks update in
place. A header map is a value field that the hooks reassign. The backend
body is a `Stream` object that counts how often it has been closed, so the
model can state that the deferred `Close` runs exactly once on every path.

Gzip decompression is a function parameter `gunzip` of
`ModifyBackendResponse`: it maps the compressed bytes to the decompressed
bytes or to an error. Reading the backend body either yields all of its bytes
or fails.

Three behaviours of the code that are easy to misread:

- **Location and the port.** Only the bare backend host is replaced, by the
  host the response hook reads from `resp.Request.Host` (main.go:87). When
  that host is `public.example.com`, a redirect
  `Location: http://svc-internal:8080/login` comes back as
  `http://public.example.com:8080/login`: the port stays
  (`HostProxy.LocationKeepsPort`).
- **Referer.** The Referer is forwarded unchanged (see "## Findings").
- **The backend host can survive the rewrite.** Replacing every occurrence of
  the backend host does not mean none is left afterwards. When the request
  host extends the backend's, for example backend `app` and request host
  `app.example.com`, the rewritten `http://app.example.com/x` still contains
  `app` (`HostProxy.BackendHostMayRemain`). A replacement can also form a new
  occurrence together with the text next to it. The absence of the backend
  host afterwards therefore holds only under extra conditions on the two
  hosts and the value; the model proves no such general statement.

## Model

| member | source | states |
|---|---|---|
| HostProxy.StripPort | main.go:191-193 | the result is a prefix of the input, contains no colon, and is either the whole input or stops right before its first colon |
| HostProxy.StripPortIdempotent | main.go:191-193 | stripping the port twice is the same as stripping it once |
| HostProxy.StripPortHostPort | main.go:191-193 | for a colon-free host, `host:port` strips to `host` |
| HostProxy.StripPortNoColon | main.go:191-193 | a string without a colon is returned unchanged |
| HostProxy.HasAnyPrefix | main.go:171-178 | returns true exactly when some element of the list is a prefix of the string (both directions) |
| HostProxy.MissingContentTypeIneligible | main.go:101-104 | a missing Content-Type, or one with no values, reads as "" and never selects a body rewrite |
| HostProxy.ContentTypeGating | main.go:106-113 | `text/html; charset=utf-8` selects the body rewrite and `image/png` does not |
| Headers.MapValues | main.go:183-186 | the new value list has the same length, and element i is `update` applied to old element i |
| Headers.MapHeaderVals | main.go:180-189 | no field is added or removed; fields other than `field` are untouched; `field` keeps its value count and element i becomes `update(old[i])`; an absent or empty field leaves the map as it was |
| Headers.MapFieldFixed | main.go:180-189 | when `update` fixes every value of the field, the header map is unchanged |
| TextOps.ReplaceAllSelf | main.go:75-82 | replacing a pattern by itself is the identity, including for the empty pattern |
| TextOps.CountZeroIffAbsent | main.go:90-97 | the number of non-overlapping matches is zero exactly when the pattern does not occur |
| TextOps.ReplaceAllAbsent | main.go:90-97 | a value that does not contain the pattern is returned unchanged |
| TextOps.ReplaceAllLength | main.go:131-136 | result length + matches·\|pattern\| = input length + matches·\|replacement\| |
| TextOps.ReplaceAllSplice | main.go:90-97 | when the leftmost match starts right after `a`, the result is `a`, then the replacement, then the rewrite of the rest |
| TextOps.Utf8 | main.go:133-134 | the byte form of a host has between 1 and 4 bytes per character and is empty only for the empty host |
| Bodies.Stream.ReadAll | main.go:126-129 | a healthy stream yields all its unread bytes; a faulty one yields a read error; the stream ends up drained and its close count is unchanged |
| Bodies.Stream.Close | main.go:116 | the close count goes up by exactly one |
| Bodies.ClosingBuffer.constructor | main.go:167-169 | the buffer holds exactly the given bytes |
| Bodies.ClosingBuffer.Read | main.go:159-161 | copies min(buffered, len(p)) bytes into the front of p and leaves the rest of p alone; the buffer loses exactly those bytes; EOF exactly when the buffer was empty and p is non-empty |
| Bodies.ClosingBuffer.Close | main.go:163-165 | always returns no error and changes nothing |
| Bodies.ReadAll | main.go:126-129 | the result is what the body holds (bytes or read error), and the body is drained without being closed |
| Bodies.Close | main.go:116 | a backend stream's close count goes up by exactly one; a buffer is left as it is |
| HostProxy.WithDefaultUserAgent | main.go:69-72 | a missing User-Agent becomes the single value ""; a present one, even with no values, is kept; no other field changes |
| HostProxy.Proxy.ModifyBackendRequest | main.go:58-83 | URL scheme and host, and the wire Host, become the backend's; path and query are kept; the header map equals the directed map in which the Referer rewrite reads the backend host as the host to replace, and that equals the User-Agent-defaulted map, so Referer is never changed |
| HostProxy.RefererUnchangedAsWritten | main.go:67-82 | with the wire Host already overwritten, the Referer rewrite replaces the backend host by itself and only User-Agent can change |
| HostProxy.RefererRewriteSkipped | main.go:67-82 | for a Referer naming the client host once, the as-written director leaves it naming the client, while the intended one names the backend in its place; the two header maps differ |
| HostProxy.Proxy.ModifyBackendRequestIntended | main.go:58-83 | as `ModifyBackendRequest`, but the Referer values have the client's host (without port) replaced by the backend's host (without port) |
| HostProxy.ResponseHeaderShape | main.go:86-97 | the response rewrite keeps every field and every value count; only Location and Set-Cookie change, each value v becoming `ReplaceAll(v, backendHost, reqHost)`; Content-Type and Content-Encoding read the same |
| HostProxy.ResponseHeaderFixed | main.go:86-97 | when the two hosts are equal, or no Location/Set-Cookie value contains the backend host, the headers are unchanged |
| HostProxy.LocationKeepsPort | main.go:89-92 | a redirect `a + backendHost + ":" + port + path` becomes `a + reqHost + ":" + port + path`: the port stays |
| TextOps.ReplaceAll | main.go:76-81 | `strings.Replace` / `bytes.Replace` with `n = -1`: leftmost, non-overlapping matches replaced in one left-to-right scan; an empty pattern puts the replacement before every element and at the end. Its meaning is stated by the ReplaceAll lemmas below |
| TextOps.Count | main.go:131-136 | the number of non-overlapping matches the replacement scan finds (`strings.Count`), with an empty pattern matching `len + 1` times |
| Headers.Get | main.go:118 | `Header.Get`: the first value of the field, or "" when the field is absent or has no values |
| Headers.Set | main.go:71 | `Header.Set`: afterwards the field holds exactly the one value; every other field keeps its values |
| Headers.Del | main.go:139-140 | `Header.Del`: afterwards the field is absent and reads as ""; every other field keeps its values |
| Headers.MapField | main.go:180-189 | the header map `mapHeaderVals` leaves behind: a field with at least one value has every value passed through `update`; otherwise the map is as it was |
| HostProxy.Eligible | main.go:101-113 | a header map selects the body rewrite when its first Content-Type value, or "" when there is none, starts with `text/html`, `text/css`, `application/javascript` or `application/json` |
| HostProxy.BackendHostMayRemain | main.go:89-97 | when the request host starts with the backend host, a Location value naming the backend once is rewritten to name the request host, and the result still contains the backend host |
| HostProxy.HostRewriter | main.go:75-82 | the per-value closure `strings.Replace(s, from, to, -1)` handed to `mapHeaderVals` for Referer, Location and Set-Cookie (main.go:90-92, 95-97); its meaning is `TextOps.ReplaceAll` |
| HostProxy.DirectedHeader | main.go:69-82 | the header map the director leaves: User-Agent defaulted, then Referer values rewritten from the port-stripped `from` host to the port-stripped `to` host; `RefererUnchangedAsWritten` and `RefererRewriteSkipped` state what it does |
| HostProxy.RewrittenHeader | main.go:89-97 | the header map after the Location rewrite and then the Set-Cookie rewrite with the same closure; `ResponseHeaderShape` and `ResponseHeaderFixed` state what it does |
| HostProxy.DecodeBody | main.go:118-129 | the bytes the body rewrite works on: the read outcome, passed through the gzip decoder when Content-Encoding reads `gzip` and the read succeeded; a read error is returned as is (this read-then-decode order is listed under "## Left out") |
| HostProxy.Proxy.RewrittenFor | main.go:86-97 | the response header rewrite with both hosts port-stripped: the backend URL's host and `resp.Request.Host` |
| HostProxy.RewriteHeaders | main.go:86-97 | the new header map is the Location/Set-Cookie rewrite of the old one, and the body is not touched |
| HostProxy.RewriteBody | main.go:113-141 | the original body is drained and closed exactly once; on a read or gzip error that error is returned and the body and headers are kept; otherwise the body becomes a new buffer holding the decoded bytes with every backend host replaced by the request host, and Content-Length and Content-Encoding are removed |
| HostProxy.Proxy.ModifyBackendResponse | main.go:85-144 | headers are rewritten as above; an ineligible Content-Type returns no error and leaves the body object and its state untouched; an eligible one closes the original body exactly once and then either returns the read/gzip error with the body kept, or installs the rewritten buffer and drops Content-Length and Content-Encoding |

## Left out

- `main`, `newProxy` (URL parsing of the backend address), `proxy.handler`,
  the `httputil.ReverseProxy` plumbing and `handlers.CompressHandler` are
  outside the modelled core. The backend target is a value with the
  already-parsed scheme and host.
- Gzip decoding is the parameter `gunzip`. The model does not capture the
  DEFLATE format, or the fact that `gzip.NewReader` fails on the header
  before the rest of the stream is read.
- HostProxy.RewriteBody reads the whole stream before decoding, through
  `DecodeBody`. This has two consequences. On malformed gzip data, the model
  has drained the stream where Go stops reading at the bad data; the stream
  is closed right after either way. And when the stream would fail after
  malformed gzip data, header or body, the model returns the read error
  `ReadFailed`. Go decodes as it reads (`gzip.NewReader` at main.go:120-123
  reads the header, `ioutil.ReadAll` at main.go:126 the rest), so it returns
  the gzip error before the stream fault is reached.
- HostProxy.DecodeBody decodes only the complete read outcome: a stream
  fault anywhere yields `Err(ReadFailed)` before the decoder runs. So when
  malformed gzip data, header or body, comes before a stream fault, it
  returns `ReadFailed`, where Go returns the gzip error
  (`gzip.NewReader` at main.go:120-123, or the decoding read at main.go:126).
- HostProxy.Proxy.ModifyBackendResponse inherits both differences from
  `RewriteBody`: on an eligible gzip-encoded body it drains the stream before
  decoding, and when malformed gzip data, header or body, comes before a
  stream fault its error is `ReadFailed` where Go returns the gzip error.
- HostProxy.Proxy.ModifyBackendResponse takes `resp.Request.Host`
  (main.go:87) as an input, `resp.request.host`. Which request
  `httputil.ReverseProxy` attaches to the response, and so what that host
  holds at run time, is decided by the left-out plumbing; the model does not
  decide it. If it is the request the director has already rewritten, its
  host is the backend host, and `HostProxy.ResponseHeaderFixed` (equal hosts)
  shows that the header rewrite then changes nothing.
- Bodies.Stream.ReadAll: a failing read returns only the error. The model
  does not carry the partial bytes that `ioutil.ReadAll` also returns,
  because the proxy discards them.
- Header field names are taken to be in canonical form. The model does not
  capture canonicalisation by `Header.Get/Set/Del`: every key the proxy uses
  is a canonical literal, and the Content-Type lookup at main.go:102-103
  does not canonicalise either.
- Header maps are values reassigned into the request or response. Aliasing
  of the Go map by other holders is not modelled.
- The backend host is empty when the backend URL has no host name before
  its port: `http://:8080` parses to host `:8080`, and `stripPort` of it is
  `""`. Then every Location and Set-Cookie value, and an eligible body, gets
  the request host inserted at every position (main.go:91, 96, 131-136). The
  model keeps that behaviour for header values, which are strings. It
  differs from Go only in the body: on non-ASCII text `bytes.Replace`
  inserts between runes, while `TextOps.ReplaceAll` inserts between bytes.
- Go strings that are not valid UTF-8 are not modelled. Strings are
  sequences of Unicode scalar values, and `[]byte(s)` is their UTF-8
  encoding.
- Concurrency between requests is not modelled. Each hook call owns its
  request or response.

## Findings

| source | as written | input that shows it | evidently intended | confidence | as-written member | corrected member |
|---|---|---|---|---|---|---|
| main.go:67-82 | `req.Host` is set to the backend host at line 67, and the Referer rewrite reads it again at line 78. So it replaces the backend host by itself and never changes a Referer. | backend `http://svc-internal:8080`, request Host `public.example.com`, `Referer: http://public.example.com/page`: the Referer is forwarded unchanged | replace the client's host (captured before line 67) by the backend host, giving `http://svc-internal/page` | high, not executed | HostProxy.Proxy.ModifyBackendRequest, HostProxy.RefererRewriteSkipped | HostProxy.Proxy.ModifyBackendRequestIntended |
