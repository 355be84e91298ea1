/** The host-translating reverse proxy: the request director and the response
    rewriter of main.go, with the two small helpers they use. */
module HostProxy {
  import opened Base
  import opened TextOps
  import opened Headers
  import opened Bodies

  /** `stripPort`: the part of `host[:port]` before the first colon, or the
      whole string when it has none. */
  function StripPort(s: string): (r: string)
    ensures r <= s
    ensures ':' !in r
    ensures r == s || s[|r|] == ':'
  {
    if s == [] || s[0] == ':' then [] else [s[0]] + StripPort(s[1..])
  }

  lemma {:induction false} StripPortIdempotent(s: string)
    ensures StripPort(StripPort(s)) == StripPort(s)
  {
    if s != [] && s[0] != ':' {
      var r := StripPort(s[1..]);
      StripPortIdempotent(s[1..]);
      assert ([s[0]] + r)[1..] == r;
    }
  }

  /** A host without a colon is its own host part. */
  lemma {:induction false} StripPortNoColon(s: string)
    requires ':' !in s
    ensures StripPort(s) == s
  {
    if s != [] {
      StripPortNoColon(s[1..]);
    }
  }

  /** A port suffix is cut off and a colon-free host is kept whole. */
  lemma {:induction false} StripPortHostPort(host: string, port: string)
    requires ':' !in host
    ensures StripPort(host + ":" + port) == host
  {
    if host != [] {
      assert (host + ":" + port)[1..] == host[1..] + ":" + port;
      StripPortHostPort(host[1..], port);
    }
  }

  /** Some element of `prefixes` is a prefix of `s`. */
  predicate AnyPrefix(s: string, prefixes: seq<string>)
  {
    exists i | 0 <= i < |prefixes| :: prefixes[i] <= s
  }

  /** `hasAnyPrefix`: tries the prefixes in order and stops at the first hit. */
  method HasAnyPrefix(s: string, prefixes: seq<string>) returns (found: bool)
    ensures found <==> AnyPrefix(s, prefixes)
  {
    for i := 0 to |prefixes|
      invariant forall j :: 0 <= j < i ==> !(prefixes[j] <= s)
    {
      if prefixes[i] <= s {
        return true;
      }
    }
    return false;
  }

  /** The content types whose bodies are rewritten. */
  const MimePrefixes: seq<string> :=
    ["text/html", "text/css", "application/javascript", "application/json"]

  /** A response is eligible for body rewriting when its first Content-Type
      value starts with one of the textual MIME prefixes. */
  predicate Eligible(h: HeaderMap)
  {
    AnyPrefix(Get(h, "Content-Type"), MimePrefixes)
  }

  /** A missing Content-Type, or one without values, reads as "" and is never
      eligible. */
  lemma MissingContentTypeIneligible(h: HeaderMap)
    requires "Content-Type" !in h || h["Content-Type"] == []
    ensures !Eligible(h)
  {
    assert Get(h, "Content-Type") == "";
    forall i | 0 <= i < |MimePrefixes| ensures !(MimePrefixes[i] <= "") {
      assert |MimePrefixes[i]| > 0;
    }
  }

  /** HTML with a charset parameter is eligible; a PNG image is not. */
  lemma ContentTypeGating()
    ensures Eligible(map["Content-Type" := ["text/html; charset=utf-8"]])
    ensures !Eligible(map["Content-Type" := ["image/png"]])
  {
    var html := "text/html; charset=utf-8";
    assert MimePrefixes[0] <= html by {
      assert html[..9] == "text/html";
    }
    var png := "image/png";
    forall i | 0 <= i < |MimePrefixes| ensures !(MimePrefixes[i] <= png) {
      assert MimePrefixes[i][0] != png[0];
    }
  }

  /** The parsed backend URL: scheme and `host[:port]`. */
  datatype Target = Target(scheme: string, host: string)

  /** The parts of a request URL the director touches or must leave alone. */
  class Url {
    var scheme: string
    var host: string
    var path: string
    var rawQuery: string

    constructor (scheme: string, host: string, path: string, rawQuery: string)
      ensures this.scheme == scheme && this.host == host
      ensures this.path == path && this.rawQuery == rawQuery
    {
      this.scheme, this.host, this.path, this.rawQuery := scheme, host, path, rawQuery;
    }
  }

  /** An in-flight request: its URL, the wire Host kept apart from the header
      map, and the header map. */
  class Request {
    var url: Url
    var host: string
    var header: HeaderMap

    constructor (url: Url, host: string, header: HeaderMap)
      ensures this.url == url && this.host == host && this.header == header
    {
      this.url, this.host, this.header := url, host, header;
    }
  }

  /** A backend response, with the request that produced it. */
  class Response {
    var header: HeaderMap
    var body: Body
    const request: Request

    constructor (header: HeaderMap, body: Body, request: Request)
      ensures this.header == header && this.body == body && this.request == request
    {
      this.header, this.body, this.request := header, body, request;
    }
  }

  /** The per-value rewrite `strings.Replace(s, from, to, -1)`. */
  function HostRewriter(from: string, to: string): string -> string
  {
    s => ReplaceAll(s, from, to)
  }

  /** The header map after User-Agent defaulting: a field that is present, even
      with no values, is kept; a missing one is set to a single empty value. */
  function WithDefaultUserAgent(h: HeaderMap): (r: HeaderMap)
    ensures r.Keys == h.Keys + {"User-Agent"}
    ensures forall k :: k in h ==> r[k] == h[k]
    ensures "User-Agent" !in h ==> r["User-Agent"] == [""]
  {
    if "User-Agent" in h then h else Set(h, "User-Agent", "")
  }

  /** The request header map the director produces when the Referer rewrite
      reads `from` as the host to replace and `to` as its replacement. */
  function DirectedHeader(h: HeaderMap, from: string, to: string): HeaderMap
  {
    MapField(WithDefaultUserAgent(h), "Referer", HostRewriter(StripPort(from), StripPort(to)))
  }

  /** As written, the Referer rewrite reads the host it has just overwritten,
      so it replaces the backend host by itself: only User-Agent can change. */
  lemma RefererUnchangedAsWritten(h: HeaderMap, host: string)
    ensures DirectedHeader(h, host, host) == WithDefaultUserAgent(h)
  {
    var u := WithDefaultUserAgent(h);
    var f := HostRewriter(StripPort(host), StripPort(host));
    if "Referer" in u {
      forall i | 0 <= i < |u["Referer"]| ensures f(u["Referer"][i]) == u["Referer"][i] {
        ReplaceAllSelf(u["Referer"][i], StripPort(host));
      }
    }
    MapFieldFixed(u, "Referer", f);
  }

  /** The discrepancy: for a Referer naming the client's host once, the
      director as written leaves it naming the client, while the rewrite the
      code sets out to do would name the backend in its place. */
  lemma {:induction false} RefererRewriteSkipped(h: HeaderMap, clientHost: string, backendHost: string,
                                                 a: string, b: string)
    requires StripPort(clientHost) != [] && StripPort(clientHost) != StripPort(backendHost)
    requires "Referer" in h && h["Referer"] == [a + StripPort(clientHost) + b]
    requires forall i: nat :: i < |a| ==>
      !MatchAt(a + StripPort(clientHost) + b, StripPort(clientHost), i)
    requires !Occurs(b, StripPort(clientHost))
    ensures DirectedHeader(h, backendHost, backendHost)["Referer"] == [a + StripPort(clientHost) + b]
    ensures DirectedHeader(h, clientHost, backendHost)["Referer"] == [a + StripPort(backendHost) + b]
    ensures DirectedHeader(h, backendHost, backendHost) != DirectedHeader(h, clientHost, backendHost)
  {
    var c, d := StripPort(clientHost), StripPort(backendHost);
    RefererUnchangedAsWritten(h, backendHost);
    ReplaceAllSplice(a, c, b, d);
    ReplaceAllAbsent(b, c, d);
    var v := a + c + b;
    assert HostRewriter(c, d)(v) == a + d + b;
    assert DirectedHeader(h, clientHost, backendHost)["Referer"] == [a + d + b];
    ConcatDiffers(a, c, d, b);
  }

  /** Splicing two different strings into the same context gives different strings. */
  lemma ConcatDiffers(a: string, c: string, d: string, b: string)
    requires c != d
    ensures a + c + b != a + d + b
  {
    assert (a + c + b)[|a|..|a| + |c|] == c;
    assert (a + d + b)[|a|..|a| + |d|] == d;
  }

  /** The response header map after the Location and Set-Cookie rewrites. */
  function RewrittenHeader(h: HeaderMap, backendHost: string, reqHost: string): HeaderMap
  {
    var f := HostRewriter(backendHost, reqHost);
    MapField(MapField(h, "Location", f), "Set-Cookie", f)
  }

  /** Only Location and Set-Cookie change, each value by itself, and no field
      gains or loses values; in particular Content-Type and Content-Encoding
      read the same before and after. */
  lemma ResponseHeaderShape(h: HeaderMap, backendHost: string, reqHost: string)
    ensures RewrittenHeader(h, backendHost, reqHost).Keys == h.Keys
    ensures forall k :: k in h ==> |RewrittenHeader(h, backendHost, reqHost)[k]| == |h[k]|
    ensures forall k :: k in h && k != "Location" && k != "Set-Cookie" ==>
      RewrittenHeader(h, backendHost, reqHost)[k] == h[k]
    ensures forall k :: k in h && (k == "Location" || k == "Set-Cookie") ==>
      forall i :: 0 <= i < |h[k]| ==>
        RewrittenHeader(h, backendHost, reqHost)[k][i] == ReplaceAll(h[k][i], backendHost, reqHost)
    ensures Get(RewrittenHeader(h, backendHost, reqHost), "Content-Type") == Get(h, "Content-Type")
    ensures Get(RewrittenHeader(h, backendHost, reqHost), "Content-Encoding") == Get(h, "Content-Encoding")
  {
    var f := HostRewriter(backendHost, reqHost);
    MapFieldShape(h, "Location", f);
    MapFieldShape(MapField(h, "Location", f), "Set-Cookie", f);
  }

  /** A value that does not contain the backend host, or a rewrite whose two
      hosts are equal, leaves the response headers as they were. */
  lemma ResponseHeaderFixed(h: HeaderMap, backendHost: string, reqHost: string)
    requires forall k :: k in h && (k == "Location" || k == "Set-Cookie") ==>
      forall i :: 0 <= i < |h[k]| ==> backendHost == reqHost || !Occurs(h[k][i], backendHost)
    ensures RewrittenHeader(h, backendHost, reqHost) == h
  {
    var f := HostRewriter(backendHost, reqHost);
    forall k, i | k in h && (k == "Location" || k == "Set-Cookie") && 0 <= i < |h[k]|
      ensures f(h[k][i]) == h[k][i]
    {
      if backendHost == reqHost {
        ReplaceAllSelf(h[k][i], backendHost);
      } else {
        ReplaceAllAbsent(h[k][i], backendHost, reqHost);
      }
    }
    MapFieldFixed(h, "Location", f);
    MapFieldFixed(h, "Set-Cookie", f);
  }

  /** A redirect naming the backend host once, followed by a port and a path:
      the host is replaced by the request's host and the port stays where it was. */
  lemma {:induction false} LocationKeepsPort(h: HeaderMap, backendHost: string, reqHost: string,
                                             a: string, port: string, path: string)
    requires backendHost != []
    requires "Location" in h && h["Location"] == [a + backendHost + (":" + port + path)]
    requires forall i: nat :: i < |a| ==>
      !MatchAt(a + backendHost + (":" + port + path), backendHost, i)
    requires !Occurs(":" + port + path, backendHost)
    ensures RewrittenHeader(h, backendHost, reqHost)["Location"] == [a + reqHost + (":" + port + path)]
  {
    var rest := ":" + port + path;
    ResponseHeaderShape(h, backendHost, reqHost);
    ReplaceAllSplice(a, backendHost, rest, reqHost);
    ReplaceAllAbsent(rest, backendHost, reqHost);
    assert RewrittenHeader(h, backendHost, reqHost)["Location"][0] == a + reqHost + rest;
  }

  /** The rewrite does not guarantee that the backend host is gone: when the
      request's host extends the backend's (backend `app`, request host
      `app.example.com`), every substituted host contains the backend host
      again. */
  lemma {:induction false} BackendHostMayRemain(h: HeaderMap, backendHost: string, reqHost: string,
                                                a: string, b: string)
    requires backendHost != [] && backendHost <= reqHost
    requires "Location" in h && h["Location"] == [a + backendHost + b]
    requires forall i: nat :: i < |a| ==> !MatchAt(a + backendHost + b, backendHost, i)
    requires !Occurs(b, backendHost)
    ensures RewrittenHeader(h, backendHost, reqHost)["Location"] == [a + reqHost + b]
    ensures Occurs(RewrittenHeader(h, backendHost, reqHost)["Location"][0], backendHost)
  {
    ResponseHeaderShape(h, backendHost, reqHost);
    ReplaceAllSplice(a, backendHost, b, reqHost);
    ReplaceAllAbsent(b, backendHost, reqHost);
    var v := a + reqHost + b;
    assert RewrittenHeader(h, backendHost, reqHost)["Location"][0] == v;
    assert v[|a|..|a| + |backendHost|] == reqHost[..|backendHost|] == backendHost;
    assert MatchAt(v, backendHost, |a|);
  }

  /** The body bytes the rewrite works on: the bytes read, decompressed first
      when the header map says the body is gzip-encoded. */
  function DecodeBody(h: HeaderMap, raw: Result<seq<byte>>,
                      gunzip: seq<byte> -> Result<seq<byte>>): Result<seq<byte>>
  {
    if raw.Ok? && Get(h, "Content-Encoding") == "gzip" then gunzip(raw.value) else raw
  }

  /** The eligible branch of `modifyBackendResponse`: reads the whole body
      (through the gzip decoder when the body is gzip-encoded), installs the
      rewritten bytes as a `closingBuffer` and drops the framing headers. The
      original body is closed, once, on every path out, as the deferred
      `Close` does. */
  method RewriteBody(resp: Response, backendHost: string, reqHost: string,
                     gunzip: seq<byte> -> Result<seq<byte>>)
    returns (err: Option<Error>)
    modifies resp, resp.body.Objects()
    ensures old(resp.body).Backend? ==>
      && old(resp.body).stream.closes == old(resp.body.stream.closes) + 1
      && old(resp.body).stream.unread == []
    ensures old(resp.body).Buffered? ==> old(resp.body).buffer.buf == []
    ensures DecodeBody(old(resp.header), old(resp.body.Outcome()), gunzip).Err? ==>
      && err == Some(DecodeBody(old(resp.header), old(resp.body.Outcome()), gunzip).error)
      && resp.header == old(resp.header)
      && resp.body == old(resp.body)
    ensures DecodeBody(old(resp.header), old(resp.body.Outcome()), gunzip).Ok? ==>
      && err == None
      && resp.header == Del(Del(old(resp.header), "Content-Length"), "Content-Encoding")
      && resp.body.Buffered?
      && fresh(resp.body.buffer)
      && resp.body.buffer.buf ==
         ReplaceAll(DecodeBody(old(resp.header), old(resp.body.Outcome()), gunzip).value,
                    Utf8(backendHost), Utf8(reqHost))
  {
    var body := resp.body;
    var gzipped := Get(resp.header, "Content-Encoding") == "gzip";
    var content := ReadAll(body);
    if gzipped && content.Ok? {
      content := gunzip(content.value);
    }
    if content.Err? {
      Close(body);  // deferred
      return Some(content.error);
    }
    var buffer := new ClosingBuffer(ReplaceAll(content.value, Utf8(backendHost), Utf8(reqHost)));
    resp.body := Buffered(buffer);
    resp.header := Del(Del(resp.header, "Content-Length"), "Content-Encoding");
    Close(body);  // deferred
    return None;
  }

  /** The header half of `modifyBackendResponse`: every Location and every
      Set-Cookie value has the backend host replaced by the request's host. */
  method RewriteHeaders(resp: Response, backendHost: string, reqHost: string)
    modifies resp
    ensures resp.header == RewrittenHeader(old(resp.header), backendHost, reqHost)
    ensures resp.body == old(resp.body)
  {
    var h := MapHeaderVals(resp.header, "Location", HostRewriter(backendHost, reqHost));
    resp.header := h;
    h := MapHeaderVals(resp.header, "Set-Cookie", HostRewriter(backendHost, reqHost));
    resp.header := h;
  }

  /** `proxy`: the fixed backend target shared by every request. */
  class Proxy {
    const backendURL: Target

    constructor (backendURL: Target)
      ensures this.backendURL == backendURL
    {
      this.backendURL := backendURL;
    }

    /** The response header map once Location and Set-Cookie have had the
        backend host replaced by `requestHost` (`resp.Request.Host`), both
        without ports. */
    function RewrittenFor(h: HeaderMap, requestHost: string): HeaderMap
    {
      RewrittenHeader(h, StripPort(backendURL.host), StripPort(requestHost))
    }

    /** `modifyBackendRequest`, as written: the wire Host is overwritten before
        the Referer rewrite reads it. */
    method ModifyBackendRequest(req: Request)
      modifies req, req.url
      ensures req.url == old(req.url)
      ensures req.url.scheme == backendURL.scheme && req.url.host == backendURL.host
      ensures req.url.path == old(req.url.path) && req.url.rawQuery == old(req.url.rawQuery)
      ensures req.host == backendURL.host
      ensures req.header == DirectedHeader(old(req.header), backendURL.host, backendURL.host)
      ensures req.header == WithDefaultUserAgent(old(req.header))
    {
      req.url.scheme := backendURL.scheme;
      req.url.host := backendURL.host;
      req.host := backendURL.host;
      if "User-Agent" !in req.header {
        req.header := Set(req.header, "User-Agent", "");
      }
      // `req.Host` is read here, after it was set to the backend host.
      var h := MapHeaderVals(req.header, "Referer",
                             HostRewriter(StripPort(req.host), StripPort(backendURL.host)));
      req.header := h;
      RefererUnchangedAsWritten(old(req.header), backendURL.host);
    }

    /** The request director as its comments describe it: the client's host is
        remembered before the wire Host is overwritten, and Referer values
        have it replaced by the backend host. */
    method ModifyBackendRequestIntended(req: Request)
      modifies req, req.url
      ensures req.url == old(req.url)
      ensures req.url.scheme == backendURL.scheme && req.url.host == backendURL.host
      ensures req.url.path == old(req.url.path) && req.url.rawQuery == old(req.url.rawQuery)
      ensures req.host == backendURL.host
      ensures req.header == DirectedHeader(old(req.header), old(req.host), backendURL.host)
    {
      var clientHost := req.host;
      req.url.scheme := backendURL.scheme;
      req.url.host := backendURL.host;
      req.host := backendURL.host;
      if "User-Agent" !in req.header {
        req.header := Set(req.header, "User-Agent", "");
      }
      var h := MapHeaderVals(req.header, "Referer",
                             HostRewriter(StripPort(clientHost), StripPort(backendURL.host)));
      req.header := h;
    }

    /** `modifyBackendResponse`: rewrites Location and Set-Cookie, then, for an
        eligible Content-Type, replaces the body by its rewritten text. */
    method ModifyBackendResponse(resp: Response, gunzip: seq<byte> -> Result<seq<byte>>)
      returns (err: Option<Error>)
      modifies resp, resp.body.Objects()
      ensures !Eligible(RewrittenFor(old(resp.header), old(resp.request.host))) ==>
        && err == None
        && resp.header == RewrittenFor(old(resp.header), old(resp.request.host))
        && resp.body == old(resp.body)
        && unchanged(old(resp.body).Objects())
      ensures Eligible(RewrittenFor(old(resp.header), old(resp.request.host))) ==>
        && (old(resp.body).Backend? ==>
              && old(resp.body).stream.closes == old(resp.body.stream.closes) + 1
              && old(resp.body).stream.unread == [])
        && (old(resp.body).Buffered? ==> old(resp.body).buffer.buf == [])
      ensures Eligible(RewrittenFor(old(resp.header), old(resp.request.host))) &&
              DecodeBody(old(resp.header), old(resp.body.Outcome()), gunzip).Err? ==>
        && err == Some(DecodeBody(old(resp.header), old(resp.body.Outcome()), gunzip).error)
        && resp.header == RewrittenFor(old(resp.header), old(resp.request.host))
        && resp.body == old(resp.body)
      ensures Eligible(RewrittenFor(old(resp.header), old(resp.request.host))) &&
              DecodeBody(old(resp.header), old(resp.body.Outcome()), gunzip).Ok? ==>
        && err == None
        && resp.header == Del(Del(RewrittenFor(old(resp.header), old(resp.request.host)),
                                  "Content-Length"), "Content-Encoding")
        && resp.body.Buffered?
        && fresh(resp.body.buffer)
        && resp.body.buffer.buf ==
           ReplaceAll(DecodeBody(old(resp.header), old(resp.body.Outcome()), gunzip).value,
                      Utf8(StripPort(backendURL.host)), Utf8(StripPort(old(resp.request.host))))
    {
      ghost var raw := resp.body.Outcome();
      var backendHost := StripPort(backendURL.host);
      var reqHost := StripPort(resp.request.host);
      RewriteHeaders(resp, backendHost, reqHost);
      ResponseHeaderShape(old(resp.header), backendHost, reqHost);
      assert raw == old(resp.body.Outcome());
      assert DecodeBody(resp.header, raw, gunzip) == DecodeBody(old(resp.header), raw, gunzip);

      var contentType := Get(resp.header, "Content-Type");
      var eligible := HasAnyPrefix(contentType, MimePrefixes);
      if eligible {
        err := RewriteBody(resp, backendHost, reqHost, gunzip);
      } else {
        err := None;
      }
    }
  }
}
