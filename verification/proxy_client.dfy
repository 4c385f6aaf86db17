/**
 * The proxy client's rules before the request leaves: the method allow-list,
 * the service lookup, the target URL, and the outgoing header set built from
 * the service's auth headers, the request's headers and a default
 * `Content-Type`.  Header names are canonicalized as Go's `net/http` does,
 * which makes them case-insensitive as section 5.1 of RFC 9110 requires.
 */
module ProxyClient {
  import opened Wrappers
  import opened Dicts
  import opened Text
  import opened Requests
  import opened SpecStorage

  // ---------------------------------------------------------------------------
  // isValidHTTPMethod

  /**
   * `isValidHTTPMethod`: exactly the seven upper-case names GET, POST, PUT,
   * PATCH, DELETE, HEAD and OPTIONS; method names are case-sensitive.
   */
  predicate IsValidHttpMethod(s: string) {
    s in {"GET", "POST", "PUT", "PATCH", "DELETE", "HEAD", "OPTIONS"}
  }

  /** The allow-list is exactly the names of the methods the front end can send. */
  lemma ValidMethodNames(s: string)
    ensures IsValidHttpMethod(s) <==> exists m :: s == MethodName(m)
  {
    if IsValidHttpMethod(s) {
      var m :=
        if s == "GET" then GET else if s == "POST" then POST else if s == "PUT" then PUT
        else if s == "PATCH" then PATCH else if s == "DELETE" then DELETE else if s == "HEAD" then HEAD
        else OPTIONS;
      assert s == MethodName(m);
    }
  }

  /** Lower case, TRACE, CONNECT and the empty name are refused. */
  lemma RefusedMethods()
    ensures !IsValidHttpMethod("get") && !IsValidHttpMethod("Post")
    ensures !IsValidHttpMethod("TRACE") && !IsValidHttpMethod("CONNECT") && !IsValidHttpMethod("")
  {
  }

  // ---------------------------------------------------------------------------
  // Header-name canonicalization

  predicate IsAsciiLetter(c: char) {
    'a' <= c <= 'z' || 'A' <= c <= 'Z'
  }

  /** A `tchar` of section 5.6.2 of RFC 9110. */
  predicate IsTokenChar(c: char) {
    IsAsciiLetter(c) || '0' <= c <= '9' || c in "!#$%&'*+-.^_`|~"
  }

  predicate IsToken(k: string) {
    k == [] || (IsTokenChar(k[0]) && IsToken(k[1..]))
  }

  /** One character of a canonical key: upper case at the start of a word, lower case inside it. */
  function CanonChar(c: char, upper: bool): (d: char)
    ensures IsAsciiLetter(c) <==> IsAsciiLetter(d)
    ensures LowerAsciiChar(d) == LowerAsciiChar(c)
    ensures d == '-' <==> c == '-'
  {
    if upper && 'a' <= c <= 'z' then (c as int - 32) as char
    else if !upper && 'A' <= c <= 'Z' then (c as int + 32) as char
    else c
  }

  function CanonFrom(k: string, upper: bool): (r: string)
    ensures |r| == |k|
  {
    if k == [] then []
    else
      var d := CanonChar(k[0], upper);
      [d] + CanonFrom(k[1..], d == '-')
  }

  /**
   * `CanonicalMIMEHeaderKey`: the first letter and each letter after a `-` in
   * upper case, the others in lower case; a key holding anything other than
   * token characters is left as it is.
   */
  function CanonicalKey(k: string): (r: string)
    ensures |r| == |k|
    ensures !IsToken(k) ==> r == k
  {
    if IsToken(k) then CanonFrom(k, true) else k
  }

  lemma {:induction false} CanonFromToken(k: string, upper: bool)
    requires IsToken(k)
    ensures IsToken(CanonFrom(k, upper))
    ensures LowerAscii(CanonFrom(k, upper)) == LowerAscii(k)
  {
    if k != [] {
      var d := CanonChar(k[0], upper);
      CanonFromToken(k[1..], d == '-');
      var rest := CanonFrom(k[1..], d == '-');
      assert CanonFrom(k, upper) == [d] + rest;
      assert IsTokenChar(d) by { assert IsTokenChar(k[0]); }
    }
  }

  lemma {:induction false} CanonFromIdempotent(k: string, upper: bool)
    ensures CanonFrom(CanonFrom(k, upper), upper) == CanonFrom(k, upper)
  {
    if k != [] {
      var d := CanonChar(k[0], upper);
      CanonFromIdempotent(k[1..], d == '-');
      assert CanonFrom(k, upper)[1..] == CanonFrom(k[1..], d == '-');
    }
  }

  /** Two token keys name the same header exactly when they agree ignoring ASCII case. */
  lemma {:induction false} CanonFromCaseInsensitive(a: string, b: string, upper: bool)
    requires IsToken(a) && IsToken(b)
    ensures CanonFrom(a, upper) == CanonFrom(b, upper) <==> LowerAscii(a) == LowerAscii(b)
  {
    if a != [] && b != [] {
      var da := CanonChar(a[0], upper);
      var db := CanonChar(b[0], upper);
      assert IsTokenChar(a[0]) && IsTokenChar(b[0]);
      assert da == db <==> LowerAsciiChar(a[0]) == LowerAsciiChar(b[0]);
      CanonFromCaseInsensitive(a[1..], b[1..], da == '-');
      ConsEquals(da, CanonFrom(a[1..], da == '-'), db, CanonFrom(b[1..], db == '-'));
      ConsEquals(LowerAsciiChar(a[0]), LowerAscii(a[1..]), LowerAsciiChar(b[0]), LowerAscii(b[1..]));
    }
  }

  lemma ConsEquals(x: char, xs: string, y: char, ys: string)
    ensures [x] + xs == [y] + ys <==> x == y && xs == ys
  {
    if [x] + xs == [y] + ys {
      assert ([x] + xs)[0] == x && ([x] + xs)[1..] == xs;
      assert ([y] + ys)[0] == y && ([y] + ys)[1..] == ys;
    }
  }

  /** Canonicalizing twice is canonicalizing once. */
  lemma CanonicalKeyIdempotent(k: string)
    ensures CanonicalKey(CanonicalKey(k)) == CanonicalKey(k)
  {
    if IsToken(k) {
      CanonFromToken(k, true);
      CanonFromIdempotent(k, true);
    }
  }

  /** For token keys, `CanonicalKey` identifies exactly the keys that differ only in ASCII case. */
  lemma CanonicalKeyCaseInsensitive(a: string, b: string)
    requires IsToken(a) && IsToken(b)
    ensures CanonicalKey(a) == CanonicalKey(b) <==> LowerAscii(a) == LowerAscii(b)
  {
    CanonFromCaseInsensitive(a, b, true);
  }

  // ---------------------------------------------------------------------------
  // Header composition

  /** A header set: canonical key to its single value (`Header.Set` keeps one value). */
  type Headers = map<string, string>

  const ContentType := "Content-Type"
  const JsonMediaType := "application/json"

  /** `Header.Get("Content-Type")`: the value under that key, or "" when there is none. */
  function ContentTypeValue(h: Headers): string {
    if ContentType in h then h[ContentType] else ""
  }

  /** The pairs with their keys canonicalized, in order. */
  function Canonical(pairs: Dict<string>): (r: Dict<string>)
    ensures |r| == |pairs|
    ensures forall i :: 0 <= i < |pairs| ==> r[i] == (CanonicalKey(pairs[i].0), pairs[i].1)
  {
    seq(|pairs|, i requires 0 <= i < |pairs| => (CanonicalKey(pairs[i].0), pairs[i].1))
  }

  /** Each pair set in turn, a later key over an earlier one. */
  function Overlay(h: Headers, pairs: Dict<string>): (r: Headers)
    ensures r.Keys == h.Keys + KeySet(pairs)
  {
    if pairs == [] then h
    else
      var front := pairs[..|pairs| - 1];
      var last := pairs[|pairs| - 1];
      assert KeySet(pairs) == KeySet(front) + {last.0} by {
        assert pairs == front + [last];
        forall i | 0 <= i < |front| ensures front[i] == pairs[i] { }
      }
      Overlay(h, front)[last.0 := last.1]
  }

  /** After the overlay, a key holds the last value set under it, or what it held before. */
  lemma {:induction false} OverlayLookup(h: Headers, pairs: Dict<string>, k: string)
    ensures var r := Overlay(h, pairs);
      && (k in r <==> LookupLast(pairs, k).Some? || k in h)
      && (k in r ==> r[k] == if LookupLast(pairs, k).Some? then LookupLast(pairs, k).value else h[k])
  {
    if pairs != [] {
      OverlayLookup(h, pairs[..|pairs| - 1], k);
    }
  }

  /** `Header.Get("Content-Type")` reads the key `Content-Type` itself. */
  lemma ContentTypeIsCanonical()
    ensures CanonicalKey(ContentType) == ContentType
  {
    assert ContentType == ['C'] + "ontent" + "-" + ['T'] + "ype";
    TwoWordsCanonical('C', "ontent", 'T', "ype");
  }

  /** A key of two capitalized words joined by `-` is already canonical. */
  lemma TwoWordsCanonical(a: char, w1: string, b: char, w2: string)
    requires 'A' <= a <= 'Z' && 'A' <= b <= 'Z'
    requires forall i :: 0 <= i < |w1| ==> 'a' <= w1[i] <= 'z'
    requires forall i :: 0 <= i < |w2| ==> 'a' <= w2[i] <= 'z'
    ensures var k := [a] + w1 + "-" + [b] + w2; CanonicalKey(k) == k
  {
    TwoWordsToken(a, w1, b, w2);
    TwoWordsCanonFrom(a, w1, b, w2);
  }

  lemma TwoWordsToken(a: char, w1: string, b: char, w2: string)
    requires 'A' <= a <= 'Z' && 'A' <= b <= 'Z'
    requires forall i :: 0 <= i < |w1| ==> 'a' <= w1[i] <= 'z'
    requires forall i :: 0 <= i < |w2| ==> 'a' <= w2[i] <= 'z'
    ensures IsToken([a] + w1 + "-" + [b] + w2)
  {
    LettersAndDashesAreToken(w1);
    LettersAndDashesAreToken(w2);
    assert IsToken([a]) && IsToken("-") && IsToken([b]);
    TokenAppend([a], w1);
    TokenAppend([a] + w1, "-");
    TokenAppend([a] + w1 + "-", [b]);
    TokenAppend([a] + w1 + "-" + [b], w2);
  }

  lemma TwoWordsCanonFrom(a: char, w1: string, b: char, w2: string)
    requires 'A' <= a <= 'Z' && 'A' <= b <= 'Z'
    requires forall i :: 0 <= i < |w1| ==> 'a' <= w1[i] <= 'z'
    requires forall i :: 0 <= i < |w2| ==> 'a' <= w2[i] <= 'z'
    ensures var k := [a] + w1 + "-" + [b] + w2; CanonFrom(k, true) == k
  {
    var tail := [b] + w2;
    OneWordCanon(b, w2);
    var dashed := "-" + tail;
    assert CanonFrom(dashed, false) == "-" + CanonFrom(tail, true);
    LowerRunKept(w1, dashed);
    var k := [a] + (w1 + dashed);
    assert CanonFrom(k, true) == [a] + CanonFrom(w1 + dashed, false);
    assert k == [a] + w1 + "-" + [b] + w2;
  }

  /** A capital followed by lower-case letters is already canonical at the start of a word. */
  lemma OneWordCanon(b: char, w: string)
    requires 'A' <= b <= 'Z'
    requires forall i :: 0 <= i < |w| ==> 'a' <= w[i] <= 'z'
    ensures CanonFrom([b] + w, true) == [b] + w
  {
    LowerRunKept(w, "");
    assert w + "" == w;
    assert CanonFrom([b] + w, true) == [b] + CanonFrom(w, false);
  }

  lemma {:induction false} TokenAppend(x: string, y: string)
    requires IsToken(x) && IsToken(y)
    ensures IsToken(x + y)
  {
    if x != [] {
      TokenAppend(x[1..], y);
      assert (x + y)[0] == x[0] && (x + y)[1..] == x[1..] + y;
    } else {
      assert x + y == y;
    }
  }

  /** Lower-case letters inside a word are kept as they are. */
  lemma {:induction false} LowerRunKept(w: string, rest: string)
    requires forall i :: 0 <= i < |w| ==> 'a' <= w[i] <= 'z'
    ensures CanonFrom(w + rest, false) == w + CanonFrom(rest, false)
  {
    if w != [] {
      LowerRunKept(w[1..], rest);
      assert (w + rest)[0] == w[0] && (w + rest)[1..] == w[1..] + rest;
      assert CanonChar(w[0], false) == w[0];
      assert CanonFrom(w + rest, false) == [w[0]] + CanonFrom(w[1..] + rest, false);
      assert [w[0]] + (w[1..] + CanonFrom(rest, false)) == w + CanonFrom(rest, false);
    } else {
      assert w + rest == rest && w + CanonFrom(rest, false) == CanonFrom(rest, false);
    }
  }

  lemma {:induction false} LettersAndDashesAreToken(k: string)
    requires forall i :: 0 <= i < |k| ==> IsAsciiLetter(k[i]) || k[i] == '-'
    ensures IsToken(k)
  {
    if k != [] {
      LettersAndDashesAreToken(k[1..]);
    }
  }

  /**
   * The outgoing header set: the auth headers, then the request headers over
   * them, then `Content-Type: application/json` when there is a body and no
   * non-empty `Content-Type`.
   */
  function ComposedHeaders(auth: Option<Dict<string>>, requestHeaders: Option<Dict<string>>, body: string): Headers {
    var h := Overlay(Overlay(map[], Canonical(auth.GetOr([]))), Canonical(requestHeaders.GetOr([])));
    if |body| > 0 && ContentTypeValue(h) == "" then h[ContentType := JsonMediaType] else h
  }

  /**
   * The value a canonical key ends with: the last request header that
   * canonicalizes to it if there is one, else the last such auth header;
   * `Content-Type` is `application/json` instead when there is a body and
   * neither sets it to something non-empty.
   */
  lemma ComposedHeaderValue(auth: Option<Dict<string>>, requestHeaders: Option<Dict<string>>, body: string, k: string)
    ensures var fromRequest := LookupLast(Canonical(requestHeaders.GetOr([])), k);
      var before := if fromRequest.Some? then fromRequest else LookupLast(Canonical(auth.GetOr([])), k);
      var h := ComposedHeaders(auth, requestHeaders, body);
      var expected :=
        if k == ContentType && |body| > 0 && (before.None? || before == Some("")) then Some(JsonMediaType) else before;
      (k in h <==> expected.Some?) && (k in h ==> h[k] == expected.value)
  {
    var a := Canonical(auth.GetOr([]));
    var q := Canonical(requestHeaders.GetOr([]));
    var inner := Overlay(map[], a);
    OverlayLookup(map[], a, k);
    OverlayLookup(inner, q, k);
    OverlayLookup(map[], a, ContentType);
    OverlayLookup(inner, q, ContentType);
  }

  /** A request header is found under its canonical key exactly when some request key canonicalizes to it. */
  lemma CanonicalKeys(pairs: Dict<string>, k: string)
    ensures LookupLast(Canonical(pairs), k).Some? <==> exists i :: 0 <= i < |pairs| && CanonicalKey(pairs[i].0) == k
  {
    var c := Canonical(pairs);
    if exists i :: 0 <= i < |pairs| && CanonicalKey(pairs[i].0) == k {
      var i :| 0 <= i < |pairs| && CanonicalKey(pairs[i].0) == k;
      assert c[i].0 == k;
    }
  }

  /** `Forward`'s two header loops and the `Content-Type` default. */
  method ComposeHeaders(auth: Option<Dict<string>>, requestHeaders: Option<Dict<string>>, body: string)
    returns (h: Headers)
    ensures h == ComposedHeaders(auth, requestHeaders, body)
  {
    h := map[];
    if auth.Some? {
      h := SetAll(h, auth.value);
    }
    if requestHeaders.Some? {
      h := SetAll(h, requestHeaders.value);
    }
    if |body| > 0 && ContentTypeValue(h) == "" {
      h := h[ContentType := JsonMediaType];
    }
  }

  /** `for key, value := range pairs { h.Set(key, value) }`. */
  method SetAll(h0: Headers, pairs: Dict<string>) returns (h: Headers)
    ensures h == Overlay(h0, Canonical(pairs))
  {
    h := h0;
    ghost var c := Canonical(pairs);
    for i := 0 to |pairs|
      invariant h == Overlay(h0, c[..i])
    {
      assert c[..i + 1][..i] == c[..i];
      assert c[..i + 1][i] == (CanonicalKey(pairs[i].0), pairs[i].1);
      h := h[CanonicalKey(pairs[i].0) := pairs[i].1];
    }
    assert c[..|pairs|] == c;
  }

  // ---------------------------------------------------------------------------
  // Forward

  /** The proxy request as the handler decodes it; `headers` is `None` when absent. */
  datatype ForwardRequest = ForwardRequest(
    service: string, httpMethod: string, path: string, headers: Option<Dict<string>>, body: string)

  /** The request handed to the HTTP client; `body` is `None` when there is none. */
  datatype OutgoingRequest = OutgoingRequest(httpMethod: string, url: string, headers: Headers, body: Option<string>)

  datatype ForwardError = InvalidMethod(httpMethod: string) | ServiceNotFound(service: string) | BadRequestUrl(url: string)

  /**
   * `Forward` up to sending: the method check, then the configuration lookup,
   * then the URL and the request.  `urlParses` says whether `http.NewRequest`
   * accepts the URL.
   */
  function Prepare(configs: map<string, ServiceConfig>, req: ForwardRequest, urlParses: string -> bool)
    : (r: Result<OutgoingRequest, ForwardError>)
    ensures !IsValidHttpMethod(req.httpMethod) ==> r == Failure(InvalidMethod(req.httpMethod))
    ensures IsValidHttpMethod(req.httpMethod) && req.service !in configs ==> r == Failure(ServiceNotFound(req.service))
    ensures r.Success? ==>
      && IsValidHttpMethod(req.httpMethod) && req.service in configs
      && r.value.httpMethod == req.httpMethod
      && r.value.url == configs[req.service].baseURL + req.path
      && r.value.headers == ComposedHeaders(configs[req.service].authHeaders, req.headers, req.body)
      && (r.value.body.Some? <==> |req.body| > 0)
      && (r.value.body.Some? ==> r.value.body.value == req.body)
    // Past the method and service checks, the request fails exactly when its URL does not parse.
    ensures IsValidHttpMethod(req.httpMethod) && req.service in configs ==>
      (r.Success? <==> urlParses(configs[req.service].baseURL + req.path))
    ensures (&& IsValidHttpMethod(req.httpMethod) && req.service in configs
             && !urlParses(configs[req.service].baseURL + req.path))
      ==> r == Failure(BadRequestUrl(configs[req.service].baseURL + req.path))
  {
    if !IsValidHttpMethod(req.httpMethod) then Failure(InvalidMethod(req.httpMethod))
    else if req.service !in configs then Failure(ServiceNotFound(req.service))
    else
      var config := configs[req.service];
      var url := config.baseURL + req.path;
      if !urlParses(url) then Failure(BadRequestUrl(url))
      else
        Success(OutgoingRequest(
          req.httpMethod, url,
          ComposedHeaders(config.authHeaders, req.headers, req.body),
          if |req.body| > 0 then Some(req.body) else None))
  }

  /** A method outside the allow-list is refused whatever the store holds. */
  lemma MethodCheckedFirst(
    configs1: map<string, ServiceConfig>, configs2: map<string, ServiceConfig>, req: ForwardRequest,
    urlParses: string -> bool)
    requires !IsValidHttpMethod(req.httpMethod)
    ensures Prepare(configs1, req, urlParses) == Prepare(configs2, req, urlParses)
  {
  }

  /** `Forward` against the store, up to sending the request. */
  method Forward(store: FileSpecStore, req: ForwardRequest, urlParses: string -> bool)
    returns (r: Result<OutgoingRequest, ForwardError>)
    ensures r == Prepare(store.configs, req, urlParses)
  {
    if !IsValidHttpMethod(req.httpMethod) {
      return Failure(InvalidMethod(req.httpMethod));
    }
    var config := store.GetConfig(req.service);
    if config.Failure? {
      return Failure(ServiceNotFound(req.service));
    }
    var targetUrl := config.value.baseURL + req.path;
    if !urlParses(targetUrl) {
      return Failure(BadRequestUrl(targetUrl));
    }
    var headers := ComposeHeaders(config.value.authHeaders, req.headers, req.body);
    var body := if |req.body| > 0 then Some(req.body) else None;
    return Success(OutgoingRequest(req.httpMethod, targetUrl, headers, body));
  }
}
