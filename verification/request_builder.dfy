/**
 * Turning the request form into the request sent to the proxy: placeholder
 * substitution, the query string, the header record and the body.
 */
module RequestBuilder {
  import opened Wrappers
  import opened Dicts
  import opened Text
  import opened JsonValues
  import opened PercentEncoding
  import opened PathTemplates
  import opened Requests
  import opened Sequences

  /** The text `{key}` one substitution looks for. */
  function Placeholder(key: string): string {
    "{" + key + "}"
  }

  /**
   * The path after the substitution loop: entry by entry, in record order, the
   * first `{key}` is replaced by the encoded value (a string pattern replaces
   * only its first occurrence, and the encoded value holds no `$`).
   */
  function SubstitutePath(path: string, params: Dict<string>): string
    decreases |params|
  {
    if params == [] then path
    else SubstitutePath(ReplaceFirst(path, Placeholder(params[0].0), EncodeUriComponent(params[0].1)), params[1..])
  }

  /** The query entries that survive: those with a non-empty value, in order. */
  function QueryPairs(params: Dict<string>): (pairs: seq<(string, string)>)
    ensures |pairs| <= |params|
    ensures forall p :: p in pairs <==> p in params && p.1 != ""
    ensures Subsequence(pairs, params)
    ensures forall p :: multiset(pairs)[p] == if p.1 != "" then multiset(params)[p] else 0
  {
    if params == [] then []
    else
      var last := params[|params| - 1];
      var front := QueryPairs(params[..|params| - 1]);
      assert params == params[..|params| - 1] + [last];
      if last.1 != "" then
        SubsequenceSnoc(front, params[..|params| - 1], last);
        front + [last]
      else
        SubsequenceExtend(front, params[..|params| - 1], last);
        front
  }

  /** `?` and the serialized query, or nothing when no entry survives. */
  function QuerySuffix(params: Dict<string>): (s: string)
    ensures s == "" <==> forall i :: 0 <= i < |params| ==> params[i].1 == ""
    ensures s != "" ==> s[0] == '?' && ParseForm(s[1..]) == QueryPairs(params)
    ensures '#' !in s
  {
    var pairs := QueryPairs(params);
    var query := Serialize(pairs);
    ParseSerialize(pairs);
    assert pairs == [] <==> forall i :: 0 <= i < |params| ==> params[i].1 == "" by {
      if pairs != [] {
        assert pairs[0] in params;
      }
      if exists i :: 0 <= i < |params| && params[i].1 != "" {
        var i :| 0 <= i < |params| && params[i].1 != "";
        assert params[i] in pairs;
      }
    }
    if query != "" then "?" + query else ""
  }

  /** The header record after the loop, starting from `acc`: entries with an empty key or value are skipped. */
  function KeptHeaders(h: Dict<string>, acc: Dict<string>): (r: Dict<string>)
    ensures |r| >= |acc|
  {
    if h == [] then acc
    else
      PutKeys(acc, h[0].0, h[0].1);
      KeptHeaders(h[1..], if h[0].0 != "" && h[0].1 != "" then Put(acc, h[0].0, h[0].1) else acc)
  }

  /** Whether the header named `k` makes it into the request. */
  predicate HeaderKept(h: Dict<string>, k: string) {
    k != "" && Lookup(h, k).Some? && Lookup(h, k).value != ""
  }

  /** The request's header record holds exactly the entries with a non-empty name and value. */
  lemma {:induction false} KeptHeadersLookup(h: Dict<string>, acc: Dict<string>, k: string)
    requires UniqueKeys(h)
    ensures Lookup(KeptHeaders(h, acc), k) == if HeaderKept(h, k) then Lookup(h, k) else Lookup(acc, k)
  {
    if h != [] {
      var acc' := if h[0].0 != "" && h[0].1 != "" then Put(acc, h[0].0, h[0].1) else acc;
      UniqueKeysDrop(h, 0);
      assert h[0..] == h;
      KeptHeadersLookup(h[1..], acc', k);
      if k == h[0].0 {
        assert Lookup(h, k) == Some(h[0].1);
        assert Lookup(h[1..], k) == None;
      } else {
        assert Lookup(h, k) == Lookup(h[1..], k);
      }
    }
  }

  /** The record is empty exactly when no entry has both a name and a value. */
  lemma {:induction false} KeptHeadersEmpty(h: Dict<string>)
    ensures KeptHeaders(h, []) == [] <==> forall i :: 0 <= i < |h| ==> h[i].0 == "" || h[i].1 == ""
  {
    if h != [] {
      if h[0].0 != "" && h[0].1 != "" {
        var acc := Put([], h[0].0, h[0].1);
        assert Lookup(acc, h[0].0).Some?;
        assert |KeptHeaders(h[1..], acc)| >= |acc| > 0;
      } else {
        KeptHeadersEmpty(h[1..]);
        assert forall i :: 1 <= i < |h| ==> h[i] == h[1..][i - 1];
      }
    }
  }

  /** The body sent: absent for blank text, the parsed value when the text parses, the raw text otherwise. */
  function RequestBody(text: string, parse: string -> Option<Json>): (body: Option<Json>)
    ensures body.None? <==> Blank(text)
    ensures body.Some? && parse(text).Some? ==> body.value == parse(text).value
    ensures body.Some? && parse(text).None? ==> body.value == Str(text)
  {
    if text != "" && !Blank(text) then
      match parse(text)
      case Some(j) => Some(j)
      case None => Some(Str(text))
    else None
  }

  /**
   * `buildProxyRequest`: the JSON parser is a parameter (`None` where it
   * throws).
   */
  method BuildProxyRequest(
    service: string, httpMethod: HttpMethod, path: string, form: RequestForm, parse: string -> Option<Json>)
    returns (r: ProxyRequest)
    ensures r.service == service && r.httpMethod == httpMethod
    ensures r.path == SubstitutePath(path, form.pathParams) + QuerySuffix(form.queryParams)
    ensures var h := KeptHeaders(form.headers, []); r.headers == if h == [] then None else Some(h)
    ensures r.body == RequestBody(form.body, parse)
  {
    var finalPath := BuildPath(path, form.pathParams, form.queryParams);
    var headers := CollectHeaders(form.headers);
    var body := ParseBody(form.body, parse);
    r := ProxyRequest(service, httpMethod, finalPath, if headers == [] then None else Some(headers), body);
  }

  /** The path sent: the placeholders filled in, then `?` and the query string unless it is empty. */
  method BuildPath(path: string, pathParams: Dict<string>, queryParams: Dict<string>) returns (finalPath: string)
    ensures finalPath == SubstitutePath(path, pathParams) + QuerySuffix(queryParams)
  {
    finalPath := FillPlaceholders(path, pathParams);
    var query := NonEmptyQueryParams(queryParams);
    var queryString := Serialize(query);
    if queryString != "" {
      finalPath := finalPath + "?" + queryString;
    }
  }

  /** The body sent for the form's body text. */
  method ParseBody(text: string, parse: string -> Option<Json>) returns (body: Option<Json>)
    ensures body == RequestBody(text, parse)
  {
    body := None;
    if text != "" && !Blank(text) {
      match parse(text)
      case Some(j) => body := Some(j);
      case None => body := Some(Str(text));
    }
  }

  /** The substitution loop of `buildProxyRequest`. */
  method FillPlaceholders(path: string, params: Dict<string>) returns (finalPath: string)
    ensures finalPath == SubstitutePath(path, params)
  {
    finalPath := path;
    var i := 0;
    while i < |params|
      invariant 0 <= i <= |params|
      invariant SubstitutePath(finalPath, params[i..]) == SubstitutePath(path, params)
    {
      var (key, value) := params[i];
      assert params[i..][1..] == params[i + 1..];
      finalPath := ReplaceFirst(finalPath, Placeholder(key), EncodeUriComponent(value));
      i := i + 1;
    }
  }

  /** The query loop of `buildProxyRequest`: the entries it appends to the search parameters. */
  method NonEmptyQueryParams(params: Dict<string>) returns (query: seq<(string, string)>)
    ensures query == QueryPairs(params)
  {
    query := [];
    var i := 0;
    while i < |params|
      invariant 0 <= i <= |params|
      invariant query == QueryPairs(params[..i])
    {
      var (key, value) := params[i];
      assert params[..i + 1][..i] == params[..i];
      if value != "" {
        query := query + [(key, value)];
      }
      i := i + 1;
    }
    assert params[..i] == params;
  }

  /** The header loop of `buildProxyRequest`. */
  method CollectHeaders(h: Dict<string>) returns (headers: Dict<string>)
    ensures headers == KeptHeaders(h, [])
  {
    headers := [];
    var i := 0;
    while i < |h|
      invariant 0 <= i <= |h|
      invariant KeptHeaders(h[i..], headers) == KeptHeaders(h, [])
    {
      var (key, value) := h[i];
      assert h[i..][1..] == h[i + 1..];
      if key != "" && value != "" {
        headers := Put(headers, key, value);
      }
      i := i + 1;
    }
  }

  // ---------------------------------------------------------------------------
  // Path parameter validation

  /** `pathParams[name]` is defined and not blank after trimming. */
  predicate Bound(params: Dict<string>, name: string) {
    Lookup(params, name).Some? && !Blank(Lookup(params, name).value)
  }

  /** The first name, in order, that is not bound. */
  function FirstUnbound(names: seq<string>, params: Dict<string>): (r: Option<nat>)
    ensures r.None? <==> forall i :: 0 <= i < |names| ==> Bound(params, names[i])
    ensures r.Some? ==>
      (r.value < |names| && !Bound(params, names[r.value])
       && forall j :: 0 <= j < r.value ==> Bound(params, names[j]))
  {
    if names == [] then None
    else if !Bound(params, names[0]) then Some(0)
    else
      match FirstUnbound(names[1..], params)
      case None =>
        assert forall i :: 1 <= i < |names| ==> names[i] == names[1..][i - 1];
        None
      case Some(k) =>
        assert forall j :: 1 <= j < k + 1 ==> names[j] == names[1..][j - 1];
        Some(k + 1)
  }

  function RequiredMessage(name: string): string {
    "Path parameter \"" + name + "\" is required"
  }

  /** `validatePathParams`: `None` when every placeholder is bound, else the message for the first that is not. */
  function ValidatePathParams(path: string, params: Dict<string>): (r: Option<string>)
    ensures r.None? <==> forall n :: n in ExtractPathParams(path) ==> Bound(params, n)
    ensures r.Some? ==>
      exists i :: 0 <= i < |ExtractPathParams(path)|
        && r.value == RequiredMessage(ExtractPathParams(path)[i])
        && !Bound(params, ExtractPathParams(path)[i])
        && (forall j :: 0 <= j < i ==> Bound(params, ExtractPathParams(path)[j]))
  {
    var names := ExtractPathParams(path);
    match FirstUnbound(names, params)
    case None => None
    case Some(i) => Some(RequiredMessage(names[i]))
  }

  // ---------------------------------------------------------------------------
  // What the substitution loop computes

  /** Every `{` of the template opens a placeholder, and no name holds `{`. */
  predicate BraceFree(toks: seq<Token>) {
    NoLiteralBrace(toks) &&
    forall i :: 0 <= i < |toks| && toks[i].Param? ==> NameOk(toks[i].name) && '{' !in toks[i].name
  }

  /**
   * The template with the names in `sub` filled in, each at its first
   * placeholder only; later placeholders with the same name, and names not in
   * `sub`, stay as `{name}`.
   */
  function Substituted(toks: seq<Token>, sub: map<string, string>): string
    decreases |toks|
  {
    if toks == [] then ""
    else
      match toks[0]
      case Lit(c) => [c] + Substituted(toks[1..], sub)
      case Param(n) =>
        if n in sub then sub[n] + Substituted(toks[1..], sub - {n})
        else Placeholder(n) + Substituted(toks[1..], sub)
  }

  /** The encoded value of each key, taken from its first entry. */
  function EncodedMap(params: Dict<string>): (m: map<string, string>)
    ensures forall k :: k in m <==> Lookup(params, k).Some?
    ensures forall k :: k in m ==> m[k] == EncodeUriComponent(Lookup(params, k).value)
  {
    if params == [] then map[]
    else EncodedMap(params[1..])[params[0].0 := EncodeUriComponent(params[0].1)]
  }

  /** Text without `{` is skipped over by a search for a pattern that starts with `{`. */
  lemma {:induction false} ReplaceFirstSkip(x: string, rest: string, p: string, r: string)
    requires p != [] && p[0] == '{' && '{' !in x
    ensures ReplaceFirst(x + rest, p, r) == x + ReplaceFirst(rest, p, r)
    decreases |x|
  {
    if x == [] {
      assert x + rest == rest;
    } else {
      var s := x + rest;
      assert s[0] == x[0] && s[1..] == x[1..] + rest;
      assert '{' !in x[1..] by { assert forall c :: c in x[1..] ==> c in x; }
      ReplaceFirstSkip(x[1..], rest, p, r);
      if |s| < |p| {
        assert ReplaceFirst(s, p, r) == s;
        assert ReplaceFirst(rest, p, r) == rest;
      } else {
        assert s[..|p|][0] != p[0];
        assert ReplaceFirst(s, p, r) == [s[0]] + ReplaceFirst(s[1..], p, r);
        assert x == [x[0]] + x[1..];
      }
    }
  }

  lemma BraceFreeTail(toks: seq<Token>)
    requires toks != [] && BraceFree(toks)
    ensures BraceFree(toks[1..])
  {
    assert forall i :: 0 <= i < |toks[1..]| ==> toks[1..][i] == toks[i + 1];
  }

  /** One pass of the loop body fills in the first placeholder named `k`, and nothing else. */
  lemma {:induction false} SubstituteStep(toks: seq<Token>, sub: map<string, string>, k: string, e: string)
    requires BraceFree(toks)
    requires forall x :: x in sub ==> '{' !in sub[x]
    requires k !in sub && '}' !in k && '{' !in e
    ensures ReplaceFirst(Substituted(toks, sub), Placeholder(k), e) == Substituted(toks, sub[k := e])
    decreases |toks|, 1
  {
    if toks != [] {
      match toks[0]
      case Lit(c) => SubstituteStepLit(toks, sub, k, e, c);
      case Param(n) =>
        if n in sub {
          SubstituteStepFilled(toks, sub, k, e, n);
        } else if n == k {
          SubstituteStepHere(toks, sub, k, e);
        } else {
          SubstituteStepOther(toks, sub, k, e, n);
        }
    }
  }

  /** A literal character is copied ahead of the replacement. */
  lemma {:induction false} SubstituteStepLit(toks: seq<Token>, sub: map<string, string>, k: string, e: string, c: char)
    requires BraceFree(toks)
    requires forall x :: x in sub ==> '{' !in sub[x]
    requires k !in sub && '}' !in k && '{' !in e
    requires toks != [] && toks[0] == Lit(c)
    ensures ReplaceFirst(Substituted(toks, sub), Placeholder(k), e) == Substituted(toks, sub[k := e])
    decreases |toks|, 0
  {
    BraceFreeTail(toks);
    var rest := toks[1..];
    assert c != '{' by { assert toks[0].Lit?; }
    SubstituteStep(rest, sub, k, e);
    ReplaceFirstSkip([c], Substituted(rest, sub), Placeholder(k), e);
  }

  /** A placeholder filled earlier holds a value without `{` and is copied ahead of the replacement. */
  lemma {:induction false} SubstituteStepFilled(toks: seq<Token>, sub: map<string, string>, k: string, e: string, n: string)
    requires BraceFree(toks)
    requires forall x :: x in sub ==> '{' !in sub[x]
    requires k !in sub && '}' !in k && '{' !in e
    requires toks != [] && toks[0] == Param(n) && n in sub
    ensures ReplaceFirst(Substituted(toks, sub), Placeholder(k), e) == Substituted(toks, sub[k := e])
    decreases |toks|, 0
  {
    BraceFreeTail(toks);
    var rest := toks[1..];
    var sub' := sub - {n};
    SubstituteStep(rest, sub', k, e);
    assert sub'[k := e] == sub[k := e] - {n};
    ReplaceFirstSkip(sub[n], Substituted(rest, sub'), Placeholder(k), e);
  }

  /** The first unfilled placeholder named `k` is the one replaced. */
  lemma SubstituteStepHere(toks: seq<Token>, sub: map<string, string>, k: string, e: string)
    requires BraceFree(toks)
    requires forall x :: x in sub ==> '{' !in sub[x]
    requires k !in sub && '}' !in k && '{' !in e
    requires toks != [] && toks[0] == Param(k)
    ensures ReplaceFirst(Substituted(toks, sub), Placeholder(k), e) == Substituted(toks, sub[k := e])
  {
    var p := Placeholder(k);
    var s := p + Substituted(toks[1..], sub);
    assert s[..|p|] == p && s[|p|..] == Substituted(toks[1..], sub);
    assert sub[k := e] - {k} == sub;
  }

  /** An unfilled placeholder with another name is kept, and the replacement happens after it. */
  lemma {:induction false} SubstituteStepOther(toks: seq<Token>, sub: map<string, string>, k: string, e: string, n: string)
    requires BraceFree(toks)
    requires forall x :: x in sub ==> '{' !in sub[x]
    requires k !in sub && '}' !in k && '{' !in e
    requires toks != [] && toks[0] == Param(n) && n !in sub && n != k
    ensures ReplaceFirst(Substituted(toks, sub), Placeholder(k), e) == Substituted(toks, sub[k := e])
    decreases |toks|, 0
  {
    BraceFreeTail(toks);
    assert NameOk(n) && '{' !in n by { assert toks[0].Param?; }
    SubstituteStep(toks[1..], sub, k, e);
    OtherPlaceholderSkip(n, k, e, Substituted(toks[1..], sub));
  }

  /** A search for `{k}` passes over a placeholder `{n}` with another name. */
  lemma OtherPlaceholderSkip(n: string, k: string, e: string, tail: string)
    requires NameOk(n) && '{' !in n && '}' !in k && n != k
    ensures ReplaceFirst(Placeholder(n) + tail, Placeholder(k), e) == Placeholder(n) + ReplaceFirst(tail, Placeholder(k), e)
  {
    var p, q := Placeholder(k), n + "}";
    var s := Placeholder(n) + tail;
    NotPlaceholderAt(n, k, tail);
    assert s == "{" + (q + tail) && s[1..] == q + tail;
    assert p[0] == '{' && '{' !in q;
    ReplaceFirstSkip(q, tail, p, e);
    var done := ReplaceFirst(tail, p, e);
    if |s| < |p| {
      assert |tail| < |p| && done == tail;
    } else {
      assert ReplaceFirst(s, p, e) == "{" + ReplaceFirst(q + tail, p, e);
      assert "{" + (q + done) == Placeholder(n) + done;
    }
  }

  /** `{k}` does not start at a placeholder `{n}` with another name. */
  lemma NotPlaceholderAt(n: string, k: string, tail: string)
    requires NameOk(n) && '}' !in k && n != k
    ensures var s := Placeholder(n) + tail; |s| < |Placeholder(k)| || s[..|Placeholder(k)|] != Placeholder(k)
  {
    var s := Placeholder(n) + tail;
    var p := Placeholder(k);
    if |s| >= |p| {
      if |k| < |n| {
        assert s[1 + |k|] == n[|k|] && p[1 + |k|] == '}';
        assert s[..|p|][1 + |k|] != p[1 + |k|];
      } else if |k| > |n| {
        assert s[1 + |n|] == '}' && p[1 + |n|] == k[|n|];
        assert s[..|p|][1 + |n|] != p[1 + |n|];
      } else {
        assert s[1..1 + |k|] == n && p[1..1 + |k|] == k;
        assert s[..|p|][1..1 + |k|] != p[1..1 + |k|];
      }
    }
  }

  lemma {:induction false} SubstitutedNothing(toks: seq<Token>)
    ensures Substituted(toks, map[]) == Unparse(toks)
  {
    if toks != [] {
      SubstitutedNothing(toks[1..]);
    }
  }

  /** The whole loop, from a partly filled template. */
  lemma {:induction false} SubstituteAll(toks: seq<Token>, sub: map<string, string>, params: Dict<string>)
    requires BraceFree(toks)
    requires forall x :: x in sub ==> '{' !in sub[x]
    requires UniqueKeys(params)
    requires forall i :: 0 <= i < |params| ==> '}' !in params[i].0 && params[i].0 !in sub
    ensures SubstitutePath(Substituted(toks, sub), params) == Substituted(toks, sub + EncodedMap(params))
    decreases |params|
  {
    if params == [] {
      assert sub + EncodedMap(params) == sub;
    } else {
      var (k, v) := params[0];
      var e := EncodeUriComponent(v);
      var rest := params[1..];
      EncodedHasNoBrace(v);
      SubstituteStep(toks, sub, k, e);
      assert SubstitutePath(Substituted(toks, sub), params) == SubstitutePath(Substituted(toks, sub[k := e]), rest);
      assert forall i :: 0 <= i < |rest| ==> rest[i].0 != k && rest[i] == params[i + 1];
      assert UniqueKeys(rest);
      SubstituteAll(toks, sub[k := e], rest);
      assert k !in EncodedMap(rest) by {
        assert forall i :: 0 <= i < |rest| ==> rest[i].0 != k;
      }
      MergeStep(sub, k, e, EncodedMap(rest));
    }
  }

  lemma MergeStep(sub: map<string, string>, k: string, e: string, m: map<string, string>)
    requires k !in m
    ensures sub[k := e] + m == sub + m[k := e]
  {
  }

  lemma EncodedHasNoBrace(v: string)
    ensures '{' !in EncodeUriComponent(v)
  {
    if '{' in EncodeUriComponent(v) {
      var i :| 0 <= i < |EncodeUriComponent(v)| && EncodeUriComponent(v)[i] == '{';
      EncodedHasNoDelimiter(v, i);
    }
  }

  /**
   * What the substitution loop computes: for each name with an entry, its
   * first placeholder holds the encoded value; unbound placeholders and
   * repeated ones stay in the path.  Assumed: every `{` of the template opens
   * a placeholder whose name holds no `{`, and no key holds `}` (a key like
   * `a}b` could match across a placeholder and the literal text after it).
   */
  lemma SubstitutePathFills(path: string, params: Dict<string>)
    requires BraceFree(Tokenize(path))
    requires UniqueKeys(params)
    requires forall i :: 0 <= i < |params| ==> '}' !in params[i].0
    ensures SubstitutePath(path, params) == Substituted(Tokenize(path), EncodedMap(params))
  {
    var toks := Tokenize(path);
    SubstitutedNothing(toks);
    SubstituteAll(toks, map[], params);
    assert map[] + EncodedMap(params) == EncodedMap(params);
  }

  // ---------------------------------------------------------------------------
  // A built path matches its template again

  predicate DistinctNames(toks: seq<Token>) {
    forall i, j :: 0 <= i < j < |ParamNames(toks)| ==> ParamNames(toks)[i] != ParamNames(toks)[j]
  }

  /** With distinct names all filled in, the substituted template is the template rendered with the values. */
  lemma {:induction false} SubstitutedRender(toks: seq<Token>, sub: map<string, string>)
    requires DistinctNames(toks)
    requires forall n :: n in ParamNames(toks) ==> n in sub
    ensures var names := ParamNames(toks);
      Substituted(toks, sub) == Render(toks, seq(|names|, i requires 0 <= i < |names| => sub[names[i]]))
    decreases |toks|
  {
    if toks != [] {
      var names := ParamNames(toks);
      var rest := toks[1..];
      var rnames := ParamNames(rest);
      match toks[0]
      case Lit(c) =>
        assert names == rnames;
        SubstitutedRender(rest, sub);
      case Param(n) =>
        assert names == [n] + rnames;
        DistinctTail(n, rnames);
        var sub' := sub - {n};
        SubstitutedRender(rest, sub');
        CapturesTail(names, sub);
    }
  }

  /** The values for the names after the first, looked up without the first name. */
  lemma CapturesTail(names: seq<string>, sub: map<string, string>)
    requires names != [] && names[0] !in names[1..]
    requires forall i :: 0 <= i < |names| ==> names[i] in sub
    ensures var rest, sub' := names[1..], sub - {names[0]};
      seq(|names|, i requires 0 <= i < |names| => sub[names[i]])[1..]
        == seq(|rest|, i requires 0 <= i < |rest| => sub'[rest[i]])
  {
    var rest, sub' := names[1..], sub - {names[0]};
    var caps := seq(|names|, i requires 0 <= i < |names| => sub[names[i]]);
    forall i | 0 <= i < |rest| ensures caps[1..][i] == sub'[rest[i]] {
      assert caps[1..][i] == sub[names[i + 1]] && names[i + 1] == rest[i];
    }
  }

  /** Distinct names stay distinct without the first, which none of the rest repeats. */
  lemma DistinctTail(n: string, rest: seq<string>)
    requires forall i, j :: 0 <= i < j < |[n] + rest| ==> ([n] + rest)[i] != ([n] + rest)[j]
    ensures forall i, j :: 0 <= i < j < |rest| ==> rest[i] != rest[j]
    ensures n !in rest
  {
    var names := [n] + rest;
    forall i, j | 0 <= i < j < |rest| ensures rest[i] != rest[j] {
      assert rest[i] == names[i + 1] && rest[j] == names[j + 1];
    }
    forall i | 0 <= i < |rest| ensures rest[i] != n {
      assert rest[i] == names[i + 1] && names[0] == n;
    }
  }

  /** The text before the first `?` of a rendered path and a query suffix is the rendered path. */
  lemma BeforeQuery(p: string, suffix: string)
    requires '?' !in p && (suffix == "" || suffix[0] == '?')
    ensures Before(p + suffix, '?') == p
  {
    if suffix == "" {
      assert p + suffix == p;
      BeforeAbsent(p, '?');
    } else {
      assert p + suffix == p + ['?'] + suffix[1..] by { assert suffix == ['?'] + suffix[1..]; }
      BeforeAfterAt(p + suffix, p, '?', suffix[1..]);
    }
  }

  /** A template that can be replayed: brace-free, no `?` in its text, distinct names, whole-segment placeholders. */
  predicate Replayable(toks: seq<Token>) {
    BraceFree(toks) && DistinctNames(toks) && SegmentParams(toks)
    && forall i :: 0 <= i < |toks| && toks[i].Lit? ==> toks[i].c != '?'
  }

  /** A rendering holds a character only if a literal or a capture does. */
  lemma {:induction false} RenderAvoids(toks: seq<Token>, caps: seq<string>, c: char)
    requires |caps| == |ParamNames(toks)|
    requires forall i :: 0 <= i < |toks| && toks[i].Lit? ==> toks[i].c != c
    requires forall i :: 0 <= i < |caps| ==> c !in caps[i]
    ensures c !in Render(toks, caps)
    decreases |toks|
  {
    if toks != [] {
      assert forall i :: 0 <= i < |toks[1..]| ==> toks[1..][i] == toks[i + 1];
      if toks[0].Param? {
        assert forall i :: 0 <= i < |caps[1..]| ==> caps[1..][i] == caps[i + 1];
        RenderAvoids(toks[1..], caps[1..], c);
        assert c !in caps[0];
      } else {
        RenderAvoids(toks[1..], caps, c);
      }
    }
  }

  /** The encoded values of the named parameters, in the names' order. */
  function EncodedValues(params: Dict<string>, names: seq<string>): (caps: seq<string>)
    requires forall n :: n in names ==> Lookup(params, n).Some?
    ensures |caps| == |names|
    ensures forall i :: 0 <= i < |names| ==> caps[i] == EncodeUriComponent(Lookup(params, names[i]).value)
  {
    seq(|names|, i requires 0 <= i < |names| => EncodeUriComponent(Lookup(params, names[i]).value))
  }

  /**
   * With distinct placeholder names all bound, the filled-in path is the
   * template rendered with the encoded values.
   */
  lemma BuiltPathRenders(path: string, params: Dict<string>)
    requires BraceFree(Tokenize(path)) && DistinctNames(Tokenize(path))
    requires UniqueKeys(params)
    requires forall i :: 0 <= i < |params| ==> '}' !in params[i].0
    requires forall n :: n in ExtractPathParams(path) ==> Lookup(params, n).Some?
    ensures SubstitutePath(path, params) == Render(Tokenize(path), EncodedValues(params, ExtractPathParams(path)))
  {
    var toks := Tokenize(path);
    var names := ExtractPathParams(path);
    var sub := EncodedMap(params);
    var caps := EncodedValues(params, names);
    SubstitutedRender(toks, sub);
    assert caps == seq(|names|, i requires 0 <= i < |names| => sub[names[i]]);
    SubstitutePathFills(path, params);
  }

  /**
   * A path built from a replayable template, with every placeholder bound to
   * a non-empty value, matches the template again once cut at its first `?`,
   * and the captures are the encoded values in placeholder order.
   */
  lemma BuiltPathMatches(path: string, params: Dict<string>, query: Dict<string>)
    requires Replayable(Tokenize(path))
    requires UniqueKeys(params)
    requires forall i :: 0 <= i < |params| ==> '}' !in params[i].0
    requires forall n :: n in ExtractPathParams(path) ==> Lookup(params, n).Some? && Lookup(params, n).value != ""
    ensures var names := ExtractPathParams(path);
      Match(Tokenize(path), Before(SubstitutePath(path, params) + QuerySuffix(query), '?'))
      == Some(EncodedValues(params, names))
  {
    var toks := Tokenize(path);
    var names := ExtractPathParams(path);
    var caps := EncodedValues(params, names);
    BuiltPathRenders(path, params);
    EncodedCaptures(params, names, caps);
    RenderAvoids(toks, caps, '?');
    BeforeQuery(Render(toks, caps), QuerySuffix(query));
    MatchUnique(toks, caps);
  }

  /** Encoded non-empty values are valid captures without `?`. */
  lemma EncodedCaptures(params: Dict<string>, names: seq<string>, caps: seq<string>)
    requires forall n :: n in names ==> Lookup(params, n).Some? && Lookup(params, n).value != ""
    requires |caps| == |names|
    requires forall i :: 0 <= i < |names| ==> caps[i] == EncodeUriComponent(Lookup(params, names[i]).value)
    ensures AllCaptures(caps)
    ensures forall i :: 0 <= i < |caps| ==> '?' !in caps[i] && '#' !in caps[i]
  {
    forall i | 0 <= i < |caps| ensures Capture(caps[i]) && '?' !in caps[i] && '#' !in caps[i] {
      var v := Lookup(params, names[i]).value;
      assert names[i] in names;
      forall j | 0 <= j < |caps[i]| ensures caps[i][j] != '/' && caps[i][j] != '?' && caps[i][j] != '#' {
        EncodedHasNoDelimiter(v, j);
      }
    }
  }
}
