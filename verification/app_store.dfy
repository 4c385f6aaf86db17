/**
 * The front end's application store: the loaded services and documents, the
 * selected service and endpoint, the request form, the last response, the
 * error slots and the request history (newest first, at most 50 entries).
 * Every action replaces some fields and leaves the others as they were.
 */
module AppStore {
  import opened Wrappers
  import opened Dicts
  import opened Text
  import opened JsonValues
  import opened PercentEncoding
  import opened PathTemplates
  import opened Requests
  import opened RequestBuilder
  import opened OpenApi
  import opened Sequences

  /** The most entries the history keeps. */
  const MaxHistory := 50

  /** The endpoint chosen in the sidebar: a path template, a method and its operation. */
  datatype EndpointSelection = EndpointSelection(path: string, httpMethod: string, operation: Operation)

  /** A partial request form: `None` is a field the partial does not mention. */
  datatype FormPatch = FormPatch(
    pathParams: Option<Dict<string>>,
    queryParams: Option<Dict<string>>,
    headers: Option<Dict<string>>,
    body: Option<string>)

  /** The store's state as one value. */
  datatype AppState = AppState(
    services: seq<string>,
    specs: map<string, OpenApiDoc>,
    selectedService: Option<string>,
    selectedEndpoint: Option<EndpointSelection>,
    requestForm: RequestForm,
    lastResponse: Option<ProxyResponse>,
    loading: bool,
    appError: Option<string>,
    requestError: Option<string>,
    history: seq<HistoryEntry>)

  const InitialState := AppState([], map[], None, None, InitialRequestForm, None, false, None, None, [])

  // ---------------------------------------------------------------------------
  // Pure parts of the actions

  /** `{ ...form, ...patch }`: the fields the partial mentions are replaced, the others kept. */
  function Merged(form: RequestForm, patch: FormPatch): (r: RequestForm)
    ensures r.pathParams == if patch.pathParams.Some? then patch.pathParams.value else form.pathParams
    ensures r.queryParams == if patch.queryParams.Some? then patch.queryParams.value else form.queryParams
    ensures r.headers == if patch.headers.Some? then patch.headers.value else form.headers
    ensures r.body == if patch.body.Some? then patch.body.value else form.body
  {
    RequestForm(
      patch.pathParams.GetOr(form.pathParams),
      patch.queryParams.GetOr(form.queryParams),
      patch.headers.GetOr(form.headers),
      patch.body.GetOr(form.body))
  }

  /** Merging the same partial twice is merging it once. */
  lemma MergeIdempotent(form: RequestForm, patch: FormPatch)
    ensures Merged(Merged(form, patch), patch) == Merged(form, patch)
  {
  }

  /**
   * The history after adding `e`: the new entry first, the previous entries in
   * their order after it, and the oldest dropped once there are more than 50.
   */
  function Prepended(h: seq<HistoryEntry>, e: HistoryEntry): (r: seq<HistoryEntry>)
    ensures |r| >= 1 && r[0] == e
    ensures |r| == if |h| < MaxHistory then |h| + 1 else |h|
    ensures r[1..] == h[..|r| - 1]
    ensures |h| <= MaxHistory ==> |r| <= MaxHistory
  {
    var newHistory := [e] + h;
    if |newHistory| > MaxHistory then newHistory[..|newHistory| - 1] else newHistory
  }

  /** `history.filter(item => item.id !== id)`. */
  function WithoutId(h: seq<HistoryEntry>, id: string): (r: seq<HistoryEntry>)
    ensures forall x :: x in r <==> x in h && x.id != id
    ensures Subsequence(r, h)
    ensures |r| <= |h|
    // Every copy of a kept entry stays, and no copy of a removed one.
    ensures forall x :: multiset(r)[x] == if x.id != id then multiset(h)[x] else 0
  {
    if h == [] then []
    else
      var rest := WithoutId(h[1..], id);
      assert h == [h[0]] + h[1..];
      assert multiset(h) == multiset{h[0]} + multiset(h[1..]);
      if h[0].id != id then
        assert multiset([h[0]] + rest) == multiset{h[0]} + multiset(rest);
        assert ([h[0]] + rest)[1..] == rest;
        [h[0]] + rest
      else
        SubsequenceSkip(rest, h);
        rest
  }

  /** Removing an id no entry has changes nothing. */
  lemma {:induction false} WithoutAbsentId(h: seq<HistoryEntry>, id: string)
    requires forall i :: 0 <= i < |h| ==> h[i].id != id
    ensures WithoutId(h, id) == h
  {
    if h != [] {
      WithoutAbsentId(h[1..], id);
      assert [h[0]] + h[1..] == h;
    }
  }

  /** Adding an entry with a new id to a history that is not full, then removing that id, restores the history. */
  lemma RemoveUndoesAdd(h: seq<HistoryEntry>, e: HistoryEntry)
    requires |h| < MaxHistory
    requires forall i :: 0 <= i < |h| ==> h[i].id != e.id
    ensures WithoutId(Prepended(h, e), e.id) == h
  {
    var r := Prepended(h, e);
    assert r == [e] + h;
    assert r[1..] == h;
    WithoutAbsentId(h, e.id);
  }

  // ---------------------------------------------------------------------------
  // Replaying a history entry

  /**
   * The operation and captures a path entry gives for a request: the entry is
   * a path item (not a `$ref`), it defines the method key with an operation
   * (not a `$ref`), and its template matches the path.
   */
  function MatchEntry(template: string, pe: PathEntry, methodKey: string, pathOnly: string)
    : Option<(Operation, seq<string>)>
  {
    if !pe.PathItem? then None
    else
      var entry := Lookup(pe.operations, methodKey);
      if entry.None? || !entry.value.OperationItem? then None
      else
        match Match(Tokenize(template), pathOnly)
        case Some(caps) => Some((entry.value.op, caps))
        case None => None
  }

  /** An entry matches exactly when it defines the method with an operation and its template matches. */
  lemma MatchEntryIff(template: string, pe: PathEntry, methodKey: string, pathOnly: string)
    ensures var r := MatchEntry(template, pe, methodKey, pathOnly);
      && (r.Some? <==>
        && pe.PathItem?
        && Lookup(pe.operations, methodKey).Some? && Lookup(pe.operations, methodKey).value.OperationItem?
        && Match(Tokenize(template), pathOnly).Some?)
      && (r.Some? ==>
        && Lookup(pe.operations, methodKey) == Some(OperationItem(r.value.0))
        && Match(Tokenize(template), pathOnly) == Some(r.value.1)
        && |r.value.1| == |ExtractPathParams(template)|)
  {
  }

  /** Path entry `j` gives a match. */
  predicate Hit(paths: Dict<PathEntry>, j: nat, methodKey: string, pathOnly: string)
    requires j < |paths|
  {
    MatchEntry(paths[j].0, paths[j].1, methodKey, pathOnly).Some?
  }

  /** The first path entry, from `from` on, that gives a match. */
  function FirstMatch(paths: Dict<PathEntry>, from: nat, methodKey: string, pathOnly: string): (r: Option<nat>)
    requires from <= |paths|
    ensures r.Some? ==>
      && from <= r.value < |paths|
      && Hit(paths, r.value, methodKey, pathOnly)
      && forall j :: from <= j < r.value ==> !Hit(paths, j, methodKey, pathOnly)
    ensures r.None? ==> forall j :: from <= j < |paths| ==> !Hit(paths, j, methodKey, pathOnly)
    decreases |paths| - from
  {
    if from == |paths| then None
    else if Hit(paths, from, methodKey, pathOnly) then Some(from)
    else FirstMatch(paths, from + 1, methodKey, pathOnly)
  }

  /** Placeholder names paired with the captures, in order. */
  function Zip(names: seq<string>, caps: seq<string>): (r: Dict<string>)
    requires |names| == |caps|
    ensures |r| == |names| && forall i :: 0 <= i < |names| ==> r[i] == (names[i], caps[i])
  {
    seq(|names|, i requires 0 <= i < |names| => (names[i], caps[i]))
  }

  /** The endpoint and path parameters a replay recovers. */
  datatype Replay = Replay(endpoint: Option<EndpointSelection>, pathParams: Dict<string>)

  /** The replay over the path entries of one document. */
  function ReplayIn(paths: Dict<PathEntry>, httpMethod: string, pathOnly: string): (r: Replay)
    ensures r.endpoint.None? ==> r.pathParams == []
  {
    var methodKey := LowerAscii(httpMethod);
    match FirstMatch(paths, 0, methodKey, pathOnly)
    case None => Replay(None, [])
    case Some(i) =>
      var m := MatchEntry(paths[i].0, paths[i].1, methodKey, pathOnly).value;
      MatchEntryIff(paths[i].0, paths[i].1, methodKey, pathOnly);
      Replay(Some(EndpointSelection(paths[i].0, httpMethod, m.0)), PutAll([], Zip(ExtractPathParams(paths[i].0), m.1)))
  }

  /** The replay of an entry against the documents held: nothing without the service's document or its paths. */
  function ReplayEndpoint(specs: map<string, OpenApiDoc>, entry: HistoryEntry): Replay {
    if entry.service in specs && specs[entry.service].paths.Some? then
      ReplayIn(specs[entry.service].paths.value, entry.httpMethod, Before(entry.path, '?'))
    else Replay(None, [])
  }

  /** The query of a URL reference: the text after the first `?`, up to any `#`. */
  function SearchOf(p: string): Option<string> {
    After(Before(p, '#'), '?')
  }

  /** The query parameters of a path, each key holding its last value. */
  function QueryParamsOf(p: string): Dict<string> {
    match SearchOf(p)
    case None => []
    case Some(q) => PutAll([], ParseForm(q))
  }

  /** The request path, or the entry's own path when the request path is empty. */
  function FullPath(entry: HistoryEntry): string {
    if entry.request.path != "" then entry.request.path else entry.path
  }

  /** The form's body text: the serialized body when it is truthy, else empty. */
  function BodyText(body: Option<Json>, stringify: Json -> string): (s: string)
    ensures !Truthy(body) ==> s == ""
    ensures Truthy(body) ==> s == stringify(body.value)
  {
    if Truthy(body) then stringify(body.value) else ""
  }

  /** The form a replay leaves behind. */
  function ReplayedForm(specs: map<string, OpenApiDoc>, entry: HistoryEntry, stringify: Json -> string): RequestForm {
    RequestForm(
      ReplayEndpoint(specs, entry).pathParams,
      QueryParamsOf(FullPath(entry)),
      entry.request.headers.GetOr([]),
      BodyText(entry.request.body, stringify))
  }

  // ---------------------------------------------------------------------------
  // The store

  class Store {
    var services: seq<string>
    var specs: map<string, OpenApiDoc>
    var selectedService: Option<string>
    var selectedEndpoint: Option<EndpointSelection>
    var requestForm: RequestForm
    var lastResponse: Option<ProxyResponse>
    var loading: bool
    var appError: Option<string>
    var requestError: Option<string>
    var history: seq<HistoryEntry>

    function State(): AppState
      reads this
    {
      AppState(services, specs, selectedService, selectedEndpoint, requestForm,
               lastResponse, loading, appError, requestError, history)
    }

    /** The history never holds more than 50 entries. */
    predicate Valid()
      reads this
    {
      |history| <= MaxHistory
    }

    constructor()
      ensures State() == InitialState && Valid()
    {
      services := [];
      specs := map[];
      selectedService := None;
      selectedEndpoint := None;
      requestForm := InitialRequestForm;
      lastResponse := None;
      loading := false;
      appError := None;
      requestError := None;
      history := [];
    }

    method SetServices(names: seq<string>)
      modifies this
      ensures State() == old(State()).(services := names)
    {
      services := names;
    }

    method SetSpec(service: string, spec: OpenApiDoc)
      modifies this
      ensures State() == old(State()).(specs := old(specs)[service := spec])
    {
      specs := specs[service := spec];
    }

    /** Choosing a service clears the endpoint, the form, the response and both errors. */
    method SelectService(service: Option<string>)
      modifies this
      ensures State() == old(State()).(selectedService := service, selectedEndpoint := None,
        requestForm := InitialRequestForm, lastResponse := None, appError := None, requestError := None)
    {
      selectedService := service;
      selectedEndpoint := None;
      requestForm := InitialRequestForm;
      lastResponse := None;
      appError := None;
      requestError := None;
    }

    /** Choosing an endpoint clears the form, the response and both errors, and keeps the service. */
    method SelectEndpoint(endpoint: Option<EndpointSelection>)
      modifies this
      ensures State() == old(State()).(selectedEndpoint := endpoint,
        requestForm := InitialRequestForm, lastResponse := None, appError := None, requestError := None)
    {
      selectedEndpoint := endpoint;
      requestForm := InitialRequestForm;
      lastResponse := None;
      appError := None;
      requestError := None;
    }

    method UpdateRequestForm(patch: FormPatch)
      modifies this
      ensures State() == old(State()).(requestForm := Merged(old(requestForm), patch))
    {
      requestForm := Merged(requestForm, patch);
    }

    method ResetRequestForm()
      modifies this
      ensures State() == old(State()).(requestForm := InitialRequestForm)
    {
      requestForm := InitialRequestForm;
    }

    method SetResponse(response: Option<ProxyResponse>)
      modifies this
      ensures State() == old(State()).(lastResponse := response)
    {
      lastResponse := response;
    }

    method SetLoading(isLoading: bool)
      modifies this
      ensures State() == old(State()).(loading := isLoading)
    {
      loading := isLoading;
    }

    method SetAppError(error: Option<string>)
      modifies this
      ensures State() == old(State()).(appError := error)
    {
      appError := error;
    }

    method SetRequestError(error: Option<string>)
      modifies this
      ensures State() == old(State()).(requestError := error)
    {
      requestError := error;
    }

    /** The new entry goes first; past 50 entries the oldest is popped. */
    method AddToHistory(entry: HistoryEntry)
      requires Valid()
      modifies this
      ensures Valid()
      ensures State() == old(State()).(history := Prepended(old(history), entry))
    {
      var newHistory := [entry] + history;
      if |newHistory| > MaxHistory {
        newHistory := newHistory[..|newHistory| - 1];
      }
      history := newHistory;
    }

    method RemoveFromHistory(id: string)
      requires Valid()
      modifies this
      ensures Valid()
      ensures State() == old(State()).(history := WithoutId(old(history), id))
    {
      history := WithoutId(history, id);
    }

    method ClearHistory()
      modifies this
      ensures Valid()
      ensures State() == old(State()).(history := [])
    {
      history := [];
    }

    /**
     * Restores a history entry: the service, the first endpoint of its
     * document that matches the stored path, the path parameters captured by
     * that match, the query parameters, headers and body of the request, and
     * its response; both errors are cleared.
     */
    method LoadFromHistory(entry: HistoryEntry, stringify: Json -> string)
      modifies this
      ensures var r := ReplayEndpoint(old(specs), entry);
        State() == old(State()).(selectedService := Some(entry.service), selectedEndpoint := r.endpoint,
          requestForm := ReplayedForm(old(specs), entry, stringify),
          lastResponse := Some(entry.response), appError := None, requestError := None)
    {
      var endpoint: Option<EndpointSelection> := None;
      var pathParams: Dict<string> := [];
      if entry.service in specs && specs[entry.service].paths.Some? {
        endpoint, pathParams := FindEndpoint(specs[entry.service].paths.value, entry.httpMethod, Before(entry.path, '?'));
      }
      var queryParams := ParseQueryParams(FullPath(entry));
      var form := RequestForm(pathParams, queryParams, entry.request.headers.GetOr([]),
                              BodyText(entry.request.body, stringify));
      assert endpoint == ReplayEndpoint(specs, entry).endpoint;
      assert form == ReplayedForm(specs, entry, stringify);
      Restore(entry.service, endpoint, form, entry.response);
    }

    /** The single `set` call that ends a replay. */
    method Restore(service: string, endpoint: Option<EndpointSelection>, form: RequestForm, response: ProxyResponse)
      modifies this
      ensures State() == old(State()).(selectedService := Some(service), selectedEndpoint := endpoint,
        requestForm := form, lastResponse := Some(response), appError := None, requestError := None)
    {
      selectedService, selectedEndpoint, requestForm := Some(service), endpoint, form;
      lastResponse, appError, requestError := Some(response), None, None;
    }
  }

  /** The search over the document's paths, stopping at the first match. */
  method FindEndpoint(paths: Dict<PathEntry>, httpMethod: string, pathOnly: string)
    returns (endpoint: Option<EndpointSelection>, pathParams: Dict<string>)
    ensures Replay(endpoint, pathParams) == ReplayIn(paths, httpMethod, pathOnly)
  {
    endpoint := None;
    pathParams := [];
    var methodKey := LowerAscii(httpMethod);
    var i := 0;
    while i < |paths|
      invariant 0 <= i <= |paths|
      invariant FirstMatch(paths, i, methodKey, pathOnly) == FirstMatch(paths, 0, methodKey, pathOnly)
      invariant endpoint == None && pathParams == []
    {
      var m := MatchEntry(paths[i].0, paths[i].1, methodKey, pathOnly);
      MatchEntryIff(paths[i].0, paths[i].1, methodKey, pathOnly);
      if m.Some? {
        endpoint := Some(EndpointSelection(paths[i].0, httpMethod, m.value.0));
        pathParams := BindCaptures(ExtractPathParams(paths[i].0), m.value.1);
        return;
      }
      i := i + 1;
    }
  }

  /** `paramNames.forEach((name, index) => pathParams[name] = match[index + 1])`. */
  method BindCaptures(names: seq<string>, caps: seq<string>) returns (pathParams: Dict<string>)
    requires |names| == |caps|
    ensures pathParams == PutAll([], Zip(names, caps))
  {
    pathParams := [];
    var pairs := Zip(names, caps);
    for j := 0 to |names|
      invariant pathParams == PutAll([], pairs[..j])
    {
      assert pairs[..j + 1][..j] == pairs[..j];
      pathParams := Put(pathParams, names[j], caps[j]);
    }
    assert pairs[..|names|] == pairs;
  }

  /** `url.searchParams.forEach((value, key) => queryParams[key] = value)`. */
  method ParseQueryParams(p: string) returns (queryParams: Dict<string>)
    ensures queryParams == QueryParamsOf(p)
  {
    queryParams := [];
    var search := SearchOf(p);
    if search.Some? {
      var pairs := ParseForm(search.value);
      for j := 0 to |pairs|
        invariant queryParams == PutAll([], pairs[..j])
      {
        assert pairs[..j + 1][..j] == pairs[..j];
        queryParams := Put(queryParams, pairs[j].0, pairs[j].1);
      }
      assert pairs[..|pairs|] == pairs;
    }
  }

  // ---------------------------------------------------------------------------
  // Replaying what the request builder built

  lemma {:induction false} ZipUnique(names: seq<string>, caps: seq<string>)
    requires |names| == |caps|
    requires forall i, j :: 0 <= i < j < |names| ==> names[i] != names[j]
    ensures UniqueKeys(Zip(names, caps))
  {
  }

  /**
   * Replaying the path of a request built from a replayable template, whose
   * path parameters are all bound to non-empty values that percent-encoding
   * leaves unchanged, gives back exactly those bindings: each placeholder name
   * maps to its value and no other key is set.  The template must be the
   * first in document order to match.
   */
  lemma ReplayRestoresPathParams(
    paths: Dict<PathEntry>, i: nat, httpMethod: string, params: Dict<string>, query: Dict<string>, n: string)
    requires i < |paths|
    requires var template := paths[i].0;
      && Replayable(Tokenize(template))
      && UniqueKeys(params)
      && (forall j :: 0 <= j < |params| ==> '}' !in params[j].0)
      && (forall m :: m in ExtractPathParams(template) ==>
            Lookup(params, m).Some? && Lookup(params, m).value != ""
            && EncodeUriComponent(Lookup(params, m).value) == Lookup(params, m).value)
    requires paths[i].1.PathItem?
    requires Lookup(paths[i].1.operations, LowerAscii(httpMethod)).Some?
    requires Lookup(paths[i].1.operations, LowerAscii(httpMethod)).value.OperationItem?
    requires var pathOnly := Before(SubstitutePath(paths[i].0, params) + QuerySuffix(query), '?');
      forall j :: 0 <= j < i ==> !Hit(paths, j, LowerAscii(httpMethod), pathOnly)
    ensures var pathOnly := Before(SubstitutePath(paths[i].0, params) + QuerySuffix(query), '?');
      var r := ReplayIn(paths, httpMethod, pathOnly);
      && r.endpoint.Some? && r.endpoint.value.path == paths[i].0
      && Lookup(r.pathParams, n) == if n in ExtractPathParams(paths[i].0) then Lookup(params, n) else None
  {
    var template := paths[i].0;
    var names := ExtractPathParams(template);
    var methodKey := LowerAscii(httpMethod);
    var pathOnly := Before(SubstitutePath(template, params) + QuerySuffix(query), '?');
    BuiltPathMatches(template, params, query);
    ReplayFindsEntry(paths, i, httpMethod, pathOnly, EncodedValues(params, names));
    ZippedLookup(params, names, n);
  }

  /** The first entry that matches is the one a replay selects, with its captures under the placeholder names. */
  lemma ReplayFindsEntry(paths: Dict<PathEntry>, i: nat, httpMethod: string, pathOnly: string, caps: seq<string>)
    requires i < |paths| && paths[i].1.PathItem?
    requires Lookup(paths[i].1.operations, LowerAscii(httpMethod)).Some?
    requires Lookup(paths[i].1.operations, LowerAscii(httpMethod)).value.OperationItem?
    requires Match(Tokenize(paths[i].0), pathOnly) == Some(caps)
    requires forall j :: 0 <= j < i ==> !Hit(paths, j, LowerAscii(httpMethod), pathOnly)
    ensures var r := ReplayIn(paths, httpMethod, pathOnly);
      && r.endpoint.Some? && r.endpoint.value.path == paths[i].0
      && r.pathParams == PutAll([], Zip(ExtractPathParams(paths[i].0), caps))
  {
    var methodKey := LowerAscii(httpMethod);
    MatchEntryIff(paths[i].0, paths[i].1, methodKey, pathOnly);
    assert Hit(paths, i, methodKey, pathOnly);
    assert FirstMatch(paths, 0, methodKey, pathOnly) == Some(i);
  }

  /** Placeholder names paired with their values and assigned in order: each name reads back its own value. */
  lemma ZippedLookup(params: Dict<string>, names: seq<string>, n: string)
    requires forall i, j :: 0 <= i < j < |names| ==> names[i] != names[j]
    requires forall m :: m in names ==>
      Lookup(params, m).Some? && EncodeUriComponent(Lookup(params, m).value) == Lookup(params, m).value
    ensures Lookup(PutAll([], Zip(names, EncodedValues(params, names))), n) ==
      if n in names then Lookup(params, n) else None
  {
    var pairs := Zip(names, EncodedValues(params, names));
    ZipUnique(names, EncodedValues(params, names));
    PutAllLookup([], pairs, n);
    if n in names {
      var k :| 0 <= k < |names| && names[k] == n;
      LookupLastUnique(pairs, k);
      assert n in KeySet(pairs) by { assert pairs[k].0 == n; }
    } else {
      assert n !in KeySet(pairs);
    }
  }

  /** A `#` and a `?` only where the query suffix puts them: the query is the suffix after its `?`. */
  lemma {:induction false} SearchOfBuilt(p: string, suffix: string)
    requires '?' !in p && '#' !in p && '#' !in suffix
    requires suffix == "" || suffix[0] == '?'
    ensures SearchOf(p + suffix) == if suffix == "" then None else Some(suffix[1..])
  {
    var s := p + suffix;
    BeforeAbsent(s, '#');
    if suffix == "" {
      assert s == p;
    } else {
      var u := suffix[1..];
      assert s == p + ['?'] + u by {
        assert suffix == ['?'] + u;
      }
      BeforeAfterAt(s, p, '?', u);
    }
  }

  /** The query a replay reads from a built path is the query suffix, parsed. */
  lemma BuiltSearch(path: string, params: Dict<string>, query: Dict<string>)
    requires Replayable(Tokenize(path))
    requires forall i :: 0 <= i < |Tokenize(path)| && Tokenize(path)[i].Lit? ==> Tokenize(path)[i].c != '#'
    requires UniqueKeys(params)
    requires forall i :: 0 <= i < |params| ==> '}' !in params[i].0
    requires forall n :: n in ExtractPathParams(path) ==> Lookup(params, n).Some? && Lookup(params, n).value != ""
    ensures QueryParamsOf(SubstitutePath(path, params) + QuerySuffix(query)) ==
      if QuerySuffix(query) == "" then [] else PutAll([], QueryPairs(query))
  {
    var toks := Tokenize(path);
    var names := ExtractPathParams(path);
    var caps := EncodedValues(params, names);
    BuiltPathRenders(path, params);
    EncodedCaptures(params, names, caps);
    RenderAvoids(toks, caps, '?');
    RenderAvoids(toks, caps, '#');
    SearchOfBuilt(Render(toks, caps), QuerySuffix(query));
  }

  /** Keeping each key's last surviving value gives the non-empty values of a query with unique keys. */
  lemma SurvivingQueryLookup(query: Dict<string>, k: string)
    requires UniqueKeys(query)
    ensures Lookup(PutAll([], QueryPairs(query)), k) ==
      if Lookup(query, k).Some? && Lookup(query, k).value != "" then Lookup(query, k) else None
  {
    var pairs := QueryPairs(query);
    PutAllLookup([], pairs, k);
    if Lookup(query, k).Some? && Lookup(query, k).value != "" {
      SurvivingValue(query, pairs, k, Lookup(query, k).value);
    } else if k in KeySet(pairs) {
      var i :| 0 <= i < |pairs| && pairs[i].0 == k;
      SurvivorInQuery(query, pairs, i);
    }
  }

  /** A surviving pair is the query's binding of its key, with a non-empty value. */
  lemma SurvivorInQuery(query: Dict<string>, pairs: Dict<string>, i: nat)
    requires UniqueKeys(query) && pairs == QueryPairs(query) && i < |pairs|
    ensures Lookup(query, pairs[i].0) == Some(pairs[i].1) && pairs[i].1 != ""
  {
    assert pairs[i] in query;
    var j :| 0 <= j < |query| && query[j] == pairs[i];
    LookupUnique(query, j);
  }

  lemma SurvivingValue(query: Dict<string>, pairs: Dict<string>, k: string, v: string)
    requires UniqueKeys(query) && pairs == QueryPairs(query)
    requires Lookup(query, k) == Some(v) && v != ""
    ensures LookupLast(pairs, k) == Some(v)
  {
    var i :| 0 <= i < |query| && query[i] == (k, v);
    assert (k, v) in pairs;
    forall j | 0 <= j < |pairs| && pairs[j].0 == k
      ensures pairs[j].1 == v
    {
      SurvivorInQuery(query, pairs, j);
    }
    LookupLastOnly(pairs, k, v);
  }

  /**
   * Replaying the path of a built request gives back the query parameters
   * that had non-empty values, each with its value; those with empty values
   * are gone.
   */
  lemma ReplayRestoresQuery(path: string, params: Dict<string>, query: Dict<string>, k: string)
    requires Replayable(Tokenize(path))
    requires forall i :: 0 <= i < |Tokenize(path)| && Tokenize(path)[i].Lit? ==> Tokenize(path)[i].c != '#'
    requires UniqueKeys(params) && UniqueKeys(query)
    requires forall i :: 0 <= i < |params| ==> '}' !in params[i].0
    requires forall n :: n in ExtractPathParams(path) ==> Lookup(params, n).Some? && Lookup(params, n).value != ""
    ensures Lookup(QueryParamsOf(SubstitutePath(path, params) + QuerySuffix(query)), k) ==
      if Lookup(query, k).Some? && Lookup(query, k).value != "" then Lookup(query, k) else None
  {
    BuiltSearch(path, params, query);
    if QuerySuffix(query) == "" {
      if Lookup(query, k).Some? {
        var i :| 0 <= i < |query| && query[i] == (k, Lookup(query, k).value);
      }
    } else {
      SurvivingQueryLookup(query, k);
    }
  }

  /** When every entry with key `k` holds `v`, the last one does. */
  lemma {:induction false} LookupLastOnly(d: Dict<string>, k: string, v: string)
    requires (k, v) in d
    requires forall i :: 0 <= i < |d| && d[i].0 == k ==> d[i].1 == v
    ensures LookupLast(d, k) == Some(v)
    decreases |d|
  {
    if d[|d| - 1].0 != k {
      var i :| 0 <= i < |d| && d[i] == (k, v);
      assert d[..|d| - 1][i] == (k, v);
      LookupLastOnly(d[..|d| - 1], k, v);
    }
  }
}
