# api-playground request pipeline in Dafny

This project models the request-construction core of api-playground and proves
properties about it. api-playground is a browser playground for the HTTP APIs
described by OpenAPI documents. Behind it sits a small Go proxy that forwards
the requests it builds.

What the model covers:

- **Schema form engine** (`SchemaForm`). It covers:
  - default values built from a JSON schema;
  - the flattening of nested object schemas into dot-path fields;
  - reading and writing a JSON tree by dot path;
  - leaf-value validation.
- **Request builder** (`RequestBuilder`). It covers:
  - `{name}` placeholders replaced, first occurrence only, by their `encodeURIComponent` encoding (section 2.1 of RFC 3986, over UTF-8);
  - query parameters serialized as `application/x-www-form-urlencoded` (section 5.2 of the WHATWG URL Standard);
  - header filtering and the best-effort body parse;
  - placeholder extraction and path-parameter validation.
- **App store** (`AppStore`). It covers:
  - the front-end state object and its actions, including the 50-entry history;
  - the history replay that matches a stored path against every path template of the service's document.
- **OpenAPI helpers** (`OpenApi`): parameter partitioning, request-body schema extraction, default values and parameter validation.
- **Spec store** (`SpecStorage`). It covers:
  - the proxy's in-memory table of specs, loaded from the `.json` files of a directory;
  - the `x-proxy-config` of each spec;
  - `List`, `Get` and `GetConfig`.
- **Proxy rules** (`ProxyClient`). It covers:
  - the HTTP method allow-list;
  - the order of the checks in `Forward`;
  - the target URL;
  - the header composition: auth headers, then request headers, then a default `Content-Type`, all under Go's canonical header keys.
- **Status and method styles** (`HttpUi`): the colour classes for the status classes of section 15 of RFC 9110 and for the seven methods.

Support modules:

- `Dicts`: insertion-ordered string-keyed records, i.e. JavaScript objects used as dictionaries.
- `JsonValues`: JSON values. Objects and arrays are ordered property lists; `undefined` is `None`.
- `Text`: split/join, `indexOf`, `replace` with a string pattern, `trim` blanks, lower-casing, string order.
- `Utf8`: UTF-8 encoding and its decoder.
- `PercentEncoding`: `encodeURIComponent`, the form-urlencoded serializer and the parser.
- `PathTemplates`: the `{name}` template tokenizer and the anchored template matcher.
- `Requests`: the method names.

Code that loops or updates state is written as methods with loops or as classes with fields:

- `GetValueByPath` and `SetValueByPath`;
- the substitution, query and header loops of `BuildProxyRequest`;
- the endpoint search of `LoadFromHistory`;
- `FileSpecStore` and its `LoadSpecs` and `List`;
- the header loops of `Forward`;
- the `Store` class.

Each such method is proved equal to a specification function. The properties the source promises are proved about those functions.

Foreign code is passed in as function parameters. That covers:

- `JSON.parse`, `JSON.stringify`, `Number(...)` and `RegExp.prototype.test` in the front end;
- `json.Unmarshal` of a document and of a proxy configuration, and the URL check of `http.NewRequest`, in the back end.

The file system is an input: whether the directory exists, its listing, and each file's text or read failure.

## Model

| member | source | states |
|---|---|---|
| SchemaForm.BuildDefault | frontend/src/lib/schema-form-builder.ts:6-35 | A missing schema or one without `type` gives `{}`. An object schema gives an object, and `{}` when it has no `properties`. An array schema gives `[]`, ignoring `default`. string/number/integer/boolean give the schema default or `''`/`0`/`false`. Any other type gives `null`. |
| SchemaForm.DefaultsFromKeys | frontend/src/lib/schema-form-builder.ts:10-17 | Filling the object keeps its keys so far and appends the schema's property names in declaration order. |
| SchemaForm.DefaultsFromLookup | frontend/src/lib/schema-form-builder.ts:10-17 | Each declared property of an object default holds that property's own recursive default. Every other key keeps what the accumulator held. |
| SchemaForm.BuildDefaultObject | frontend/src/lib/schema-form-builder.ts:10-17 | For an object schema with properties, the default's keys are exactly the declared property names, in order. Each holds the recursive default of its property schema. |
| SchemaForm.Prefixed | frontend/src/lib/schema-form-builder.ts:67 | A field path is the bare key at top level, else `prefix.key`. |
| SchemaForm.GetSchemaFields | frontend/src/lib/schema-form-builder.ts:40-85 | No fields unless the schema is an object with properties. No emitted field is itself an object with properties. |
| SchemaForm.FieldsFromMember | frontend/src/lib/schema-form-builder.ts:60-82 | Every field of the property loop comes from one property at or after the loop position. |
| SchemaForm.FieldsOfReadBack | frontend/src/lib/schema-form-builder.ts:60-82 | Every field emitted under a prefix lies at a key path of the schema that leads to its leaf schema. |
| SchemaForm.FieldReadBack | frontend/src/lib/schema-form-builder.ts:56-85 | For every emitted field: the path splits into keys that lead through the schema to the field's schema; the label is the last key; `required` is membership of the label in the immediate parent's `required` list; the path reads back a defined value from the schema's default. |
| SchemaForm.EntryInFieldsFrom | frontend/src/lib/schema-form-builder.ts:60-82 | A field of one property is among the fields of the loop from any earlier position. |
| SchemaForm.LeafPathField | frontend/src/lib/schema-form-builder.ts:56-82 | Every key path that leads through nested objects with properties to a non-null property without them has a field, emitted at that dotted path, labelled with the last key, with that property's schema and its parent's `required` flag. |
| SchemaForm.LeafPathsAreFields | frontend/src/lib/schema-form-builder.ts:40-85 | For well-keyed schemas, a key path is spelled by some field's path if and only if it is such a leaf path. The fields are exactly the leaves. |
| SchemaForm.FieldsFromSplit | frontend/src/lib/schema-form-builder.ts:60 | The fields of the loop from one position are those up to a later position followed by those from it. |
| SchemaForm.FieldsInPropertyOrder | frontend/src/lib/schema-form-builder.ts:60-82 | The fields of an earlier property come before those of a later one, in `Object.entries` order. |
| SchemaForm.GetValueByPath | frontend/src/lib/schema-form-builder.ts:118-130 | The key loop returns the value the path leads to through objects and arrays. It stops with `undefined` when it reaches null or undefined. On other primitives the model reads no property, so the next key gives `undefined` (see Left out). |
| SchemaForm.Spread | frontend/src/lib/schema-form-builder.ts:92 | For an object or array, the top-level copy has the same own properties as the input for every key. A primitive spreads to `{}` here (see Left out). |
| SchemaForm.Child | frontend/src/lib/schema-form-builder.ts:96-100 | Walking into a key keeps an existing object or array. A missing, falsy or non-object value is replaced by a fresh `{}`. |
| SchemaForm.SetIn | frontend/src/lib/schema-form-builder.ts:95-110 | Writing along a key path keeps the kind (object or array) of the container it starts from. |
| SchemaForm.WithValueAt | frontend/src/lib/schema-form-builder.ts:90-113 | The result is an object. Every top-level key other than the first path segment is unchanged. |
| SchemaForm.SetValueByPath | frontend/src/lib/schema-form-builder.ts:90-113 | The walk-and-write loop computes the value-level update `WithValueAt`. |
| SchemaForm.SetAlong | frontend/src/lib/schema-form-builder.ts:95-110 | The walk loop, which reassigns the current container, writes exactly what `SetIn` describes. |
| SchemaForm.GetSetIn | frontend/src/lib/schema-form-builder.ts:95-110 | After a write along a key path, reading the same path gives the value written, or `undefined` when the value is `''`. |
| SchemaForm.GetAfterSet | frontend/src/lib/schema-form-builder.ts:90-130 | `getValueByPath(setValueByPath(o, p, v), p)` is `v` for every `v` other than `''`. With `''` it is `undefined`, because the leaf is deleted. |
| SchemaForm.ContainersAlongPath | frontend/src/lib/schema-form-builder.ts:95-101 | At each depth along the written path, the result holds the container the walk reached: an existing object or array is kept as the same kind, a missing, falsy or non-object value becomes `{}`, and every key other than the next path key is unchanged. |
| SchemaForm.SetInTwice | frontend/src/lib/schema-form-builder.ts:95-110 | Writing the same value along the same key path twice equals writing it once. |
| SchemaForm.SetValueIdempotent | frontend/src/lib/schema-form-builder.ts:90-113 | `setValueByPath` with the same path and value is idempotent. |
| SchemaForm.ValidateSchemaValue | frontend/src/lib/schema-form-builder.ts:135-186 | "required" is returned iff the schema has `required` and the value is empty (`undefined`, `''` or `null`). An empty value is otherwise valid. Only number/integer/string schemas report other errors. Number errors need a numeric type and the integer error an integer type. A too-short string is reported before a too-long one, and both before the enum check. Conversely, for a non-empty value, the first failing check in source order is reported: NaN, below `minimum`, above `maximum`, not an integer, then for strings too short, too long, pattern mismatch, not in `enum`. When none fails the result is valid. |
| OpenApi.AtLocation | frontend/src/lib/openapi-parser.ts:11-19 | The parameters kept are exactly the listed ones with the given `in`, in their original order, and every copy of a duplicated entry is kept. |
| OpenApi.ParseParameters | frontend/src/lib/openapi-parser.ts:11-19 | Missing parameters give three empty lists. Each list holds exactly the parameters whose `in` is path, query or header respectively, as an order-preserving subsequence, with each entry as many times as it is listed. Other locations appear in none. |
| OpenApi.ParseRequestBodySchema | frontend/src/lib/openapi-parser.ts:24-33 | A schema is returned iff there is a request body whose content has an `application/json` entry with a schema. Then it is that schema. |
| OpenApi.TypeDefault | frontend/src/lib/openapi-parser.ts:43-57 | The type default is `''`, `0`, `false`, `[]` or `{}` by type, and `null` for any other type. |
| OpenApi.GenerateDefaultValue | frontend/src/lib/openapi-parser.ts:38-58 | `schema.default` wins whenever present, for every type including object and array. Otherwise the value is the type default. |
| OpenApi.ValidateParameter | frontend/src/lib/openapi-parser.ts:63-104 | The required error is returned iff the parameter is required and its value is `undefined` or `''`. Without a schema, nothing else is reported. An unset value never gives a type, pattern or enum error. An enum error means the value is not in `schema.enum`. Every error carries the parameter's name. Conversely, for a set value with a schema, the first failing check in source order is reported: not a number, below `minimum`, above `maximum`, pattern mismatch, not in `enum`. When none fails there is no error. |
| RequestBuilder.BuildProxyRequest | frontend/src/lib/request-builder.ts:6-61 | Service and method are copied unchanged. The path is the substituted template plus the query suffix. Headers are present iff some entry has a non-empty key and value, and are then exactly those entries. The body is the best-effort parse. |
| RequestBuilder.BuildPath | frontend/src/lib/request-builder.ts:12-29 | The final path is the placeholder substitution followed by the serialized query. |
| RequestBuilder.FillPlaceholders | frontend/src/lib/request-builder.ts:13-16 | The loop replaces, key by key in record order, the first `{key}` with the encoded value. |
| RequestBuilder.NonEmptyQueryParams | frontend/src/lib/request-builder.ts:19-24 | The loop appends exactly the query parameters whose value is non-empty, in order. |
| RequestBuilder.QueryPairs | frontend/src/lib/request-builder.ts:19-24 | The appended pairs are exactly the entries with a non-empty value, in record order, each as often as it occurs. |
| RequestBuilder.QuerySuffix | frontend/src/lib/request-builder.ts:18-29 | The suffix is empty iff every value is `''`. Otherwise it is `?` followed by a query that parses back to exactly the non-empty pairs. It never holds `#`. |
| RequestBuilder.CollectHeaders | frontend/src/lib/request-builder.ts:39-44 | The header loop stores exactly the entries `KeptHeaders` keeps. |
| RequestBuilder.KeptHeadersLookup | frontend/src/lib/request-builder.ts:39-44 | A key is present in the kept headers with the form's value iff its key and value are non-empty. |
| RequestBuilder.KeptHeadersEmpty | frontend/src/lib/request-builder.ts:46-48 | No headers are kept, so `headers` is absent, exactly when every entry has an empty key or value. |
| RequestBuilder.ParseBody | frontend/src/lib/request-builder.ts:50-58 | The body step computes `RequestBody`. |
| RequestBuilder.RequestBody | frontend/src/lib/request-builder.ts:50-58 | The body is absent iff the text is empty or whitespace. Otherwise it is the parsed JSON when the text parses, else the raw text verbatim; it is never an error. |
| RequestBuilder.FirstUnbound | frontend/src/lib/request-builder.ts:83-87 | Returns none iff every name is bound to a non-blank value. Otherwise it returns the first unbound name, with every earlier one bound. |
| RequestBuilder.ValidatePathParams | frontend/src/lib/request-builder.ts:77-90 | The result is null iff every extracted placeholder is bound to a non-blank value. Otherwise it is `Path parameter "<name>" is required` for the first unbound one in template order. |
| RequestBuilder.EncodedMap | frontend/src/lib/request-builder.ts:14-15 | Binds exactly the record's keys, each to the `encodeURIComponent` of its value. |
| RequestBuilder.SubstituteStep | frontend/src/lib/request-builder.ts:15 | Replacing the first `{k}` in a partly substituted template fills exactly the first still-open `k` placeholder and nothing else. |
| RequestBuilder.SubstitutedNothing | frontend/src/lib/request-builder.ts:13 | With no bindings, the template is unchanged. |
| RequestBuilder.SubstituteAll | frontend/src/lib/request-builder.ts:13-16 | For templates whose every `{` opens a placeholder, and unique keys without `}`, running the whole loop fills, for each bound key, its first open placeholder with the encoded value. Unbound placeholders and later duplicates stay. |
| RequestBuilder.SubstitutePathFills | frontend/src/lib/request-builder.ts:13-16 | For templates whose every `{` opens a placeholder, and unique keys without `}`, the substituted path is the template with each bound key's first placeholder filled and all else kept. |
| RequestBuilder.SubstitutedRender | frontend/src/lib/request-builder.ts:13-16 | With distinct placeholder names all bound, the substituted template equals the template rendered with each name's value. |
| RequestBuilder.EncodedValues | frontend/src/lib/request-builder.ts:15 | One encoded value per placeholder name, in template order. |
| RequestBuilder.BuiltPathRenders | frontend/src/lib/request-builder.ts:13-16 | A template with distinct, all-bound placeholders becomes the template rendered with the encoded values. |
| RequestBuilder.BuiltPathMatches | frontend/src/lib/request-builder.ts:6-29 | For whole-segment placeholders with non-empty values, the built path cut at `?` matches the template. The captures are the encoded values, in template order. |
| RequestBuilder.EncodedCaptures | frontend/src/lib/request-builder.ts:15 | Encoded non-empty values are valid captures: non-empty, with no `/`, `?` or `#`. |
| RequestBuilder.BeforeQuery | frontend/src/lib/request-builder.ts:26-29 | Cutting the built path at the first `?` gives back the substituted path. |
| PathTemplates.Tokenize | frontend/src/lib/request-builder.ts:67-72 | The tokens spell the template back. Every placeholder name is non-empty and free of `}`. Each `{` that can open a placeholder does, leftmost and shortest, as in `/\{([^}]+)\}/g`. |
| PathTemplates.TokenizeUnique | frontend/src/lib/request-builder.ts:68 | Exactly one token sequence spells the template with that leftmost-shortest reading, so the tokenizer is the regex's reading. |
| PathTemplates.ExtractPathParams | frontend/src/lib/request-builder.ts:67-72 | Returns the placeholder names in order of appearance, duplicates included, and `[]` when there are none. |
| PathTemplates.ExtractPathParamsOfTemplate | frontend/src/lib/request-builder.ts:67-72 | A template assembled from literal characters other than `{` and named placeholders extracts exactly its placeholder names, in order. |
| PathTemplates.NoLiteralBraceLeftmost | frontend/src/lib/request-builder.ts:68 | A token sequence without a literal `{` is in the regex's leftmost reading. |
| PathTemplates.RunLen | frontend/src/stores/app-store.ts:146 | Gives the length of the longest prefix without `/`, which is the longest a `([^/]+)` capture may take. |
| PathTemplates.Match | frontend/src/stores/app-store.ts:139-153 | Every match it reports is a real match of the anchored pattern. Each capture is a non-empty run of non-`/` characters and all other characters are literal. |
| PathTemplates.TryParam | frontend/src/stores/app-store.ts:146-152 | Backtracking on one capture length gives only real matches, with the capture as long as possible (greedy). |
| PathTemplates.MatchComplete | frontend/src/stores/app-store.ts:146-152 | When some assignment of captures makes the pattern match the path, the matcher finds a match. |
| PathTemplates.MatchIff | frontend/src/stores/app-store.ts:140-153 | A template matches a path iff the path equals the template with each placeholder replaced by a non-empty run of non-`/` characters, anchored at both ends. |
| PathTemplates.MatchUnique | frontend/src/stores/app-store.ts:140-164 | A template whose placeholders each fill a whole segment matches its own rendering with exactly the captures that were rendered. |
| AppStore.Merged | frontend/src/stores/app-store.ts:90-93 | Overwrites exactly the form fields present in the partial and leaves the others unchanged. |
| AppStore.MergeIdempotent | frontend/src/stores/app-store.ts:90-93 | Applying the same partial twice equals applying it once. |
| AppStore.Prepended | frontend/src/stores/app-store.ts:105-113 | The new entry is at index 0 and the previous entries follow in order. The oldest is dropped when the length would exceed 50, so a length of at most 50 is preserved. |
| AppStore.WithoutId | frontend/src/stores/app-store.ts:199-202 | Removes exactly the entries with that id and keeps the rest as an order-preserving subsequence, every copy of a kept entry included. |
| AppStore.WithoutAbsentId | frontend/src/stores/app-store.ts:199-202 | Removing an id that no entry carries leaves the history unchanged. |
| AppStore.RemoveUndoesAdd | frontend/src/stores/app-store.ts:105-113 | Below the cap, removing a freshly added entry with a new id restores the previous history. |
| AppStore.MatchEntryIff | frontend/src/stores/app-store.ts:125-153 | A path entry is considered iff it is not a `$ref`, defines the lower-cased method with an operation that is not a `$ref`, and its template matches. The match then has one capture per placeholder name. |
| AppStore.FirstMatch | frontend/src/stores/app-store.ts:125-167 | Finds the first matching entry in document order, with no earlier entry matching. With no match, no entry matches. |
| AppStore.FindEndpoint | frontend/src/stores/app-store.ts:125-167 | The `for … break` search returns the endpoint and captured path parameters of the first match in document order. |
| AppStore.BindCaptures | frontend/src/stores/app-store.ts:162-164 | The i-th placeholder name is bound to the i-th capture, raw, with a later duplicate name winning. |
| AppStore.ParseQueryParams | frontend/src/stores/app-store.ts:170-181 | The `forEach` loop stores the parsed query of the path, with the last value winning for a repeated key. |
| AppStore.BodyText | frontend/src/stores/app-store.ts:190 | The form body is the serialized request body when that body is truthy, else `''`. |
| AppStore.ReplayFindsEntry | frontend/src/stores/app-store.ts:125-164 | The entry that matches first is the one selected, with its captures bound to its placeholder names. |
| AppStore.ZippedLookup | frontend/src/stores/app-store.ts:162-164 | With distinct names, zipping them with the encoded values binds each name to its own encoded value and nothing else. |
| AppStore.ReplayRestoresPathParams | frontend/src/stores/app-store.ts:115-167 | Replaying a path built from whole-segment placeholders with non-empty, encoding-invariant values selects that template and recovers exactly the original path parameters, provided no earlier template matches. |
| AppStore.SearchOfBuilt | frontend/src/stores/app-store.ts:174-176 | The query of a built path is what follows its `?`, and there is none without one. |
| AppStore.BuiltSearch | frontend/src/stores/app-store.ts:170-181 | The query parameters parsed back from a built path are the non-empty pairs serialized into it, last value winning. |
| AppStore.SurvivingQueryLookup | frontend/src/stores/app-store.ts:176-178 | Re-collecting the serialized pairs gives each key its value when it was non-empty, and leaves it absent otherwise. |
| AppStore.ReplayRestoresQuery | frontend/src/stores/app-store.ts:170-181 | Replaying a built path restores every non-empty query parameter with its value and drops the empty ones. |
| AppStore.Store.constructor | frontend/src/stores/app-store.ts:43-61 | Starts in the initial state: empty lists and maps, nothing selected, the empty form, not loading, no errors. |
| AppStore.Store.SetServices | frontend/src/stores/app-store.ts:64 | Replaces the service list and nothing else. |
| AppStore.Store.SetSpec | frontend/src/stores/app-store.ts:66-69 | Stores the document under the service and leaves the other documents and all other state unchanged. |
| AppStore.Store.SelectService | frontend/src/stores/app-store.ts:71-79 | Sets the service and resets the endpoint, the form, the last response and both errors. Nothing else changes. |
| AppStore.Store.SelectEndpoint | frontend/src/stores/app-store.ts:81-88 | Sets the endpoint and resets the form, the last response and both errors. The selected service is unchanged. |
| AppStore.Store.UpdateRequestForm | frontend/src/stores/app-store.ts:90-93 | Merges the partial into the form and nothing else changes. |
| AppStore.Store.ResetRequestForm | frontend/src/stores/app-store.ts:95 | Restores the empty form and nothing else changes. |
| AppStore.Store.SetResponse | frontend/src/stores/app-store.ts:97 | Replaces the last response only. |
| AppStore.Store.SetLoading | frontend/src/stores/app-store.ts:99 | Replaces the loading flag only. |
| AppStore.Store.SetAppError | frontend/src/stores/app-store.ts:101 | Replaces the application error only. |
| AppStore.Store.SetRequestError | frontend/src/stores/app-store.ts:103 | Replaces the request error only. |
| AppStore.Store.AddToHistory | frontend/src/stores/app-store.ts:105-113 | Prepends the entry with the 50-entry cap and keeps the store invariant (history length at most 50). |
| AppStore.Store.RemoveFromHistory | frontend/src/stores/app-store.ts:199-202 | Filters the entries with the id out of the history and keeps the invariant. |
| AppStore.Store.ClearHistory | frontend/src/stores/app-store.ts:204 | Empties the history. |
| AppStore.Store.LoadFromHistory | frontend/src/stores/app-store.ts:115-196 | Sets the entry's service and the replayed endpoint and form, sets the last response to the entry's response, and clears both errors. The form holds the captured path params, the query params of the request path (falling back to the entry path), the headers (default `{}`) and the body text. |
| AppStore.Store.Restore | frontend/src/stores/app-store.ts:183-195 | The final `set`: replaces exactly the service, endpoint, form, response and both errors. |
| SpecStorage.LoadEntry | api/internal/storage/specs.go:70-113 | A directory or a non-`.json` entry leaves the tables unchanged. An unreadable or invalid JSON spec file fails. A loaded file's text is stored under its name without `.json`. Configurations never appear without their spec. |
| SpecStorage.LoadFrom | api/internal/storage/specs.go:70-116 | Loading entries in order keeps the configuration keys a subset of the spec keys. |
| SpecStorage.ServiceNameInjective | api/internal/storage/specs.go:82 | Two different `.json` file names give two different service names. |
| SpecStorage.EntryEffect | api/internal/storage/specs.go:70-113 | Loading one entry changes the tables only under that entry's service name. |
| SpecStorage.LoadFromKeeps | api/internal/storage/specs.go:70-114 | A successful load leaves every name that no spec file maps to as it was. |
| SpecStorage.LoadFromHolds | api/internal/storage/specs.go:70-114 | After a successful load, each spec file's text is stored under its service name. A configuration is stored exactly when the document has `x-proxy-config`. |
| SpecStorage.LoadFromNames | api/internal/storage/specs.go:70-114 | A successful load adds exactly the service names of the spec files. |
| SpecStorage.BadFileFails | api/internal/storage/specs.go:86-107 | A spec file that cannot be read, is not valid JSON, or has an `x-proxy-config` that does not decode makes the whole load fail. |
| SpecStorage.EntryLoads | api/internal/storage/specs.go:86-113 | One spec file loads exactly when it can be read, its text decodes, and its `x-proxy-config`, where present, decodes. |
| SpecStorage.GoodFilesLoad | api/internal/storage/specs.go:71-117 | A listing whose spec files all load gives a load without error. Directories and non-`.json` entries never stop it. |
| SpecStorage.LoadSucceedsIff | api/internal/storage/specs.go:43-117 | In an existing, listable directory, `NewFileSpecStore` succeeds if and only if every spec file in it loads. An empty directory loads. |
| SpecStorage.Load | api/internal/storage/specs.go:43-68 | A missing directory fails before anything else, then an unreadable listing fails. On success, configuration keys are a subset of spec keys. |
| SpecStorage.LoadedStore | api/internal/storage/specs.go:64-117 | A successful load holds exactly the spec files' service names, each with its text. A configuration is held exactly for the documents carrying `x-proxy-config`. |
| SpecStorage.Insert | api/internal/storage/specs.go:121-125 | Inserting a new name into a strictly sorted list keeps it strictly sorted and adds exactly that name. |
| SpecStorage.NewFileSpecStore | api/internal/storage/specs.go:43-61 | The store is built exactly when `Load` succeeds, holding its tables. Otherwise it fails with the same error. |
| SpecStorage.FileSpecStore.constructor | api/internal/storage/specs.go:49-53 | Starts with empty tables for the directory. |
| SpecStorage.FileSpecStore.LoadSpecs | api/internal/storage/specs.go:64-117 | The loop leaves the tables and the error that `LoadFrom` describes, and keeps configuration keys within spec keys. |
| SpecStorage.FileSpecStore.List | api/internal/storage/specs.go:120-127 | Returns exactly the loaded service names, strictly ascending, so without duplicates. |
| SpecStorage.FileSpecStore.Get | api/internal/storage/specs.go:130-136 | Succeeds iff the name is loaded, with its stored spec. Otherwise it fails with "spec not found". |
| SpecStorage.FileSpecStore.GetConfig | api/internal/storage/specs.go:139-145 | Succeeds iff a configuration is stored, with that configuration. Otherwise it fails, which covers both unknown services and specs without `x-proxy-config`. |
| ProxyClient.ValidMethodNames | api/internal/proxy/client.go:117-128 | A method is accepted iff it is one of GET, POST, PUT, PATCH, DELETE, HEAD or OPTIONS, exactly in upper case. |
| ProxyClient.RefusedMethods | api/internal/proxy/client.go:117-128 | `get`, `Post`, `TRACE`, `CONNECT` and the empty string are refused. |
| ProxyClient.CanonChar | api/internal/proxy/client.go:75-86 | Canonicalizing a character changes only its ASCII case. |
| ProxyClient.CanonFrom | api/internal/proxy/client.go:75-86 | Canonicalizing keeps the key's length. |
| ProxyClient.CanonicalKey | api/internal/proxy/client.go:75-86 | Keeps the length, and leaves a key that is not a valid header token untouched. |
| ProxyClient.CanonFromToken | api/internal/proxy/client.go:75-86 | Canonicalizing a token gives a token that is equal to it ignoring ASCII case. |
| ProxyClient.CanonicalKeyIdempotent | api/internal/proxy/client.go:75-86 | Canonicalizing twice equals canonicalizing once. |
| ProxyClient.CanonicalKeyCaseInsensitive | api/internal/proxy/client.go:75-86 | Two token keys canonicalize to the same key iff they are equal ignoring ASCII case, so field names are case-insensitive. |
| ProxyClient.Canonical | api/internal/proxy/client.go:75-86 | Each pair keeps its position and value, with its key canonicalized. |
| ProxyClient.Overlay | api/internal/proxy/client.go:75-86 | Setting pairs in turn defines exactly the old keys plus the pairs' keys. |
| ProxyClient.OverlayLookup | api/internal/proxy/client.go:75-86 | After the overlay, a key holds the last value set under it, or what it held before. |
| ProxyClient.ContentTypeIsCanonical | api/internal/proxy/client.go:89-91 | `Content-Type` is already in canonical form. |
| ProxyClient.TwoWordsCanonical | api/internal/proxy/client.go:89-91 | Every `Word-Word` key of capitalized lower-case words is its own canonical form. |
| ProxyClient.ComposedHeaderValue | api/internal/proxy/client.go:75-91 | A request header wins over an auth header on the same canonical key. `Content-Type: application/json` is added only when the body is non-empty and no non-empty Content-Type is set. |
| ProxyClient.CanonicalKeys | api/internal/proxy/client.go:82-86 | A request header is found under a canonical key iff some request key canonicalizes to it. |
| ProxyClient.ComposeHeaders | api/internal/proxy/client.go:75-91 | The two header loops and the Content-Type step compute `ComposedHeaders`. |
| ProxyClient.SetAll | api/internal/proxy/client.go:75-86 | A header loop sets each pair under its canonical key, later over earlier. |
| ProxyClient.Prepare | api/internal/proxy/client.go:48-91 | An invalid method is refused first, then an unknown service. On success: the method is kept, the URL is exactly `BaseURL + Path`, the headers are the composed headers, and the body is sent iff non-empty. Past those two checks, the request fails if and only if `BaseURL + Path` does not parse, and the failure is `BadRequestUrl` carrying that URL. |
| ProxyClient.MethodCheckedFirst | api/internal/proxy/client.go:50-52 | An invalid method is refused whatever the store holds, so before any service lookup. |
| ProxyClient.Forward | api/internal/proxy/client.go:48-91 | `Forward`, up to sending, computes `Prepare` over the store's configurations. |
| HttpUi.Bucket | frontend/src/lib/http-ui.ts:13-24 | The buckets are [200,300), [300,400) and [400,500). Every other code, below 200 or from 500 up, falls in the last bucket. |
| HttpUi.StatusBadgeBuckets | frontend/src/lib/http-ui.ts:13-24 | 2xx codes get the green badge, 3xx blue, 4xx amber, and all others red. These are the POST, GET, PUT and DELETE badges. |
| HttpUi.BadgeSeparatesBuckets | frontend/src/lib/http-ui.ts:13-24 | Two codes get the same badge iff they are in the same bucket. |
| HttpUi.TextStyleSeparatesBuckets | frontend/src/lib/http-ui.ts:26-31 | Text styles use the same four buckets with the same boundaries as badges. |
| HttpUi.MethodBadgesDistinct | frontend/src/lib/http-ui.ts:3-11 | The method badge map is total over the seven methods and gives each its own badge. |
| Text.Split | frontend/src/lib/schema-form-builder.ts:91 | `split` gives at least one part, no part holds the separator, and joining the parts gives the input back. |
| Text.SplitJoin | frontend/src/lib/schema-form-builder.ts:91 | Splitting the join of separator-free parts gives the parts back. |
| Text.Before | frontend/src/stores/app-store.ts:150 | `split('?')[0]` is the prefix before the first `?`, and it holds no `?`. |
| Text.After | frontend/src/stores/app-store.ts:174-176 | There is a text after the first occurrence iff the character occurs, and the input is the text before, the character, and the text after. |
| Text.IndexOf | frontend/src/lib/request-builder.ts:15 | A reported index is an occurrence of the pattern. |
| Text.IndexOfFirst | frontend/src/lib/request-builder.ts:15 | The reported occurrence is the first one, and none is reported only when there is no occurrence. |
| Text.ReplaceFirstAt | frontend/src/lib/request-builder.ts:15 | `replace` with a string pattern replaces only the first occurrence. Without an occurrence the string is unchanged. |
| Text.TrimSuffix | api/internal/storage/specs.go:82 | A present suffix is removed exactly once. Otherwise the string is unchanged. |
| Text.LowerAscii | frontend/src/stores/app-store.ts:130 | Lower-cases each character in place. |
| Text.Utf16Length | frontend/src/lib/schema-form-builder.ts:165-171 | A string's `length` counts each character once or, outside the basic plane, twice. |
| Text.LessTransitive | api/internal/storage/specs.go:125 | The order `sort.Strings` uses is transitive. |
| Text.LessTotal | api/internal/storage/specs.go:125 | Of two different names, one sorts before the other. |
| Text.LessIrreflexive | api/internal/storage/specs.go:125 | No name sorts before itself. |
| Utf8.EncodeChar | frontend/src/lib/request-builder.ts:15 | Each character takes 1 to 4 bytes. ASCII characters take a single byte equal to themselves, and no byte of a longer encoding is ASCII. |
| Utf8.DecodeEncodeChar | frontend/src/lib/request-builder.ts:15 | Decoding a character's encoding followed by any bytes gives the character and then the decoding of those bytes. |
| Utf8.DecodeEncode | frontend/src/lib/request-builder.ts:15 | UTF-8 decoding inverts UTF-8 encoding. |
| Utf8.EncodeAppend | frontend/src/lib/request-builder.ts:15 | Encoding distributes over concatenation. |
| PercentEncoding.EncodeUriComponent | frontend/src/lib/request-builder.ts:15 | The output holds only unreserved characters and `%`. It is no shorter than the input, and the same length exactly when every input character is unreserved. |
| PercentEncoding.EncodingInvariant | frontend/src/lib/request-builder.ts:15 | A value is left unchanged by encoding iff all its characters are unreserved. |
| PercentEncoding.EncodedHasNoDelimiter | frontend/src/lib/request-builder.ts:15 | An encoded value never holds `{ } / ? # & = $ +`. |
| PercentEncoding.HexDigit | frontend/src/lib/request-builder.ts:15 | Hex digits are alphanumeric and decode back to their value. |
| PercentEncoding.FormEncodeBytes | frontend/src/lib/request-builder.ts:19-26 | The form-urlencoded output is ASCII, without `&`, `=` or `#`. |
| PercentEncoding.DecodeFormEncoded | frontend/src/lib/request-builder.ts:19-26 | Form-urlencoding is inverted by `+`-to-space followed by percent-decoding. |
| PercentEncoding.Serialize | frontend/src/lib/request-builder.ts:26 | The serialized query is empty iff there are no pairs. It never holds `#`. |
| PercentEncoding.ParsePairOfFormPair | frontend/src/lib/request-builder.ts:19-26 | One serialized `name=value` parses back to the pair. |
| PercentEncoding.ParseSerialize | frontend/src/lib/request-builder.ts:19-26 | Parsing a serialized query gives back exactly the pairs, in order. |
| Dicts.Lookup | frontend/src/lib/request-builder.ts:84 | A record holds a key iff the key is among its keys, and then with one of its entries' values. |
| Dicts.LookupFirst | frontend/src/lib/request-builder.ts:84 | The value read is that of the first entry with the key. |
| Dicts.Put | frontend/src/lib/request-builder.ts:42 | After an assignment the key reads back the new value, and every other key is unchanged. |
| Dicts.PutKeys | frontend/src/lib/request-builder.ts:42 | Assigning an existing key keeps the key order. A new key is appended. |
| Dicts.Remove | frontend/src/lib/schema-form-builder.ts:107 | `delete` leaves the key absent and every other key unchanged. |
| Dicts.PutPut | frontend/src/stores/app-store.ts:177 | A second assignment to the same key overrides the first. |
| Dicts.PutAllLookup | frontend/src/stores/app-store.ts:176-178 | Assigning pairs in turn leaves each assigned key with its last value, and every other key unchanged. |
| JsonValues.GetProp | frontend/src/lib/schema-form-builder.ts:126 | Reads the own properties of objects and arrays. Primitives are given no properties (see Left out). |
| JsonValues.SetProp | frontend/src/lib/schema-form-builder.ts:109 | Setting a property reads back the value, keeps the container's kind and leaves the other properties unchanged. |
| JsonValues.DeleteProp | frontend/src/lib/schema-form-builder.ts:107 | Deleting a property leaves it undefined, keeps the container's kind and leaves the other properties unchanged. |

## Left out

- Reading and writing the browser's storage, `fetch`, React rendering, hooks and every `.tsx` component are outside this model.
- The Go HTTP handlers, the server and its logging are outside this model.
- `os.Stat`, `os.ReadDir` and `os.ReadFile` are inputs: whether the directory exists, its listing in order, and each file's text or read failure.
- `httpClient.Do`, the reading of the response and the client's 30-second timeout are not modelled. `Forward` is modelled up to the request it would send.
- `json.Marshal` of the decoded `x-proxy-config` (specs.go:99-102) is taken never to fail. It re-encodes a value `json.Unmarshal` has just produced.
- `json.Unmarshal` and the configuration decoding are parameters. So Go's case-insensitive struct-field matching of configuration keys is not modelled.
- `JSON.parse`, `JSON.stringify` (pretty-printed with two spaces), `Number(...)` and `new RegExp(pattern).test` are parameters. An invalid `pattern` making `new RegExp` throw is not modelled.
- Numbers are `int` in JSON values and `real` or NaN in validation. Floating-point rounding is not modelled.
- SchemaForm.GetValueByPath: a string's index and `length` properties, an array's `length` and prototype members are not modelled. The model reads them as `undefined`, where `getValueByPath({a: "xyz"}, "a.length")` gives 3 in JavaScript.
- SchemaForm.Spread: spreading a string gives `{}` here, where JavaScript gives its index keys (`{..."ab"}` is `{0: "a", 1: "b"}`).
- JsonValues.GetProp: primitives have no properties here, and arrays have no `length`.
- RequestBuilder.SubstituteAll: proved only for templates in which every `{` opens a placeholder whose name holds no `{`, with unique keys none of which holds `}`. For other templates, such as `/{{id}`, the same code runs, but no result is stated.
- RequestBuilder.SubstitutePathFills: proved only under the same conditions as `SubstituteAll`.
- The template regex's `__PARAM_i__` tokens are not modelled. A template that itself contains `__PARAM_0__` would be misread by the source; the model assumes templates are free of it. Regex-escaping is treated as making every non-placeholder character literal.
- `new URL(fullPath, 'http://dummy.com')` is modelled only as far as the query: the text after the first `?`, up to any `#`. Its other parsing steps and the warning on a parse failure are not modelled. So where `new URL` throws, for instance on a stored path `//h:x/p?q=1` whose port is invalid, the source leaves the query parameters empty, but AppStore.ParseQueryParams still parses the text after `?`.
- AppStore.ReplayRestoresPathParams: holds only for templates whose placeholders fill whole path segments, have distinct names and are bound to non-empty values that encoding leaves unchanged. The source promises nothing for other templates, and with repeated or non-segment placeholders replay can capture differently.
- AppStore.ReplayRestoresQuery: holds only for such built paths whose literal characters include no `#`.
- SchemaForm.FieldReadBack: requires property names that are unique, non-empty and free of `.`. With a `.` in a name, the dot path cannot be read back.
- The in-place aliasing of nested objects by `setValueByPath`, which copies only the top level, is not observable on JSON values. The model does not claim the input is untouched below the top level.
- JavaScript's ordering of integer-like property keys before the others is not modelled. Records keep insertion order.
- `__proto__` keys and other prototype effects of object spread and assignment are not modelled. Reads of inherited properties are not modelled either: a path placeholder named `constructor` or `toString` with no own value makes `validatePathParams` throw a TypeError on `.trim()`, where RequestBuilder.ValidatePathParams reports it as required.
- SchemaForm.JsLength: an array's length is its number of stored entries, not one more than its largest index. The two differ once a delete leaves a hole, which `setValueByPath` with `''` can do through a numeric path segment.
- `toLowerCase` of the method is modelled on ASCII letters only.
- Go maps have no iteration order. The auth headers and request headers are taken in listing order, so with two keys that canonicalize alike, the one listed last wins.
- `sort.Strings` is modelled by sorted insertion under code-point order, which agrees with Go's byte order on UTF-8 strings.
- The colour class strings of the method and status badges are built by concatenation from the colour names. Only the properties listed above are stated about them.
- Error messages are datatypes that carry their data. The exact message wording is kept only for `validatePathParams`.
- UTF-16 `length` counts a character outside the basic plane as two. Lone surrogates cannot occur in Dafny strings and are not modelled.
