/**
 * The proxy's spec store: every `.json` file of a directory loaded into
 * memory, keyed by the file name without `.json`, together with the
 * `x-proxy-config` object of the documents that carry one.
 *
 * The directory is given as its entries in listing order, a file as its text
 * (or `None` when it cannot be read).  Decoding a document into a map of
 * top-level members and decoding a proxy configuration are parameters.
 */
module SpecStorage {
  import opened Wrappers
  import opened Dicts
  import opened Text
  import opened JsonValues

  /** One directory entry; `contents` is `None` for a file that cannot be read. */
  datatype DirEntry = DirEntry(name: string, isDir: bool, contents: Option<string>)

  /** The proxy configuration of a service; `authHeaders` is `None` when absent. */
  datatype ServiceConfig = ServiceConfig(baseURL: string, authHeaders: Option<Dict<string>>)

  /** Why building the store failed. */
  datatype LoadError =
    | DirectoryMissing(dir: string)
    | ReadDirFailed
    | ReadFailed(name: string)
    | InvalidJson(name: string)
    | InvalidProxyConfig(name: string)

  /** Why a lookup failed. */
  datatype StoreError = SpecNotFound(service: string) | ConfigNotFound(service: string)

  const ProxyConfigKey := "x-proxy-config"

  /** The entries that are loaded: files, not directories, whose names end in `.json`. */
  predicate IsSpecFile(e: DirEntry) {
    !e.isDir && HasSuffix(e.name, ".json")
  }

  function ServiceName(e: DirEntry): string {
    TrimSuffix(e.name, ".json")
  }

  /** The two in-memory tables. */
  datatype Tables = Tables(specs: map<string, string>, configs: map<string, ServiceConfig>)

  /** What a load leaves: the tables filled so far, and the error that stopped it, if any. */
  datatype Loaded = Loaded(tables: Tables, error: Option<LoadError>)

  /** The tables after one entry, or the error the entry raises. */
  function LoadEntry(
    t: Tables, e: DirEntry,
    unmarshal: string -> Option<map<string, Json>>, decodeConfig: Json -> Option<ServiceConfig>)
    : (r: Result<Tables, LoadError>)
    ensures !IsSpecFile(e) ==> r == Success(t)
    ensures IsSpecFile(e) && (e.contents.None? || unmarshal(e.contents.value).None?) ==> r.Failure?
    ensures r.Success? && IsSpecFile(e) ==>
      r.value.specs == t.specs[ServiceName(e) := e.contents.value]
    ensures r.Success? && t.configs.Keys <= t.specs.Keys ==> r.value.configs.Keys <= r.value.specs.Keys
  {
    if !IsSpecFile(e) then Success(t)
    else if e.contents.None? then Failure(ReadFailed(e.name))
    else
      var data := e.contents.value;
      var name := ServiceName(e);
      match unmarshal(data)
      case None => Failure(InvalidJson(e.name))
      case Some(doc) =>
        if ProxyConfigKey in doc then
          match decodeConfig(doc[ProxyConfigKey])
          case None => Failure(InvalidProxyConfig(e.name))
          case Some(config) => Success(Tables(t.specs[name := data], t.configs[name := config]))
        else Success(Tables(t.specs[name := data], t.configs))
  }

  /** The load of `entries[i..]` into `t`, in order, stopping at the first error. */
  function LoadFrom(
    entries: seq<DirEntry>, i: nat, t: Tables,
    unmarshal: string -> Option<map<string, Json>>, decodeConfig: Json -> Option<ServiceConfig>)
    : (r: Loaded)
    requires i <= |entries|
    ensures t.configs.Keys <= t.specs.Keys ==> r.tables.configs.Keys <= r.tables.specs.Keys
    decreases |entries| - i
  {
    if i == |entries| then Loaded(t, None)
    else
      match LoadEntry(t, entries[i], unmarshal, decodeConfig)
      case Failure(err) => Loaded(t, Some(err))
      case Success(next) => LoadFrom(entries, i + 1, next, unmarshal, decodeConfig)
  }

  const EmptyTables := Tables(map[], map[])

  /** The service names the entries from `i` on contribute. */
  function SpecNames(entries: seq<DirEntry>, i: nat): set<string> {
    set j | i <= j < |entries| && IsSpecFile(entries[j]) :: ServiceName(entries[j])
  }

  /** A directory listing never repeats a name. */
  predicate DistinctNames(entries: seq<DirEntry>) {
    forall j, k :: 0 <= j < k < |entries| ==> entries[j].name != entries[k].name
  }

  /**
   * Entry `e` is held as loaded: its text under its service name, and a
   * configuration exactly when the document has `x-proxy-config`.
   */
  predicate Holds(t: Tables, e: DirEntry, unmarshal: string -> Option<map<string, Json>>,
                  decodeConfig: Json -> Option<ServiceConfig>)
  {
    var n := ServiceName(e);
    && e.contents.Some? && unmarshal(e.contents.value).Some?
    && n in t.specs && t.specs[n] == e.contents.value
    && (n in t.configs <==> ProxyConfigKey in unmarshal(e.contents.value).value)
    && (n in t.configs ==> Some(t.configs[n]) == decodeConfig(unmarshal(e.contents.value).value[ProxyConfigKey]))
  }

  lemma ServiceNameInjective(a: DirEntry, b: DirEntry)
    requires IsSpecFile(a) && IsSpecFile(b) && a.name != b.name
    ensures ServiceName(a) != ServiceName(b)
  {
  }

  /** The two tables agree with `t` on name `n`. */
  predicate SameAt(r: Tables, t: Tables, n: string) {
    && (n in r.specs <==> n in t.specs) && (n in t.specs ==> r.specs[n] == t.specs[n])
    && (n in r.configs <==> n in t.configs) && (n in t.configs ==> r.configs[n] == t.configs[n])
  }

  /** Loading one spec file holds it and touches no other name. */
  lemma EntryEffect(
    t: Tables, e: DirEntry,
    unmarshal: string -> Option<map<string, Json>>, decodeConfig: Json -> Option<ServiceConfig>)
    requires LoadEntry(t, e, unmarshal, decodeConfig).Success?
    ensures var next := LoadEntry(t, e, unmarshal, decodeConfig).value;
      && (IsSpecFile(e) && ServiceName(e) !in t.configs ==> Holds(next, e, unmarshal, decodeConfig))
      && forall n :: (!IsSpecFile(e) || n != ServiceName(e)) ==> SameAt(next, t, n)
  {
  }

  /** A load that succeeds touches no name that no entry from `i` on contributes. */
  lemma {:induction false} LoadFromKeeps(
    entries: seq<DirEntry>, i: nat, t: Tables,
    unmarshal: string -> Option<map<string, Json>>, decodeConfig: Json -> Option<ServiceConfig>, n: string)
    requires i <= |entries|
    requires LoadFrom(entries, i, t, unmarshal, decodeConfig).error.None?
    requires n !in SpecNames(entries, i)
    ensures SameAt(LoadFrom(entries, i, t, unmarshal, decodeConfig).tables, t, n)
    decreases |entries| - i
  {
    if i < |entries| {
      var e := entries[i];
      var next := LoadEntry(t, e, unmarshal, decodeConfig).value;
      EntryEffect(t, e, unmarshal, decodeConfig);
      assert IsSpecFile(e) ==> ServiceName(e) in SpecNames(entries, i);
      assert SpecNames(entries, i + 1) <= SpecNames(entries, i);
      LoadFromKeeps(entries, i + 1, next, unmarshal, decodeConfig, n);
    }
  }

  /** A load that succeeds holds every spec file of the listing from `i` on. */
  lemma {:induction false} LoadFromHolds(
    entries: seq<DirEntry>, i: nat, t: Tables,
    unmarshal: string -> Option<map<string, Json>>, decodeConfig: Json -> Option<ServiceConfig>, j: nat)
    requires DistinctNames(entries)
    requires i <= j < |entries| && IsSpecFile(entries[j])
    requires ServiceName(entries[j]) !in t.configs
    requires LoadFrom(entries, i, t, unmarshal, decodeConfig).error.None?
    ensures Holds(LoadFrom(entries, i, t, unmarshal, decodeConfig).tables, entries[j], unmarshal, decodeConfig)
    decreases |entries| - i
  {
    var e := entries[i];
    var next := LoadEntry(t, e, unmarshal, decodeConfig).value;
    EntryEffect(t, e, unmarshal, decodeConfig);
    if i < j {
      if IsSpecFile(e) {
        ServiceNameInjective(e, entries[j]);
      }
      LoadFromHolds(entries, i + 1, next, unmarshal, decodeConfig, j);
    } else {
      var n := ServiceName(e);
      forall k | i + 1 <= k < |entries| && IsSpecFile(entries[k])
        ensures ServiceName(entries[k]) != n
      {
        ServiceNameInjective(e, entries[k]);
      }
      assert n !in SpecNames(entries, i + 1);
      LoadFromKeeps(entries, i + 1, next, unmarshal, decodeConfig, n);
    }
  }

  /** A load that succeeds holds exactly the spec files' service names. */
  lemma {:induction false} LoadFromNames(
    entries: seq<DirEntry>, i: nat, t: Tables,
    unmarshal: string -> Option<map<string, Json>>, decodeConfig: Json -> Option<ServiceConfig>)
    requires i <= |entries|
    requires LoadFrom(entries, i, t, unmarshal, decodeConfig).error.None?
    ensures LoadFrom(entries, i, t, unmarshal, decodeConfig).tables.specs.Keys == t.specs.Keys + SpecNames(entries, i)
    decreases |entries| - i
  {
    if i < |entries| {
      var e := entries[i];
      var next := LoadEntry(t, e, unmarshal, decodeConfig).value;
      LoadFromNames(entries, i + 1, next, unmarshal, decodeConfig);
      assert SpecNames(entries, i) == SpecNames(entries, i + 1) + (if IsSpecFile(e) then {ServiceName(e)} else {});
    }
  }

  /**
   * A file that loads: it can be read, its text decodes, and its
   * `x-proxy-config`, where present, decodes too.
   */
  predicate GoodFile(e: DirEntry, unmarshal: string -> Option<map<string, Json>>,
                     decodeConfig: Json -> Option<ServiceConfig>)
  {
    && e.contents.Some? && unmarshal(e.contents.value).Some?
    && (ProxyConfigKey in unmarshal(e.contents.value).value ==>
          decodeConfig(unmarshal(e.contents.value).value[ProxyConfigKey]).Some?)
  }

  /** Every spec file from `i` on loads. */
  predicate AllGood(entries: seq<DirEntry>, i: nat, unmarshal: string -> Option<map<string, Json>>,
                    decodeConfig: Json -> Option<ServiceConfig>)
  {
    forall j :: i <= j < |entries| && IsSpecFile(entries[j]) ==> GoodFile(entries[j], unmarshal, decodeConfig)
  }

  /** A spec file loads into any tables exactly when it is good. */
  lemma EntryLoads(
    t: Tables, e: DirEntry,
    unmarshal: string -> Option<map<string, Json>>, decodeConfig: Json -> Option<ServiceConfig>)
    requires IsSpecFile(e)
    ensures LoadEntry(t, e, unmarshal, decodeConfig).Success? <==> GoodFile(e, unmarshal, decodeConfig)
  {
  }

  /** A listing whose spec files are all good loads without error. */
  lemma {:induction false} GoodFilesLoad(
    entries: seq<DirEntry>, i: nat, t: Tables,
    unmarshal: string -> Option<map<string, Json>>, decodeConfig: Json -> Option<ServiceConfig>)
    requires i <= |entries|
    requires AllGood(entries, i, unmarshal, decodeConfig)
    ensures LoadFrom(entries, i, t, unmarshal, decodeConfig).error.None?
    decreases |entries| - i
  {
    if i < |entries| {
      if IsSpecFile(entries[i]) {
        EntryLoads(t, entries[i], unmarshal, decodeConfig);
      }
      GoodFilesLoad(entries, i + 1, LoadEntry(t, entries[i], unmarshal, decodeConfig).value, unmarshal, decodeConfig);
    }
  }

  /**
   * A spec file that cannot be read, whose text does not decode, or whose
   * `x-proxy-config` does not decode makes the whole load fail.
   */
  lemma {:induction false} BadFileFails(
    entries: seq<DirEntry>, i: nat, t: Tables,
    unmarshal: string -> Option<map<string, Json>>, decodeConfig: Json -> Option<ServiceConfig>, j: nat)
    requires i <= j < |entries| && IsSpecFile(entries[j])
    requires !GoodFile(entries[j], unmarshal, decodeConfig)
    ensures LoadFrom(entries, i, t, unmarshal, decodeConfig).error.Some?
    decreases |entries| - i
  {
    if i < j && LoadEntry(t, entries[i], unmarshal, decodeConfig).Success? {
      BadFileFails(entries, i + 1, LoadEntry(t, entries[i], unmarshal, decodeConfig).value, unmarshal, decodeConfig, j);
    } else if i == j {
      EntryLoads(t, entries[j], unmarshal, decodeConfig);
    }
  }

  /** `NewFileSpecStore` as a value: a missing directory or an unreadable listing fails before any file. */
  function Load(
    specsDir: string, dirExists: bool, listing: Option<seq<DirEntry>>,
    unmarshal: string -> Option<map<string, Json>>, decodeConfig: Json -> Option<ServiceConfig>)
    : (r: Result<Tables, LoadError>)
    ensures !dirExists ==> r == Failure(DirectoryMissing(specsDir))
    ensures dirExists && listing.None? ==> r == Failure(ReadDirFailed)
    ensures r.Success? ==> r.value.configs.Keys <= r.value.specs.Keys
  {
    if !dirExists then Failure(DirectoryMissing(specsDir))
    else if listing.None? then Failure(ReadDirFailed)
    else
      var loaded := LoadFrom(listing.value, 0, EmptyTables, unmarshal, decodeConfig);
      if loaded.error.Some? then Failure(loaded.error.value) else Success(loaded.tables)
  }

  /** In an existing, listable directory, the load succeeds exactly when every spec file in it is good. */
  lemma LoadSucceedsIff(
    specsDir: string, listing: seq<DirEntry>,
    unmarshal: string -> Option<map<string, Json>>, decodeConfig: Json -> Option<ServiceConfig>)
    ensures Load(specsDir, true, Some(listing), unmarshal, decodeConfig).Success? <==>
      AllGood(listing, 0, unmarshal, decodeConfig)
  {
    if AllGood(listing, 0, unmarshal, decodeConfig) {
      GoodFilesLoad(listing, 0, EmptyTables, unmarshal, decodeConfig);
    } else {
      var j :| 0 <= j < |listing| && IsSpecFile(listing[j]) && !GoodFile(listing[j], unmarshal, decodeConfig);
      BadFileFails(listing, 0, EmptyTables, unmarshal, decodeConfig, j);
    }
  }

  /**
   * What a successful load holds, for a listing: exactly the spec files'
   * service names, each with its file's text, and a configuration exactly for
   * the documents with `x-proxy-config`.
   */
  lemma LoadedStore(
    specsDir: string, listing: seq<DirEntry>,
    unmarshal: string -> Option<map<string, Json>>, decodeConfig: Json -> Option<ServiceConfig>)
    requires DistinctNames(listing)
    requires Load(specsDir, true, Some(listing), unmarshal, decodeConfig).Success?
    ensures var t := Load(specsDir, true, Some(listing), unmarshal, decodeConfig).value;
      && t.specs.Keys == SpecNames(listing, 0)
      && forall j :: 0 <= j < |listing| && IsSpecFile(listing[j]) ==> Holds(t, listing[j], unmarshal, decodeConfig)
  {
    LoadFromNames(listing, 0, EmptyTables, unmarshal, decodeConfig);
    forall j | 0 <= j < |listing| && IsSpecFile(listing[j])
      ensures Holds(LoadFrom(listing, 0, EmptyTables, unmarshal, decodeConfig).tables, listing[j], unmarshal, decodeConfig)
    {
      LoadFromHolds(listing, 0, EmptyTables, unmarshal, decodeConfig, j);
    }
  }

  // ---------------------------------------------------------------------------
  // Sorted names

  predicate StrictlySorted(s: seq<string>) {
    forall i, j :: 0 <= i < j < |s| ==> Less(s[i], s[j])
  }

  /** `x` inserted in its place in a strictly sorted list. */
  function Insert(s: seq<string>, x: string): (r: seq<string>)
    requires StrictlySorted(s) && x !in s
    ensures StrictlySorted(r)
    ensures forall y :: y in r <==> y in s || y == x
    ensures |r| == |s| + 1
  {
    if s == [] then [x]
    else if Less(x, s[0]) then
      forall j | 0 <= j < |s| ensures Less(x, s[j]) {
        if j > 0 { LessTransitive(x, s[0], s[j]); }
      }
      [x] + s
    else
      LessTotal(x, s[0]);
      var rest := Insert(s[1..], x);
      assert forall y :: y in s <==> y == s[0] || y in s[1..];
      forall k | 0 <= k < |rest| ensures Less(s[0], rest[k]) {
        assert rest[k] in rest;
      }
      [s[0]] + rest
  }

  // ---------------------------------------------------------------------------
  // The store

  class FileSpecStore {
    const specsDir: string
    var specs: map<string, string>
    var configs: map<string, ServiceConfig>

    /** A configuration is only ever held for a loaded spec. */
    predicate Valid()
      reads this
    {
      configs.Keys <= specs.Keys
    }

    constructor(specsDir: string)
      ensures this.specsDir == specsDir && specs == map[] && configs == map[] && Valid()
    {
      this.specsDir := specsDir;
      specs := map[];
      configs := map[];
    }

    /** `loadSpecs`: the entries in order; an error stops the load with what was stored so far. */
    method LoadSpecs(
      entries: seq<DirEntry>,
      unmarshal: string -> Option<map<string, Json>>, decodeConfig: Json -> Option<ServiceConfig>)
      returns (err: Option<LoadError>)
      requires Valid()
      modifies this
      ensures Valid()
      ensures var r := LoadFrom(entries, 0, old(Tables(specs, configs)), unmarshal, decodeConfig);
        Tables(specs, configs) == r.tables && err == r.error
    {
      err := None;
      ghost var start := Tables(specs, configs);
      var i := 0;
      while i < |entries|
        invariant 0 <= i <= |entries| && Valid()
        invariant LoadFrom(entries, i, Tables(specs, configs), unmarshal, decodeConfig)
               == LoadFrom(entries, 0, start, unmarshal, decodeConfig)
      {
        var e := entries[i];
        if !e.isDir && HasSuffix(e.name, ".json") {
          var name := TrimSuffix(e.name, ".json");
          if e.contents.None? {
            err := Some(ReadFailed(e.name));
            return;
          }
          var data := e.contents.value;
          var doc := unmarshal(data);
          if doc.None? {
            err := Some(InvalidJson(e.name));
            return;
          }
          if ProxyConfigKey in doc.value {
            var config := decodeConfig(doc.value[ProxyConfigKey]);
            if config.None? {
              err := Some(InvalidProxyConfig(e.name));
              return;
            }
            configs := configs[name := config.value];
          }
          specs := specs[name := data];
        }
        i := i + 1;
      }
    }

    /** `List`: every loaded name once, in ascending order. */
    method List() returns (names: seq<string>)
      ensures StrictlySorted(names)
      ensures forall n :: n in names <==> n in specs
    {
      names := [];
      var rest := specs.Keys;
      while rest != {}
        invariant rest <= specs.Keys
        invariant StrictlySorted(names)
        invariant forall n :: n in names <==> n in specs && n !in rest
        decreases |rest|
      {
        var n :| n in rest;
        names := Insert(names, n);
        rest := rest - {n};
      }
    }

    method Get(service: string) returns (r: Result<string, StoreError>)
      ensures r.Success? <==> service in specs
      ensures r.Success? ==> r.value == specs[service]
      ensures r.Failure? ==> r.error == SpecNotFound(service)
    {
      if service in specs {
        r := Success(specs[service]);
      } else {
        r := Failure(SpecNotFound(service));
      }
    }

    /** `GetConfig` fails both for an unknown service and for a spec without `x-proxy-config`. */
    method GetConfig(service: string) returns (r: Result<ServiceConfig, StoreError>)
      ensures r.Success? <==> service in configs
      ensures r.Success? ==> r.value == configs[service]
      ensures r.Failure? ==> r.error == ConfigNotFound(service)
      ensures Valid() && service !in specs ==> r.Failure?
    {
      if service in configs {
        r := Success(configs[service]);
      } else {
        r := Failure(ConfigNotFound(service));
      }
    }
  }

  /** `NewFileSpecStore`: the directory check, then the load of its listing. */
  method NewFileSpecStore(
    specsDir: string, dirExists: bool, listing: Option<seq<DirEntry>>,
    unmarshal: string -> Option<map<string, Json>>, decodeConfig: Json -> Option<ServiceConfig>)
    returns (r: Result<FileSpecStore, LoadError>)
    ensures var spec := Load(specsDir, dirExists, listing, unmarshal, decodeConfig);
      && (r.Success? <==> spec.Success?)
      && (r.Failure? ==> r.error == spec.error)
      && (r.Success? ==>
            fresh(r.value) && r.value.Valid() && r.value.specsDir == specsDir
            && r.value.specs == spec.value.specs && r.value.configs == spec.value.configs)
  {
    if !dirExists {
      return Failure(DirectoryMissing(specsDir));
    }
    if listing.None? {
      return Failure(ReadDirFailed);
    }
    var store := new FileSpecStore(specsDir);
    var err := store.LoadSpecs(listing.value, unmarshal, decodeConfig);
    if err.Some? {
      return Failure(err.value);
    }
    return Success(store);
  }
}
