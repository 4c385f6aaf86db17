/**
 * The schema-driven body form: the starting value a schema gives, the flat
 * list of leaf fields it is edited through, reads and writes of a value by dot
 * path, and the check of one field's value against its schema.
 */
module SchemaForm {
  import opened Wrappers
  import opened Dicts
  import opened Text
  import opened JsonValues
  import opened OpenApi

  // ---------------------------------------------------------------------------
  // buildDefaultFromSchema

  /** `buildDefaultFromSchema`; `None` is a null or undefined schema. */
  function BuildDefault(s: Option<Schema>): (r: Json)
    ensures s.None? || s.value.typ == "" ==> r == Obj([])
    ensures s.Some? && s.value.typ == "object" ==> r.Obj?
    ensures s.Some? && s.value.typ == "object" && s.value.properties.None? ==> r == Obj([])
    ensures s.Some? && s.value.typ == "array" ==> r == Arr([])
    // For scalar types this agrees with `generateDefaultValue`, which differs
    // only where it honours a `default` on arrays and objects or has no type.
    ensures s.Some? && s.value.typ in {"string", "number", "integer", "boolean"} ==> r == GenerateDefaultValue(s.value)
    ensures s.Some? && s.value.typ !in {"", "object", "array", "string", "number", "integer", "boolean"} ==> r == Null
    decreases s, 1
  {
    if s.None? || s.value.typ == "" then Obj([])
    else
      var t := s.value.typ;
      if t == "object" then
        if s.value.properties.None? then Obj([]) else Obj(DefaultsFrom(s.value, 0, []))
      else if t == "array" then Arr([])
      else if t == "string" then s.value.defaultValue.GetOr(Str(""))
      else if t == "number" || t == "integer" then s.value.defaultValue.GetOr(Num(0))
      else if t == "boolean" then s.value.defaultValue.GetOr(Bool(false))
      else Null
  }

  /** The `forEach` filling `obj[key]` with the defaults of the properties from the `i`-th on. */
  function DefaultsFrom(s: Schema, i: nat, acc: Dict<Json>): Dict<Json>
    requires s.properties.Some? && i <= |s.properties.value.entries|
    decreases Some(s), 0, |s.properties.value.entries| - i
  {
    var props := s.properties.value.entries;
    if i == |props| then acc
    else
      assert props[i] in props;
      DefaultsFrom(s, i + 1, Put(acc, props[i].0, BuildDefault(props[i].1)))
  }

  lemma {:induction false} DefaultsFromLookup(s: Schema, i: nat, acc: Dict<Json>, k: string)
    requires s.properties.Some? && i <= |s.properties.value.entries| && UniqueKeys(s.properties.value.entries)
    ensures var props := s.properties.value.entries;
      Lookup(DefaultsFrom(s, i, acc), k) ==
        if k in KeySet(props[i..]) then Some(BuildDefault(Lookup(props[i..], k).value)) else Lookup(acc, k)
    decreases |s.properties.value.entries| - i
  {
    var props := s.properties.value.entries;
    if i < |props| {
      KeySetCons(props[i..]);
      assert props[i..][0] == props[i] && props[i..][1..] == props[i + 1..];
      var acc' := Put(acc, props[i].0, BuildDefault(props[i].1));
      DefaultsFromLookup(s, i + 1, acc', k);
      UniqueKeysDrop(props, i);
    }
  }

  lemma KeysAppend(a: seq<string>, k: string, b: seq<string>)
    ensures a + [k] + b == a + ([k] + b)
  {
  }

  /** One step of the defaults loop: a fresh key goes last and the keys still to come stay fresh. */
  lemma PutFresh<V>(props: Dict<Option<Schema>>, i: nat, acc: Dict<V>, v: V)
    requires UniqueKeys(props) && i < |props|
    requires forall j :: i <= j < |props| ==> props[j].0 !in KeySet(acc)
    ensures Keys(Put(acc, props[i].0, v)) == Keys(acc) + [props[i].0]
    ensures forall j :: i + 1 <= j < |props| ==> props[j].0 !in KeySet(Put(acc, props[i].0, v))
    ensures Keys(props[i..]) == [props[i].0] + Keys(props[i + 1..])
  {
    var k := props[i].0;
    PutKeys(acc, k, v);
    forall j | i + 1 <= j < |props| ensures props[j].0 !in KeySet(Put(acc, k, v)) {
      assert props[j].0 != k;
      assert Lookup(Put(acc, k, v), props[j].0) == Lookup(acc, props[j].0);
    }
    assert props[i..] == [props[i]] + props[i + 1..];
    ConsKeys(props[i], props[i + 1..]);
  }

  lemma {:induction false} DefaultsFromKeys(s: Schema, i: nat, acc: Dict<Json>)
    requires s.properties.Some? && i <= |s.properties.value.entries| && UniqueKeys(s.properties.value.entries)
    requires forall j :: i <= j < |s.properties.value.entries| ==> s.properties.value.entries[j].0 !in KeySet(acc)
    ensures Keys(DefaultsFrom(s, i, acc)) == Keys(acc) + Keys(s.properties.value.entries[i..])
    decreases |s.properties.value.entries| - i
  {
    var props := s.properties.value.entries;
    if i == |props| {
      assert props[i..] == [];
      assert Keys(acc) + Keys(props[i..]) == Keys(acc);
    } else {
      var k := props[i].0;
      var v := BuildDefault(props[i].1);
      PutFresh(props, i, acc, v);
      DefaultsFromKeys(s, i + 1, Put(acc, k, v));
      KeysAppend(Keys(acc), k, Keys(props[i + 1..]));
    }
  }

  /**
   * An object schema with properties gives an object whose keys are exactly
   * the declared property names, in order, each holding its own default.
   */
  lemma BuildDefaultObject(s: Schema, k: string)
    requires s.typ == "object" && s.properties.Some? && UniqueKeys(s.properties.value.entries)
    ensures BuildDefault(Some(s)).Obj?
    ensures Keys(BuildDefault(Some(s)).props) == Keys(s.properties.value.entries)
    ensures GetProp(BuildDefault(Some(s)), k) ==
      match Lookup(s.properties.value.entries, k)
      case None => None
      case Some(p) => Some(BuildDefault(p))
  {
    DefaultsFromKeys(s, 0, []);
    DefaultsFromLookup(s, 0, [], k);
    assert s.properties.value.entries[0..] == s.properties.value.entries;
    assert Keys<Json>([]) + Keys(s.properties.value.entries) == Keys(s.properties.value.entries);
  }

  // ---------------------------------------------------------------------------
  // getSchemaFields

  /** One editable leaf of the form. */
  datatype Field = Field(path: string, schema: Schema, required: bool, fieldLabel: string)

  /** `prefix ? prefix + "." + key : key`. */
  function Prefixed(prefix: string, key: string): (r: string)
    ensures prefix == "" ==> r == key
    ensures prefix != "" ==> r == prefix + "." + key
  {
    if prefix == "" then key else prefix + "." + key
  }

  predicate HasFields(s: Schema) {
    s.typ == "object" && s.properties.Some?
  }

  /** `getSchemaFields(schema, prefix)`; `None` is a null or undefined schema. */
  function GetSchemaFields(s: Option<Schema>, prefix: string): (r: seq<Field>)
    ensures s.None? || !HasFields(s.value) ==> r == []
    ensures forall f :: f in r ==> !HasFields(f.schema)
  {
    if s.None? then [] else FieldsOf(s.value, prefix)
  }

  function FieldsOf(s: Schema, prefix: string): (r: seq<Field>)
    ensures !HasFields(s) ==> r == []
    ensures forall f :: f in r ==> !HasFields(f.schema)
    decreases s, 1
  {
    if HasFields(s) then FieldsFrom(s, 0, prefix) else []
  }

  /** The fields of the properties from the `i`-th on, in order. */
  function FieldsFrom(s: Schema, i: nat, prefix: string): (r: seq<Field>)
    requires HasFields(s) && i <= |s.properties.value.entries|
    ensures forall f :: f in r ==> !HasFields(f.schema)
    decreases s, 0, |s.properties.value.entries| - i + 1
  {
    if i == |s.properties.value.entries| then [] else EntryFields(s, i, prefix) + FieldsFrom(s, i + 1, prefix)
  }

  /**
   * The fields of the `i`-th property: a null property gives nothing, a nested
   * object with properties is inlined, anything else is one leaf labelled with
   * its own key.
   */
  function EntryFields(s: Schema, i: nat, prefix: string): (r: seq<Field>)
    requires HasFields(s) && i < |s.properties.value.entries|
    ensures forall f :: f in r ==> !HasFields(f.schema)
    decreases s, 0, 0
  {
    var (key, p) := s.properties.value.entries[i];
    assert s.properties.value.entries[i] in s.properties.value.entries;
    match p
    case None => []
    case Some(c) =>
      var path := Prefixed(prefix, key);
      if HasFields(c) then FieldsOf(c, path)
      else [Field(path, c, key in s.required.GetOr([]), key)]
  }

  lemma {:induction false} FieldsFromMember(s: Schema, i: nat, prefix: string, f: Field) returns (j: nat)
    requires HasFields(s) && i <= |s.properties.value.entries|
    requires f in FieldsFrom(s, i, prefix)
    ensures i <= j < |s.properties.value.entries| && f in EntryFields(s, j, prefix)
    decreases |s.properties.value.entries| - i
  {
    if f in EntryFields(s, i, prefix) {
      j := i;
    } else {
      j := FieldsFromMember(s, i + 1, prefix, f);
    }
  }

  /** Property names the dot-path scheme can tell apart: unique, non-empty, without '.'. */
  predicate WellKeyed(s: Schema)
    decreases s
  {
    HasFields(s) ==>
      && UniqueKeys(s.properties.value.entries)
      && forall e :: e in s.properties.value.entries ==>
        && e.0 != "" && '.' !in e.0
        && (e.1.Some? ==> WellKeyed(e.1.value))
  }

  /** The schema reached by following property names from `s`. */
  function SchemaAt(s: Schema, keys: seq<string>): Option<Schema>
    decreases |keys|
  {
    if keys == [] then Some(s)
    else if !HasFields(s) then None
    else
      var p := Lookup(s.properties.value.entries, keys[0]);
      if p.Some? && p.value.Some? then SchemaAt(p.value.value, keys[1..]) else None
  }

  /** The property names along a field's path, and what they lead to. */
  predicate FieldAt(s: Schema, prefix: string, f: Field, keys: seq<string>) {
    && |keys| >= 1
    && (forall i :: 0 <= i < |keys| ==> '.' !in keys[i])
    && f.path == Prefixed(prefix, Join(keys, '.'))
    && f.fieldLabel == keys[|keys| - 1]
    && GetIn(Some(BuildDefault(Some(s))), keys).Some?
    && SchemaAt(s, keys) == Some(f.schema)
    && SchemaAt(s, keys[..|keys| - 1]).Some?
    && f.required == (f.fieldLabel in SchemaAt(s, keys[..|keys| - 1]).value.required.GetOr([]))
  }

  /** The dotted path of `[k] + sub` under `prefix` is that of `sub` under `prefix.k`. */
  lemma JoinedPath(prefix: string, k: string, sub: seq<string>)
    requires k != "" && sub != []
    ensures Prefixed(prefix, Join([k] + sub, '.')) == Prefixed(Prefixed(prefix, k), Join(sub, '.'))
  {
    var tail := Join(sub, '.');
    JoinCons(k, sub, '.');
    assert Join([k] + sub, '.') == k + "." + tail;
    if prefix == "" {
      assert Prefixed(prefix, k) == k;
    } else {
      assert Prefixed(prefix, k) == prefix + "." + k;
      assert prefix + "." + (k + "." + tail) == prefix + "." + k + "." + tail;
    }
  }

  /** Following `k` first leads into the property schema `c`. */
  lemma SchemaAtCons(s: Schema, k: string, c: Schema, rest: seq<string>)
    requires HasFields(s) && Lookup(s.properties.value.entries, k) == Some(Some(c))
    ensures SchemaAt(s, [k] + rest) == SchemaAt(c, rest)
  {
    assert ([k] + rest)[0] == k && ([k] + rest)[1..] == rest;
  }

  /** A field found at `sub` inside property `k` is found at `[k] + sub` from the parent. */
  lemma {:induction false} FieldAtNested(s: Schema, prefix: string, k: string, c: Schema, f: Field, sub: seq<string>)
    requires HasFields(s) && k != "" && '.' !in k
    requires Lookup(s.properties.value.entries, k) == Some(Some(c))
    requires GetProp(BuildDefault(Some(s)), k) == Some(BuildDefault(Some(c)))
    requires FieldAt(c, Prefixed(prefix, k), f, sub)
    ensures FieldAt(s, prefix, f, [k] + sub)
  {
    NestedKeys(k, sub);
    JoinedPath(prefix, k, sub);
    GetInCons(BuildDefault(Some(s)), k, sub);
    SchemaAtCons(s, k, c, sub);
    SchemaAtCons(s, k, c, sub[..|sub| - 1]);
  }

  /** The property names of a nested path: dot-free, ending where `sub` ends, with the parent path in front. */
  lemma NestedKeys(k: string, sub: seq<string>)
    requires '.' !in k && |sub| >= 1 && forall i :: 0 <= i < |sub| ==> '.' !in sub[i]
    ensures var keys := [k] + sub;
      && (forall i :: 0 <= i < |keys| ==> '.' !in keys[i])
      && keys[|keys| - 1] == sub[|sub| - 1]
      && keys[..|keys| - 1] == [k] + sub[..|sub| - 1]
  {
    var keys := [k] + sub;
    forall i | 0 <= i < |keys| ensures '.' !in keys[i] {
      if i > 0 { assert keys[i] == sub[i - 1]; }
    }
  }

  /** Reading `[k] + rest` from a value that has a property `k` is reading `rest` from that property. */
  lemma GetInCons(x: Json, k: string, rest: seq<string>)
    requires GetProp(x, k).Some?
    ensures GetIn(Some(x), [k] + rest) == GetIn(GetProp(x, k), rest)
  {
    assert ([k] + rest)[0] == k && ([k] + rest)[1..] == rest;
  }

  lemma {:induction false} FieldsOfReadBack(s: Schema, prefix: string, f: Field) returns (keys: seq<string>)
    requires WellKeyed(s) && f in FieldsOf(s, prefix)
    ensures FieldAt(s, prefix, f, keys)
    decreases s
  {
    var props := s.properties.value.entries;
    var i := FieldsFromMember(s, 0, prefix, f);
    var k := props[i].0;
    var c := props[i].1.value;
    assert props[i] in props;
    LookupUnique(props, i);
    BuildDefaultObject(s, k);
    var path := Prefixed(prefix, k);
    if HasFields(c) {
      var sub := FieldsOfReadBack(c, path, f);
      keys := [k] + sub;
      FieldAtNested(s, prefix, k, c, f, sub);
    } else {
      keys := [k];
      assert keys[..0] == [];
    }
  }

  /**
   * Every field of a schema reads back a defined value from the schema's own
   * default object, under the property names its path spells; its `required`
   * flag is membership of its label in the parent schema's `required` list.
   */
  lemma FieldReadBack(s: Schema, f: Field) returns (keys: seq<string>)
    requires WellKeyed(s) && f in GetSchemaFields(Some(s), "")
    ensures Split(f.path, '.') == keys
    ensures ValueAt(BuildDefault(Some(s)), f.path).Some?
    ensures SchemaAt(s, keys) == Some(f.schema) && f.fieldLabel == keys[|keys| - 1]
    ensures SchemaAt(s, keys[..|keys| - 1]).Some?
    ensures f.required == (f.fieldLabel in SchemaAt(s, keys[..|keys| - 1]).value.required.GetOr([]))
  {
    keys := FieldsOfReadBack(s, "", f);
    SplitJoin(keys, '.');
  }

  /** A key path that leads through the schema to a property that is not itself inlined. */
  predicate LeafPath(s: Schema, keys: seq<string>) {
    |keys| >= 1 && SchemaAt(s, keys).Some? && !HasFields(SchemaAt(s, keys).value)
  }

  /** A field of the `i`-th property is a field of the properties from any `j <= i` on. */
  lemma {:induction false} EntryInFieldsFrom(s: Schema, j: nat, i: nat, prefix: string, f: Field)
    requires HasFields(s) && j <= i < |s.properties.value.entries|
    requires f in EntryFields(s, i, prefix)
    ensures f in FieldsFrom(s, j, prefix)
    decreases i - j
  {
    if j < i {
      EntryInFieldsFrom(s, j + 1, i, prefix, f);
    }
  }

  /** Every leaf path of the schema has its field, emitted under that path. */
  lemma {:induction false} LeafPathField(s: Schema, prefix: string, keys: seq<string>) returns (f: Field)
    requires WellKeyed(s) && LeafPath(s, keys)
    ensures f in FieldsOf(s, prefix) && FieldAt(s, prefix, f, keys)
    decreases s
  {
    var props := s.properties.value.entries;
    var k := keys[0];
    var c := Lookup(props, k).value.value;
    var i :| 0 <= i < |props| && props[i] == (k, Some(c));
    assert props[i] in props;
    LookupUnique(props, i);
    BuildDefaultObject(s, k);
    var path := Prefixed(prefix, k);
    if |keys| == 1 {
      SchemaAtCons(s, k, c, []);
      assert keys == [k] + [] && !HasFields(c);
      f := Field(path, c, k in s.required.GetOr([]), k);
      assert keys[..0] == [];
      assert EntryFields(s, i, prefix) == [f];
    } else {
      var sub := keys[1..];
      assert keys == [k] + sub;
      SchemaAtCons(s, k, c, sub);
      f := LeafPathField(c, path, sub);
      FieldAtNested(s, prefix, k, c, f, sub);
      assert EntryFields(s, i, prefix) == FieldsOf(c, path);
    }
    EntryInFieldsFrom(s, 0, i, prefix, f);
  }

  /**
   * The form's fields are exactly the schema's leaf paths: a dot path is
   * emitted if and only if its keys lead through nested objects with
   * properties to a non-null property that has none.
   */
  lemma LeafPathsAreFields(s: Schema, keys: seq<string>)
    requires WellKeyed(s)
    ensures LeafPath(s, keys) <==> exists f :: f in GetSchemaFields(Some(s), "") && Split(f.path, '.') == keys
  {
    if LeafPath(s, keys) {
      var f := LeafPathField(s, "", keys);
      SplitJoin(keys, '.');
      assert f in GetSchemaFields(Some(s), "") && Split(f.path, '.') == keys;
    }
    if f :| f in GetSchemaFields(Some(s), "") && Split(f.path, '.') == keys {
      var ks := FieldReadBack(s, f);
    }
  }

  /** The properties from `m` on give the fields of those before `n`, then those from `n` on. */
  lemma {:induction false} FieldsFromSplit(s: Schema, m: nat, n: nat, prefix: string) returns (a: seq<Field>)
    requires HasFields(s) && m <= n <= |s.properties.value.entries|
    ensures FieldsFrom(s, m, prefix) == a + FieldsFrom(s, n, prefix)
    decreases n - m
  {
    if m == n {
      a := [];
    } else {
      var rest := FieldsFromSplit(s, m + 1, n, prefix);
      a := EntryFields(s, m, prefix) + rest;
    }
  }

  /** The fields of an earlier property come before those of a later one (`Object.entries` order). */
  lemma FieldsInPropertyOrder(s: Schema, prefix: string, i: nat, j: nat, x: nat, y: nat) returns (a: nat, b: nat)
    requires HasFields(s) && i < j < |s.properties.value.entries|
    requires x < |EntryFields(s, i, prefix)| && y < |EntryFields(s, j, prefix)|
    ensures a < b < |FieldsOf(s, prefix)|
    ensures FieldsOf(s, prefix)[a] == EntryFields(s, i, prefix)[x]
    ensures FieldsOf(s, prefix)[b] == EntryFields(s, j, prefix)[y]
  {
    var before := FieldsFromSplit(s, 0, i, prefix);
    var between := FieldsFromSplit(s, i + 1, j, prefix);
    var ei, ej := EntryFields(s, i, prefix), EntryFields(s, j, prefix);
    var all := before + (ei + (between + (ej + FieldsFrom(s, j + 1, prefix))));
    assert FieldsOf(s, prefix) == all;
    a := |before| + x;
    b := |before| + |ei| + |between| + y;
    assert all[a] == ei[x];
    assert all[b] == ej[y];
  }

  // ---------------------------------------------------------------------------
  // getValueByPath / setValueByPath

  /** Reading `current[key]` key by key, giving up on null or undefined. */
  function GetIn(current: Option<Json>, keys: seq<string>): Option<Json>
    decreases |keys|
  {
    if keys == [] then current
    else if current.None? || current == Some(Null) then None
    else GetIn(GetProp(current.value, keys[0]), keys[1..])
  }

  /** What `getValueByPath(obj, path)` gives. */
  function ValueAt(obj: Json, path: string): Option<Json> {
    GetIn(Some(obj), Split(path, '.'))
  }

  /** `getValueByPath`. */
  method GetValueByPath(obj: Json, path: string) returns (r: Option<Json>)
    ensures r == ValueAt(obj, path)
  {
    var keys := Split(path, '.');
    var current := Some(obj);
    for i := 0 to |keys|
      invariant GetIn(current, keys[i..]) == ValueAt(obj, path)
    {
      if current.None? || current == Some(Null) {
        return None;
      }
      assert keys[i..][1..] == keys[i + 1..];
      current := GetProp(current.value, keys[i]);
    }
    assert keys[|keys|..] == [];
    r := current;
  }

  /** The own properties `{ ...obj }` copies; a string's characters are not modelled. */
  function Spread(obj: Json): (d: Dict<Json>)
    ensures forall k :: Lookup(d, k) == GetProp(obj, k)
  {
    if IsObject(obj) then obj.props else []
  }

  /** The container walked into at `key`: an existing object or array, else a fresh `{}`. */
  function Child(c: Json, key: string): (r: Json)
    ensures IsObject(r)
    ensures r == (if GetProp(c, key).Some? && IsObject(GetProp(c, key).value) then GetProp(c, key).value else Obj([]))
  {
    match GetProp(c, key)
    case Some(v) => if IsObject(v) then v else Obj([])
    case None => Obj([])
  }

  /** The container the walk reaches after following `keys`. */
  function Reached(c: Json, keys: seq<string>): (r: Json)
    requires IsObject(c)
    ensures IsObject(r)
    decreases |keys|
  {
    if keys == [] then c else Reached(Child(c, keys[0]), keys[1..])
  }

  /** The write of `setValueByPath` below container `c`: assign the last key, or delete it for `''`. */
  function SetIn(c: Json, keys: seq<string>, v: Json): (r: Json)
    requires IsObject(c) && |keys| >= 1
    ensures r.Arr? == c.Arr? && r.Obj? == c.Obj?
    decreases |keys|
  {
    if |keys| == 1 then
      if v == Str("") then DeleteProp(c, keys[0]) else SetProp(c, keys[0], v)
    else SetProp(c, keys[0], SetIn(Child(c, keys[0]), keys[1..], v))
  }

  /** What `setValueByPath(obj, path, value)` returns: a fresh top-level object, written along the path. */
  function WithValueAt(obj: Json, path: string, v: Json): (r: Json)
    ensures r.Obj?
    // Top-level keys other than the path's first segment keep the input's values.
    ensures forall k :: k != Split(path, '.')[0] ==> GetProp(r, k) == GetProp(obj, k)
  {
    SetIn(Obj(Spread(obj)), Split(path, '.'), v)
  }

  /**
   * `setValueByPath`.  The walk records the container it stands in at each
   * step; the writes the source makes through shared references are made by
   * rebuilding the containers from the leaf back to the top.
   */
  method SetValueByPath(obj: Json, path: string, value: Json) returns (result: Json)
    ensures result == WithValueAt(obj, path, value)
  {
    var keys := Split(path, '.');
    result := SetAlong(Obj(Spread(obj)), keys, value);
  }

  /** The walk and the writes of `setValueByPath` below the copied top-level object `root`. */
  method SetAlong(root: Json, keys: seq<string>, value: Json) returns (result: Json)
    requires IsObject(root) && |keys| >= 1
    ensures result == SetIn(root, keys, value)
  {
    var walked := [root];
    var i := 0;
    while i < |keys| - 1
      invariant 0 <= i <= |keys| - 1
      invariant |walked| == i + 1 && walked[0] == root
      invariant forall j :: 0 <= j <= i ==> IsObject(walked[j])
      invariant forall j :: 0 <= j < i ==> walked[j + 1] == Child(walked[j], keys[j])
    {
      walked := walked + [Child(walked[i], keys[i])];
      i := i + 1;
    }
    var lastKey := keys[|keys| - 1];
    var node;
    if value == Str("") {
      node := DeleteProp(walked[i], lastKey);
    } else {
      node := SetProp(walked[i], lastKey, value);
    }
    assert keys[i..] == [lastKey];
    while i > 0
      invariant 0 <= i <= |keys| - 1
      invariant node == SetIn(walked[i], keys[i..], value)
    {
      i := i - 1;
      assert IsObject(walked[i]) && walked[i + 1] == Child(walked[i], keys[i]);
      assert keys[i..][0] == keys[i] && keys[i..][1..] == keys[i + 1..];
      node := SetProp(walked[i], keys[i], node);
    }
    result := node;
  }

  lemma {:induction false} GetSetIn(c: Json, keys: seq<string>, v: Json)
    requires IsObject(c) && |keys| >= 1
    ensures GetIn(Some(SetIn(c, keys, v)), keys) == if v == Str("") then None else Some(v)
    decreases |keys|
  {
    if |keys| > 1 {
      GetSetIn(Child(c, keys[0]), keys[1..], v);
    }
  }

  /** Reading back a written path gives the value written, or undefined after writing `''`. */
  lemma GetAfterSet(obj: Json, path: string, v: Json)
    ensures ValueAt(WithValueAt(obj, path, v), path) == if v == Str("") then None else Some(v)
  {
    GetSetIn(Obj(Spread(obj)), Split(path, '.'), v);
  }

  lemma {:induction false} SetInAlongPath(c: Json, keys: seq<string>, v: Json, i: nat, k: string)
    requires IsObject(c) && i < |keys| && k != keys[i]
    ensures var node := GetIn(Some(SetIn(c, keys, v)), keys[..i]);
      && node.Some? && IsObject(node.value)
      && node.value.Arr? == Reached(c, keys[..i]).Arr?
      && GetProp(node.value, k) == GetProp(Reached(c, keys[..i]), k)
    decreases |keys|
  {
    if i > 0 {
      SetInAlongPath(Child(c, keys[0]), keys[1..], v, i - 1, k);
      assert keys[..i][0] == keys[0] && keys[..i][1..] == keys[1..][..i - 1];
    } else {
      assert keys[..i] == [];
    }
  }

  /**
   * Along the written path, every container of the result is the container the
   * walk reached (kept when it was an object or array, a fresh `{}` otherwise),
   * the same kind of container, with all its other keys unchanged.
   */
  lemma ContainersAlongPath(obj: Json, path: string, v: Json, i: nat, k: string)
    requires i < |Split(path, '.')| && k != Split(path, '.')[i]
    ensures var keys := Split(path, '.');
      var node := GetIn(Some(WithValueAt(obj, path, v)), keys[..i]);
      && node.Some?
      && node.value.Arr? == Reached(Obj(Spread(obj)), keys[..i]).Arr?
      && GetProp(node.value, k) == GetProp(Reached(Obj(Spread(obj)), keys[..i]), k)
  {
    SetInAlongPath(Obj(Spread(obj)), Split(path, '.'), v, i, k);
  }

  lemma {:induction false} ReachedStep(c: Json, keys: seq<string>, k: string)
    requires IsObject(c)
    ensures Reached(c, keys + [k]) == Child(Reached(c, keys), k)
    decreases |keys|
  {
    if keys == [] {
      assert ([] + [k])[1..] == [];
    } else {
      assert (keys + [k])[1..] == keys[1..] + [k];
      ReachedStep(Child(c, keys[0]), keys[1..], k);
    }
  }

  lemma {:induction false} SetInTwice(c: Json, keys: seq<string>, v: Json)
    requires IsObject(c) && |keys| >= 1
    ensures SetIn(SetIn(c, keys, v), keys, v) == SetIn(c, keys, v)
    decreases |keys|
  {
    var r := SetIn(c, keys, v);
    if |keys| == 1 {
      if v == Str("") {
        RemoveRemove(c.props, keys[0]);
      } else {
        PutPut(c.props, keys[0], v, v);
      }
    } else {
      var x := SetIn(Child(c, keys[0]), keys[1..], v);
      assert Child(r, keys[0]) == x;
      SetInTwice(Child(c, keys[0]), keys[1..], v);
      PutPut(c.props, keys[0], x, x);
    }
  }

  /** Writing the same value at the same path twice is writing it once. */
  lemma SetValueIdempotent(obj: Json, path: string, v: Json)
    ensures WithValueAt(WithValueAt(obj, path, v), path, v) == WithValueAt(obj, path, v)
  {
    var r := WithValueAt(obj, path, v);
    assert Obj(Spread(r)) == r;
    SetInTwice(Obj(Spread(obj)), Split(path, '.'), v);
  }

  // ---------------------------------------------------------------------------
  // validateSchemaValue

  /** `value === '' || value === undefined || value === null`. */
  predicate Empty(value: Option<Json>) {
    value == None || value == Some(Str("")) || value == Some(Null)
  }

  /**
   * `value.length`: the UTF-16 length of a string and the element count of an
   * array; other values have no `length` here.
   */
  function JsLength(v: Json): Option<int> {
    match v
    case Str(s) => Some(Utf16Length(s))
    case Arr(props) => Some(|props|)
    case _ => None
  }

  predicate ShorterThan(v: Json, n: Option<int>) {
    n.Some? && JsLength(v).Some? && JsLength(v).value < n.value
  }

  predicate LongerThan(v: Json, n: Option<int>) {
    n.Some? && JsLength(v).Some? && JsLength(v).value > n.value
  }

  /** `schema.pattern && !new RegExp(schema.pattern).test(value)`. */
  predicate MismatchesPattern(s: Schema, v: Json, test: (string, Json) -> bool) {
    s.pattern.Some? && s.pattern.value != "" && !test(s.pattern.value, v)
  }

  /**
   * `validateSchemaValue`.  `toNumber` is `Number(...)` and `test(pattern, v)`
   * is `new RegExp(pattern).test(v)`.
   */
  function ValidateSchemaValue(
    s: Schema, value: Option<Json>, toNumber: Json -> JsNumber, test: (string, Json) -> bool)
    : (r: Option<FieldError>)
    ensures r == Some(FieldRequired) <==> s.required.Some? && Empty(value)
    ensures Empty(value) && s.required.None? ==> r == None
    ensures r.Some? && r.value != FieldRequired ==> !Empty(value)
    ensures s.typ !in {"number", "integer", "string"} ==> r == None || r == Some(FieldRequired)
    ensures r.Some? && (r.value.NotANumber? || r.value.BelowMinimum? || r.value.AboveMaximum?) ==>
      s.typ in {"number", "integer"}
    ensures r.Some? && r.value.NotAnInteger? ==> s.typ == "integer" && !IsInteger(toNumber(value.value))
    ensures r.Some? && r.value.TooShort? ==> s.typ == "string" && ShorterThan(value.value, s.minLength)
    ensures r.Some? && r.value.TooLong? ==>
      s.typ == "string" && LongerThan(value.value, s.maxLength) && !ShorterThan(value.value, s.minLength)
    ensures r.Some? && r.value.NotOneOf? ==>
      && s.typ == "string" && s.enumValues == Some(r.value.options)
      && !Includes(r.value.options, value.value)
      && !ShorterThan(value.value, s.minLength) && !LongerThan(value.value, s.maxLength)
    // Conversely, each failing check is reported, the first in source order winning.
    ensures (!Empty(value) && Numeric(s) && toNumber(value.value).NaN?) ==> r == Some(NotANumber)
    ensures (&& !Empty(value) && Numeric(s) && !toNumber(value.value).NaN?
             && s.minimum.Some? && Below(toNumber(value.value), s.minimum.value))
      ==> r == Some(BelowMinimum(s.minimum.value))
    ensures (&& !Empty(value) && Numeric(s) && !toNumber(value.value).NaN?
             && !(s.minimum.Some? && Below(toNumber(value.value), s.minimum.value))
             && s.maximum.Some? && Above(toNumber(value.value), s.maximum.value))
      ==> r == Some(AboveMaximum(s.maximum.value))
    ensures (!Empty(value) && Numeric(s) && InRange(s, toNumber(value.value)))
      ==> r == (if s.typ == "integer" && !IsInteger(toNumber(value.value)) then Some(NotAnInteger) else None)
    ensures (!Empty(value) && s.typ == "string" && ShorterThan(value.value, s.minLength))
      ==> r == Some(TooShort(s.minLength.value))
    ensures (&& !Empty(value) && s.typ == "string" && !ShorterThan(value.value, s.minLength)
             && LongerThan(value.value, s.maxLength))
      ==> r == Some(TooLong(s.maxLength.value))
    ensures (&& !Empty(value) && s.typ == "string" && !ShorterThan(value.value, s.minLength)
             && !LongerThan(value.value, s.maxLength) && MismatchesPattern(s, value.value, test))
      ==> r == Some(PatternMismatch)
    ensures (&& !Empty(value) && s.typ == "string" && !ShorterThan(value.value, s.minLength)
             && !LongerThan(value.value, s.maxLength) && !MismatchesPattern(s, value.value, test))
      ==> r == (if s.enumValues.Some? && !Includes(s.enumValues.value, value.value)
                then Some(NotOneOf(s.enumValues.value)) else None)
  {
    if s.required.Some? && Empty(value) then Some(FieldRequired)
    else if Empty(value) then None
    else
      var v := value.value;
      var num := toNumber(v);
      var isNumeric := Numeric(s);
      if isNumeric && num == NaN then Some(NotANumber)
      else if isNumeric && s.minimum.Some? && Below(num, s.minimum.value) then Some(BelowMinimum(s.minimum.value))
      else if isNumeric && s.maximum.Some? && Above(num, s.maximum.value) then Some(AboveMaximum(s.maximum.value))
      else if s.typ == "integer" && !IsInteger(num) then Some(NotAnInteger)
      else if s.typ != "string" then None
      else if ShorterThan(v, s.minLength) then Some(TooShort(s.minLength.value))
      else if LongerThan(v, s.maxLength) then Some(TooLong(s.maxLength.value))
      else if MismatchesPattern(s, v, test) then Some(PatternMismatch)
      else if s.enumValues.Some? && !Includes(s.enumValues.value, v) then Some(NotOneOf(s.enumValues.value))
      else None
  }
}
