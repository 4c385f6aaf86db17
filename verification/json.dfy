/**
 * JSON-like values as the front end handles them.  Numbers are integers
 * (floating point is not modelled).  An array is held like an object, as a
 * list of its own properties keyed by index strings ("0", "1", ...), so that
 * property reads, writes and deletes behave on arrays as they do on objects and
 * a deleted element is simply a missing key.
 */
module JsonValues {
  import opened Wrappers
  import opened Dicts

  datatype Json =
    | Null
    | Bool(b: bool)
    | Num(n: int)
    | Str(s: string)
    | Arr(props: Dict<Json>)
    | Obj(props: Dict<Json>)

  /** `typeof v === 'object' && v !== null`: objects and arrays. */
  predicate IsObject(j: Json) {
    j.Arr? || j.Obj?
  }

  /** JavaScript truthiness of a possibly undefined value. */
  predicate Truthy(v: Option<Json>) {
    match v
    case None => false
    case Some(Null) => false
    case Some(Bool(b)) => b
    case Some(Num(n)) => n != 0
    case Some(Str(s)) => s != ""
    case Some(Arr(_)) => true
    case Some(Obj(_)) => true
  }

  /**
   * `j[k]`: an own property of an object or array.  Primitives are given no
   * properties here (a string's index and `length` properties and every
   * prototype member are outside the model).
   */
  function GetProp(j: Json, k: string): (r: Option<Json>)
    ensures !IsObject(j) ==> r == None
  {
    if IsObject(j) then Lookup(j.props, k) else None
  }

  /** `j[k] = v` on an object or array: it stays the same kind of container. */
  function SetProp(j: Json, k: string, v: Json): (r: Json)
    requires IsObject(j)
    ensures r.Arr? == j.Arr? && r.Obj? == j.Obj?
    ensures GetProp(r, k) == Some(v)
    ensures forall k' :: k' != k ==> GetProp(r, k') == GetProp(j, k')
  {
    j.(props := Put(j.props, k, v))
  }

  /** `delete j[k]` on an object or array. */
  function DeleteProp(j: Json, k: string): (r: Json)
    requires IsObject(j)
    ensures r.Arr? == j.Arr? && r.Obj? == j.Obj?
    ensures GetProp(r, k) == None
    ensures forall k' :: k' != k ==> GetProp(r, k') == GetProp(j, k')
  {
    j.(props := Remove(j.props, k))
  }
}
