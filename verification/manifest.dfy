/**
 * Manifest documents as the YAML loader hands them over: nested Hashes,
 * Arrays and scalars. A Hash keeps its insertion order (OrderedMap).
 */
module Manifest {
  import opened Wrappers
  import opened OrderedMap

  /** The leaf values a manifest holds: nil, booleans, integers, strings. */
  datatype Scalar = Null | Bool(b: bool) | Int(i: int) | Str(s: string)

  datatype Value =
    | Leaf(scalar: Scalar)
    | List(items: seq<Value>)
    | Map(entries: Assoc<Value>)

  /** Why a normalisation raises: a value of the wrong kind (Ruby's
      NoMethodError or TypeError), or a missing key (Ruby's KeyError). */
  datatype Fault = WrongShape | KeyMissing

  /** Ruby truthiness of a lookup: a missing key, nil and false are falsy. */
  predicate Truthy(v: Option<Value>)
  {
    v.Some? && v.value != Leaf(Null) && v.value != Leaf(Bool(false))
  }

  /** Every Hash in the tree has distinct keys, as every Ruby Hash does. */
  ghost predicate WellFormed(v: Value)
    decreases v
  {
    match v
    case Leaf(_) => true
    case List(items) => forall i :: 0 <= i < |items| ==> WellFormed(items[i])
    case Map(es) =>
      UniqueKeys(es) && forall i :: 0 <= i < |es| ==> es[i].1 < v && WellFormed(es[i].1)
  }

  /**
   * Ruby `v.fetch(path[0], {}).fetch(path[1], {})...`: the value at `path`,
   * or None when some key on the way is missing (the chain then runs on
   * fresh empty defaults). Every value the chain calls `fetch` on must be a
   * Hash: anything else raises.
   */
  function Dig(v: Value, path: seq<string>): (r: Result<Option<Value>, Fault>)
    decreases path
  {
    if path == [] then Ok(Some(v))
    else
      match v
      case Map(es) =>
        (match Get(es, path[0])
         case None => Ok(None)
         case Some(child) => Dig(child, path[1..]))
      case _ => Err(WrongShape)
  }

  /** Stores `x` at `path`, where `Dig` finds a value; every Hash on the
      way keeps its other entries and its order. */
  function Replace(v: Value, path: seq<string>, x: Value): Value
    decreases path
  {
    if path == [] then x
    else
      match v
      case Map(es) =>
        (match Get(es, path[0])
         case None => v
         case Some(child) => Map(Put(es, path[0], Replace(child, path[1..], x))))
      case _ => v
  }

  /** Two paths that part ways at some position. */
  predicate Diverge(p: seq<string>, q: seq<string>)
  {
    p != [] && q != [] && (p[0] != q[0] || Diverge(p[1..], q[1..]))
  }

  /** After a replacement, the path leads to the new value. */
  lemma {:induction false} DigReplace(v: Value, path: seq<string>, x: Value)
    requires Dig(v, path).Ok? && Dig(v, path).value.Some?
    ensures Dig(Replace(v, path, x), path) == Ok(Some(x))
    decreases path
  {
    if path != [] {
      DigReplace(Get(v.entries, path[0]).value, path[1..], x);
    }
  }

  /** Storing at a path the value already found there changes nothing. */
  lemma {:induction false} ReplaceFound(v: Value, path: seq<string>, x: Value)
    requires Dig(v, path) == Ok(Some(x))
    ensures Replace(v, path, x) == v
    decreases path
  {
    if path != [] {
      var child := Get(v.entries, path[0]).value;
      ReplaceFound(child, path[1..], x);
      PutFound(v.entries, path[0], child);
    }
  }

  /** A replacement leaves every path that parts from it as it was. */
  lemma {:induction false} DigReplaceElsewhere(v: Value, path: seq<string>, other: seq<string>, x: Value)
    requires Dig(v, path).Ok? && Dig(v, path).value.Some?
    requires Diverge(path, other)
    ensures Dig(Replace(v, path, x), other) == Dig(v, other)
    decreases path
  {
    var child := Get(v.entries, path[0]).value;
    if path[0] == other[0] {
      DigReplaceElsewhere(child, path[1..], other[1..], x);
    }
  }
}
