/**
 * `flat_hash`: a nested tree becomes a flat Hash from dot-joined paths to
 * leaf values. Hash keys and zero-based Array positions are the path
 * segments; the recursion fills one shared accumulator, so a later leaf
 * whose joined path equals an earlier one overwrites its value in place.
 */
module Flatten {
  import opened Wrappers
  import opened OrderedMap
  import opened Text
  import opened Manifest

  /** A flat Hash: joined path to leaf value, in the order leaves are met. */
  type Flat = Assoc<Scalar>

  /** The key a leaf is stored under: the accumulated path, or "" for a
      document that is a bare scalar. */
  function BaseKey(base: Option<string>): string
  {
    match base
    case None => ""
    case Some(b) => b
  }

  /** Ruby `base ? "#{base}.#{k}" : k`. */
  function Step(base: Option<string>, k: string): Option<string>
  {
    match base
    case None => Some(k)
    case Some(b) => Some(b + "." + k)
  }

  /** Ruby `flat_hash(input, base, all)`. */
  function FlatInto(v: Value, base: Option<string>, all: Flat): Flat
    decreases v, 1
  {
    match v
    case Leaf(s) => Put(all, BaseKey(base), s)
    case List(items) => FlatItems(items, 0, base, all)
    case Map(es) => FlatEntries(es, base, all)
  }

  /** The Array branch: element `items[j]` sits at position `from + j`. */
  function FlatItems(items: seq<Value>, from: nat, base: Option<string>, all: Flat): Flat
    decreases items, 0
  {
    if items == [] then all
    else FlatItems(items[1..], from + 1, base, FlatInto(items[0], Step(base, NatToString(from)), all))
  }

  /** The Hash branch, in key order. */
  function FlatEntries(es: Assoc<Value>, base: Option<string>, all: Flat): Flat
    decreases es, 0
  {
    if es == [] then all
    else
      assert es[0] in es && es[0].1 < es[0];
      FlatEntries(es[1..], base, FlatInto(es[0].1, Step(base, es[0].0), all))
  }

  /** Ruby `flat_hash(input)`. */
  function FlatHash(v: Value): Flat
  {
    FlatInto(v, None, [])
  }

  // ---------------------------------------------------------------------
  // The reference definition: leaves and their paths

  datatype Segment = Key(name: string) | Index(pos: nat)

  type Path = seq<Segment>

  /** The value a path leads to, if it leads anywhere. */
  function At(v: Value, p: Path): Option<Value>
    decreases p
  {
    if p == [] then Some(v)
    else
      match (v, p[0])
      case (Map(es), Key(k)) =>
        (match Get(es, k)
         case None => None
         case Some(child) => At(child, p[1..]))
      case (List(items), Index(i)) =>
        if i < |items| then At(items[i], p[1..]) else None
      case _ => None
  }

  /** Each leaf of the tree with its path, in traversal order. */
  function Leaves(v: Value): seq<(Path, Scalar)>
    decreases v, 1
  {
    match v
    case Leaf(s) => [([], s)]
    case List(items) => ItemLeaves(items, 0)
    case Map(es) => EntryLeaves(es)
  }

  function Under(seg: Segment, ls: seq<(Path, Scalar)>): (r: seq<(Path, Scalar)>)
    ensures |r| == |ls|
    ensures forall i :: 0 <= i < |ls| ==> r[i] == ([seg] + ls[i].0, ls[i].1)
  {
    if ls == [] then [] else [([seg] + ls[0].0, ls[0].1)] + Under(seg, ls[1..])
  }

  function ItemLeaves(items: seq<Value>, from: nat): seq<(Path, Scalar)>
    decreases items, 0
  {
    if items == [] then []
    else Under(Index(from), Leaves(items[0])) + ItemLeaves(items[1..], from + 1)
  }

  function EntryLeaves(es: Assoc<Value>): seq<(Path, Scalar)>
    decreases es, 0
  {
    if es == [] then []
    else
      assert es[0] in es && es[0].1 < es[0];
      Under(Key(es[0].0), Leaves(es[0].1)) + EntryLeaves(es[1..])
  }

  function RenderSegment(seg: Segment): string
  {
    match seg
    case Key(k) => k
    case Index(i) => NatToString(i)
  }

  /** Segments joined by ".". */
  function Join(ss: seq<string>): string
  {
    if ss == [] then ""
    else if |ss| == 1 then ss[0]
    else ss[0] + "." + Join(ss[1..])
  }

  function Render(p: Path): seq<string>
  {
    if p == [] then [] else [RenderSegment(p[0])] + Render(p[1..])
  }

  /** The flat key of a leaf path. */
  function PathKey(p: Path): string
  {
    Join(Render(p))
  }

  // ---------------------------------------------------------------------
  // Leaves and paths agree

  lemma {:induction false} UnderMember(seg: Segment, ls: seq<(Path, Scalar)>, p: Path, s: Scalar)
    requires (p, s) in Under(seg, ls)
    ensures p != [] && p[0] == seg && (p[1..], s) in ls
  {
    var i :| 0 <= i < |Under(seg, ls)| && Under(seg, ls)[i] == (p, s);
    assert ls[i] == (p[1..], s);
  }

  /** A leaf listed for an Array sits under one of its positions. */
  lemma {:induction false} ItemLeavesMember(items: seq<Value>, from: nat, p: Path, s: Scalar) returns (j: nat)
    requires (p, s) in ItemLeaves(items, from)
    ensures j < |items| && p != [] && p[0] == Index(from + j) && (p[1..], s) in Leaves(items[j])
    decreases items
  {
    if (p, s) in Under(Index(from), Leaves(items[0])) {
      UnderMember(Index(from), Leaves(items[0]), p, s);
      j := 0;
    } else {
      var j' := ItemLeavesMember(items[1..], from + 1, p, s);
      j := j' + 1;
    }
  }

  /** A leaf listed for a Hash sits under one of its keys. */
  lemma {:induction false} EntryLeavesMember(es: Assoc<Value>, p: Path, s: Scalar) returns (j: nat)
    requires (p, s) in EntryLeaves(es)
    ensures j < |es| && p != [] && p[0] == Key(es[j].0) && (p[1..], s) in Leaves(es[j].1)
    decreases es
  {
    if (p, s) in Under(Key(es[0].0), Leaves(es[0].1)) {
      UnderMember(Key(es[0].0), Leaves(es[0].1), p, s);
      j := 0;
    } else {
      var j' := EntryLeavesMember(es[1..], p, s);
      j := j' + 1;
    }
  }

  lemma {:induction false} ItemLeavesInclude(items: seq<Value>, from: nat, j: nat, q: Path, s: Scalar)
    requires j < |items| && (q, s) in Leaves(items[j])
    ensures ([Index(from + j)] + q, s) in ItemLeaves(items, from)
    decreases j
  {
    if j == 0 {
      var i :| 0 <= i < |Leaves(items[0])| && Leaves(items[0])[i] == (q, s);
      assert Under(Index(from), Leaves(items[0]))[i] == ([Index(from)] + q, s);
    } else {
      ItemLeavesInclude(items[1..], from + 1, j - 1, q, s);
    }
  }

  lemma {:induction false} EntryLeavesInclude(es: Assoc<Value>, j: nat, q: Path, s: Scalar)
    requires j < |es| && (q, s) in Leaves(es[j].1)
    ensures ([Key(es[j].0)] + q, s) in EntryLeaves(es)
    decreases j
  {
    if j == 0 {
      var i :| 0 <= i < |Leaves(es[0].1)| && Leaves(es[0].1)[i] == (q, s);
      assert Under(Key(es[0].0), Leaves(es[0].1))[i] == ([Key(es[0].0)] + q, s);
    } else {
      EntryLeavesInclude(es[1..], j - 1, q, s);
    }
  }

  /** Every listed leaf is found at its path. */
  lemma {:induction false} LeavesAreAt(v: Value, p: Path, s: Scalar)
    requires WellFormed(v)
    requires (p, s) in Leaves(v)
    ensures At(v, p) == Some(Leaf(s))
    decreases v
  {
    match v
    case Leaf(_) =>
    case List(items) =>
      var j := ItemLeavesMember(items, 0, p, s);
      LeavesAreAt(items[j], p[1..], s);
    case Map(es) =>
      var j := EntryLeavesMember(es, p, s);
      GetEntry(es, j);
      assert es[j].1 < v;
      LeavesAreAt(es[j].1, p[1..], s);
  }

  /** Every path that ends at a scalar is listed, once per path. */
  lemma {:induction false} AtLeafIsListed(v: Value, p: Path, s: Scalar)
    requires At(v, p) == Some(Leaf(s))
    ensures (p, s) in Leaves(v)
    decreases p
  {
    if p != [] {
      match (v, p[0])
      case (Map(es), Key(k)) =>
        var child := Get(es, k).value;
        GetFound(es, k);
        var j :| 0 <= j < |es| && es[j] == (k, child);
        AtLeafIsListed(child, p[1..], s);
        EntryLeavesInclude(es, j, p[1..], s);
        assert [Key(es[j].0)] + p[1..] == p;
      case (List(items), Index(i)) =>
        AtLeafIsListed(items[i], p[1..], s);
        ItemLeavesInclude(items, 0, i, p[1..], s);
        assert [Index(0 + i)] + p[1..] == p;
    }
  }

  // ---------------------------------------------------------------------
  // flat_hash stores each leaf under its joined path

  /** The key a leaf with path segments `ss` gets below `base`. */
  function Extend(base: Option<string>, ss: seq<string>): string
  {
    match base
    case None => Join(ss)
    case Some(b) => if ss == [] then b else b + "." + Join(ss)
  }

  function Keyed(base: Option<string>, ls: seq<(Path, Scalar)>): (r: seq<(string, Scalar)>)
    ensures |r| == |ls|
    ensures forall i :: 0 <= i < |ls| ==> r[i] == (Extend(base, Render(ls[i].0)), ls[i].1)
  {
    if ls == [] then [] else [(Extend(base, Render(ls[0].0)), ls[0].1)] + Keyed(base, ls[1..])
  }

  lemma ExtendStep(base: Option<string>, r: string, ss: seq<string>)
    ensures Extend(base, [r] + ss) == Extend(Step(base, r), ss)
  {
    assert ([r] + ss)[1..] == ss;
  }

  lemma KeyedUnder(base: Option<string>, seg: Segment, ls: seq<(Path, Scalar)>)
    ensures Keyed(base, Under(seg, ls)) == Keyed(Step(base, RenderSegment(seg)), ls)
  {
    forall i | 0 <= i < |ls|
      ensures Keyed(base, Under(seg, ls))[i] == Keyed(Step(base, RenderSegment(seg)), ls)[i]
    {
      assert Render([seg] + ls[i].0) == [RenderSegment(seg)] + Render(ls[i].0) by {
        assert ([seg] + ls[i].0)[1..] == ls[i].0;
      }
      ExtendStep(base, RenderSegment(seg), Render(ls[i].0));
    }
  }

  lemma KeyedAppend(base: Option<string>, xs: seq<(Path, Scalar)>, ys: seq<(Path, Scalar)>)
    ensures Keyed(base, xs + ys) == Keyed(base, xs) + Keyed(base, ys)
  {
  }

  /** `flat_hash(v, base, all)` stores the leaves of `v`, in order, under
      their paths extended below `base`. */
  lemma {:induction false} FlatIntoRecordsLeaves(v: Value, base: Option<string>, all: Flat)
    ensures FlatInto(v, base, all) == PutAll(all, Keyed(base, Leaves(v)))
    decreases v, 1
  {
    match v
    case Leaf(s) =>
      assert Keyed(base, Leaves(v)) == [(BaseKey(base), s)];
    case List(items) => FlatItemsRecordsLeaves(items, 0, base, all);
    case Map(es) => FlatEntriesRecordsLeaves(es, base, all);
  }

  lemma {:induction false} FlatItemsRecordsLeaves(items: seq<Value>, from: nat, base: Option<string>, all: Flat)
    ensures FlatItems(items, from, base, all) == PutAll(all, Keyed(base, ItemLeaves(items, from)))
    decreases items, 0
  {
    if items != [] {
      var seg := Index(from);
      var head := Under(seg, Leaves(items[0]));
      var tail := ItemLeaves(items[1..], from + 1);
      FlatIntoRecordsLeaves(items[0], Step(base, NatToString(from)), all);
      KeyedUnder(base, seg, Leaves(items[0]));
      var mid := FlatInto(items[0], Step(base, NatToString(from)), all);
      FlatItemsRecordsLeaves(items[1..], from + 1, base, mid);
      KeyedAppend(base, head, tail);
      PutAllAppend(all, Keyed(base, head), Keyed(base, tail));
    }
  }

  lemma {:induction false} FlatEntriesRecordsLeaves(es: Assoc<Value>, base: Option<string>, all: Flat)
    ensures FlatEntries(es, base, all) == PutAll(all, Keyed(base, EntryLeaves(es)))
    decreases es, 0
  {
    if es != [] {
      assert es[0] in es && es[0].1 < es[0];
      var seg := Key(es[0].0);
      var head := Under(seg, Leaves(es[0].1));
      var tail := EntryLeaves(es[1..]);
      FlatIntoRecordsLeaves(es[0].1, Step(base, es[0].0), all);
      KeyedUnder(base, seg, Leaves(es[0].1));
      var mid := FlatInto(es[0].1, Step(base, es[0].0), all);
      FlatEntriesRecordsLeaves(es[1..], base, mid);
      KeyedAppend(base, head, tail);
      PutAllAppend(all, Keyed(base, head), Keyed(base, tail));
    }
  }

  /** The last leaf of `ls` whose path renders to `k`. */
  lemma {:induction false} LastLeafWithKey(ls: seq<(Path, Scalar)>, k: string) returns (i: nat)
    requires exists i :: 0 <= i < |ls| && PathKey(ls[i].0) == k
    ensures i < |ls| && PathKey(ls[i].0) == k
    ensures forall j :: i < j < |ls| ==> PathKey(ls[j].0) != k
    decreases |ls|
  {
    if PathKey(ls[|ls| - 1].0) == k {
      i := |ls| - 1;
    } else {
      var i0 :| 0 <= i0 < |ls| && PathKey(ls[i0].0) == k;
      assert ls[..|ls| - 1][i0] == ls[i0];
      i := LastLeafWithKey(ls[..|ls| - 1], k);
      assert ls[i] == ls[..|ls| - 1][i];
      forall j | i < j < |ls| ensures PathKey(ls[j].0) != k {
        if j < |ls| - 1 {
          assert ls[j] == ls[..|ls| - 1][j];
        }
      }
    }
  }

  /** No two leaves render to the same flat key (a key holding "." can
      make a Hash key and a nested path collide). */
  ghost predicate CollisionFree(v: Value)
  {
    forall i, j :: 0 <= i < j < |Leaves(v)| ==> PathKey(Leaves(v)[i].0) != PathKey(Leaves(v)[j].0)
  }

  /** The flat keys are exactly the joined paths of the leaves, each once. */
  lemma FlatHashKeys(v: Value)
    ensures UniqueKeys(FlatHash(v))
    ensures forall k :: k in Keys(FlatHash(v)) <==> exists i :: 0 <= i < |Leaves(v)| && PathKey(Leaves(v)[i].0) == k
  {
    var kvs := Keyed(None, Leaves(v));
    FlatIntoRecordsLeaves(v, None, []);
    PutAllKeys([], kvs, "");
    forall k ensures k in Keys(FlatHash(v)) <==> exists i :: 0 <= i < |Leaves(v)| && PathKey(Leaves(v)[i].0) == k {
      PutAllKeys([], kvs, k);
    }
  }

  /** A leaf that no later leaf collides with keeps its value under its key. */
  lemma FlatHashValue(v: Value, i: nat)
    requires i < |Leaves(v)|
    requires forall j :: i < j < |Leaves(v)| ==> PathKey(Leaves(v)[j].0) != PathKey(Leaves(v)[i].0)
    ensures Get(FlatHash(v), PathKey(Leaves(v)[i].0)) == Some(Leaves(v)[i].1)
  {
    FlatIntoRecordsLeaves(v, None, []);
    PutAllHit([], Keyed(None, Leaves(v)), i);
  }

  /** Every scalar of the tree is in the flat Hash under its joined path,
      when no two paths join to the same key. */
  lemma FlatHashFindsEveryLeaf(v: Value, p: Path, s: Scalar)
    requires CollisionFree(v)
    requires At(v, p) == Some(Leaf(s))
    ensures Get(FlatHash(v), PathKey(p)) == Some(s)
  {
    AtLeafIsListed(v, p, s);
    var i :| 0 <= i < |Leaves(v)| && Leaves(v)[i] == (p, s);
    FlatHashValue(v, i);
  }

  /** Every entry of the flat Hash is a scalar of the tree, found at a path
      that joins to the entry's key; empty Hashes and Arrays add nothing. */
  lemma FlatHashEntryIsLeaf(v: Value, k: string) returns (p: Path, s: Scalar)
    requires WellFormed(v)
    requires k in Keys(FlatHash(v))
    ensures PathKey(p) == k && At(v, p) == Some(Leaf(s))
    ensures Get(FlatHash(v), k) == Some(s)
  {
    FlatHashKeys(v);
    var i := LastLeafWithKey(Leaves(v), k);
    p, s := Leaves(v)[i].0, Leaves(v)[i].1;
    FlatHashValue(v, i);
    LeavesAreAt(v, p, s);
  }

  lemma FlatSingleEntry(k: string, c: Value, base: Option<string>, all: Flat)
    ensures FlatInto(Map([(k, c)]), base, all) == FlatInto(c, Step(base, k), all)
  {
    var es := [(k, c)];
    var inner := FlatInto(c, Step(base, k), all);
    assert es[1..] == [];
    assert FlatEntries(es[1..], base, inner) == inner;
    assert FlatEntries(es, base, all) == FlatEntries(es[1..], base, inner);
  }

  /** A two-element Array flattens its elements under positions 0 and 1. */
  lemma FlatTwoItems(a: Value, b: Value, base: Option<string>, all: Flat)
    ensures FlatInto(List([a, b]), base, all) == FlatInto(b, Step(base, "1"), FlatInto(a, Step(base, "0"), all))
  {
    var items := [a, b];
    assert NatToString(0) == "0" && NatToString(1) == "1";
    var first := FlatInto(a, Step(base, "0"), all);
    assert items[1..] == [b] && items[1..][1..] == [];
    assert FlatItems(items, 0, base, all) == FlatItems(items[1..], 1, base, first);
    assert FlatItems(items[1..], 1, base, first) == FlatItems([], 2, base, FlatInto(b, Step(base, "1"), first));
  }

  /** Empty Hashes and Arrays add no entry. */
  lemma EmptyAddsNothing(base: Option<string>, all: Flat)
    ensures FlatInto(Map([]), base, all) == all
    ensures FlatInto(List([]), base, all) == all
    ensures Leaves(Map([])) == [] && Leaves(List([])) == []
  {
  }

  /** spec/kucodiff_spec.rb: "flattens an empty hash" and "flattens a simple hash". */
  lemma FlatHashSimpleExamples()
    ensures FlatHash(Map([])) == []
    ensures FlatHash(Map([("foo", Leaf(Str("bar")))])) == [("foo", Str("bar"))]
  {
    FlatSingleEntry("foo", Leaf(Str("bar")), None, []);
  }

  /** spec/kucodiff_spec.rb: "flattens a nested hash". */
  lemma FlatHashNestedExample()
    ensures FlatHash(Map([("foo", Map([("bar", Map([("baz", Leaf(Str("boing")))]))]))]))
         == [("foo.bar.baz", Str("boing"))]
  {
    var boing := Leaf(Str("boing"));
    assert "foo.bar" == "foo" + "." + "bar";
    assert Step(Some("foo"), "bar") == Some("foo.bar");
    assert "foo.bar.baz" == "foo.bar" + "." + "baz";
    assert Step(Some("foo.bar"), "baz") == Some("foo.bar.baz");
    FlatSingleEntry("foo", Map([("bar", Map([("baz", boing)]))]), None, []);
    FlatSingleEntry("bar", Map([("baz", boing)]), Some("foo"), []);
    FlatSingleEntry("baz", boing, Some("foo.bar"), []);
  }

  /** A one-key Hash of a scalar stores it under the joined key. */
  lemma FlatOneLeaf(k: string, x: Scalar, b: string, all: Flat)
    ensures FlatInto(Map([(k, Leaf(x))]), Some(b), all) == Put(all, b + "." + k, x)
  {
    FlatSingleEntry(k, Leaf(x), Some(b), all);
  }

  lemma PositionKeys(k: string, k0: string, k1: string)
    ensures k + "." + "0" + "." + k0 == k + ".0." + k0
    ensures k + "." + "1" + "." + k1 == k + ".1." + k1
    ensures k + ".0." + k0 != k + ".1." + k1
  {
    assert (k + ".0." + k0)[|k| + 1] != (k + ".1." + k1)[|k| + 1];
  }

  /** A one-key Hash holding an Array of two one-key Hashes of scalars. */
  lemma FlatArrayOfPairs(k: string, k0: string, x: Scalar, k1: string, y: Scalar)
    ensures FlatHash(Map([(k, List([Map([(k0, Leaf(x))]), Map([(k1, Leaf(y))])]))]))
         == [(k + ".0." + k0, x), (k + ".1." + k1, y)]
  {
    var first := Map([(k0, Leaf(x))]);
    var second := Map([(k1, Leaf(y))]);
    FlatSingleEntry(k, List([first, second]), None, []);
    FlatTwoItems(first, second, Some(k), []);
    PositionKeys(k, k0, k1);
    FlatOneLeaf(k0, x, k + "." + "0", []);
    FlatOneLeaf(k1, y, k + "." + "1", [(k + ".0." + k0, x)]);
    PutSecond(k + ".0." + k0, x, k + ".1." + k1, y);
    var afterFirst := FlatInto(first, Some(k + "." + "0"), []);
    assert afterFirst == [(k + ".0." + k0, x)];
    assert FlatInto(second, Some(k + "." + "1"), afterFirst) == [(k + ".0." + k0, x), (k + ".1." + k1, y)];
    assert FlatHash(Map([(k, List([first, second]))])) == FlatInto(second, Some(k + "." + "1"), afterFirst);
  }

  /** spec/kucodiff_spec.rb: "flattens an array". */
  lemma FlatHashArrayExample()
    ensures FlatHash(Map([("foo", List([Map([("bar", Leaf(Str("baz")))]), Map([("baz", Leaf(Str("boing")))])]))]))
         == [("foo.0.bar", Str("baz")), ("foo.1.baz", Str("boing"))]
  {
    FlatArrayOfPairs("foo", "bar", Str("baz"), "baz", Str("boing"));
    assert "foo" + ".0." + "bar" == "foo.0.bar" && "foo" + ".1." + "baz" == "foo.1.baz";
  }
}
