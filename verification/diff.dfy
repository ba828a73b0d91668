/**
 * `Kucodiff.diff`: reads a base manifest and each other manifest, flattens
 * them, lists per pair the flat keys whose values differ (minus ignored
 * keys, sorted), and then reconciles the result against the differences
 * the caller expects: a label whose expected list matches drops out, a
 * label whose list does not keep only the unexpected or missing keys.
 */
module Kucodiff {
  import opened Wrappers
  import opened OrderedMap
  import opened Lists
  import opened Text
  import opened Manifest
  import opened Normalize
  import opened Flatten

  /** What loading a file yields: its YAML documents in order, or failure
      (the file cannot be read, or it is not YAML). */
  datatype Loaded = Documents(docs: seq<Value>) | LoadFailed

  /** Why `diff` raises. */
  datatype Error =
    | NeedTwoFiles                          // ArgumentError "Need 2+ files"
    | UnknownFormat(file: string)           // ArgumentError "unknown file format in <file>"
    | LoadError(file: string)               // File.read or the YAML parser raises
    | Malformed(file: string, fault: Fault) // a normalisation step raises

  /** The value of `ignore:`; `false` (no filter) is None. */
  type Ignore = Option<string -> bool>

  /** Reads one file into its flat Hash, or raises. */
  type Reader = string -> Result<Flat, Error>

  /** One reconciled answer: label to list of differing keys. */
  type Report = Assoc<seq<string>>

  // ---------------------------------------------------------------------
  // different_keys and xor

  /** Ruby `h[k]` on a flat Hash: nil when the key is missing. */
  function Lookup(a: Flat, k: string): (r: Scalar)
    ensures k !in Keys(a) ==> r == Null
    ensures k in Keys(a) ==> Get(a, k) == Some(r)
  {
    GetOr(a, k, Null)
  }

  /** Ruby `(a.keys + b.keys).uniq.select { |k| a[k] != b[k] }`. */
  function DifferentKeys(a: Flat, b: Flat): seq<string>
  {
    Filter(Uniq(Keys(a) + Keys(b)), k => Lookup(a, k) != Lookup(b, k))
  }

  /** The keys listed are exactly those of either Hash whose values differ
      (a missing key reads as nil), each once. */
  lemma DifferentKeysSpec(a: Flat, b: Flat)
    ensures forall k :: k in DifferentKeys(a, b) <==> (k in Keys(a) || k in Keys(b)) && Lookup(a, k) != Lookup(b, k)
    ensures Distinct(DifferentKeys(a, b))
  {
  }

  /** Comparing a with b lists the same keys as comparing b with a, and a
      Hash differs from itself nowhere. */
  lemma DifferentKeysSymmetric(a: Flat, b: Flat)
    ensures forall k :: k in DifferentKeys(a, b) <==> k in DifferentKeys(b, a)
    ensures DifferentKeys(a, a) == []
  {
    FilterNone(Uniq(Keys(a) + Keys(a)), k => Lookup(a, k) != Lookup(a, k));
  }

  /** Ruby `a + b - (a & b)`. */
  function Xor(a: seq<string>, b: seq<string>): (r: seq<string>)
    ensures forall x :: x in r <==> (x in a) != (x in b)
  {
    Without(a + b, Intersect(a, b))
  }

  /** The result keeps a's elements missing from b, then b's elements
      missing from a, with their order and repetitions. */
  lemma XorSplits(a: seq<string>, b: seq<string>)
    ensures Xor(a, b) == Without(a, b) + Without(b, a)
  {
    var both := Intersect(a, b);
    FilterAppend(a, b, x => x !in both);
    FilterAgree(a, x => x !in both, x => x !in b);
    FilterAgree(b, x => x !in both, x => x !in a);
  }

  /** The result is empty exactly when both lists hold the same elements;
      in particular `xor(x, x)` is empty. */
  lemma XorEmpty(a: seq<string>, b: seq<string>)
    ensures Xor(a, b) == [] <==> forall x :: x in a <==> x in b
    ensures Xor(a, a) == []
  {
    XorSplits(a, b);
    XorSplits(a, a);
    if forall x :: x in a <==> x in b {
      FilterNone(a, x => x !in b);
      FilterNone(b, x => x !in a);
    }
    FilterNone(a, x => x !in a);
  }

  /** Applying the same xor twice gives back the original elements. */
  lemma XorInvolution(a: seq<string>, b: seq<string>)
    ensures forall x :: x in Xor(Xor(a, b), b) <==> x in a
  {
  }

  // ---------------------------------------------------------------------
  // One pair of files

  /** Ruby `result.reject! { |k| k =~ ignore } if ignore`. */
  function Reject(s: seq<string>, ignore: Ignore): (r: seq<string>)
    ensures forall k :: k in r <==> k in s && !Ignored(ignore, k)
    ensures Distinct(s) ==> Distinct(r)
  {
    match ignore
    case None => s
    case Some(matches) => Filter(s, k => !matches(k))
  }

  predicate Ignored(ignore: Ignore, k: string)
  {
    ignore.Some? && ignore.value(k)
  }

  /** A filter that matches every key leaves nothing. */
  lemma RejectEverything(s: seq<string>, ignore: Ignore)
    requires ignore.Some? && forall k :: k in s ==> Ignored(ignore, k)
    ensures Reject(s, ignore) == []
  {
    var matches := ignore.value;
    FilterNone(s, k => !matches(k));
  }

  /** The entry stored for one pair: the differing keys, without the
      ignored ones, sorted. */
  function PairEntry(base: Flat, other: Flat, ignore: Ignore): seq<string>
  {
    Sort(Reject(DifferentKeys(base, other), ignore))
  }

  /** The entry is sorted and duplicate-free, and holds exactly the keys
      that differ between the two files and are not ignored. */
  lemma PairEntrySpec(base: Flat, other: Flat, ignore: Ignore)
    ensures Sorted(PairEntry(base, other, ignore))
    ensures Distinct(PairEntry(base, other, ignore))
    ensures forall k :: k in PairEntry(base, other, ignore) <==>
              && (k in Keys(base) || k in Keys(other))
              && Lookup(base, k) != Lookup(other, k)
              && !Ignored(ignore, k)
  {
    var kept := Reject(DifferentKeys(base, other), ignore);
    DifferentKeysSpec(base, other);
    DistinctPermutation(kept, PairEntry(base, other, ignore));
    forall k ensures k in PairEntry(base, other, ignore) <==> k in kept {
      assert k in PairEntry(base, other, ignore) <==> k in multiset(PairEntry(base, other, ignore));
    }
  }

  /** Ruby `"#{base}-#{other}"`. */
  function Label(base: string, other: string): string
  {
    base + "-" + other
  }

  /** With the base fixed, different files get different labels. */
  lemma LabelInjective(base: string, o1: string, o2: string)
    requires Label(base, o1) == Label(base, o2)
    ensures o1 == o2
  {
    assert o1 == Label(base, o1)[|base| + 1..];
    assert o2 == Label(base, o2)[|base| + 1..];
  }

  // ---------------------------------------------------------------------
  // read

  /** Ruby `.first` of the loaded stream: nil for an empty stream. */
  function First(docs: seq<Value>): Value
  {
    if docs == [] then Leaf(Null) else docs[0]
  }

  /** Ruby `read(file)`: the suffix check, loading, the two rewrites and
      flattening, with the error each step raises. */
  function ReadResult(file: string, load: string -> Loaded): Result<Flat, Error>
  {
    if !(EndsWith(file, ".yml") || EndsWith(file, ".yaml")) then Err(UnknownFormat(file))
    else
      match load(file)
      case LoadFailed => Err(LoadError(file))
      case Documents(docs) =>
        match ContainerEnvHashified(First(docs))
        case Err(f) => Err(Malformed(file, f))
        case Ok(d1) =>
          match RequiredEnvHashified(d1)
          case Err(f) => Err(Malformed(file, f))
          case Ok(d2) => Ok(FlatHash(d2))
  }

  /** `read` as its statement sequence runs; `ReadResult` is the same
      pipeline as a value. */
  method Read(file: string, load: string -> Loaded) returns (r: Result<Flat, Error>)
    ensures r == ReadResult(file, load)
  {
    if !(EndsWith(file, ".yml") || EndsWith(file, ".yaml")) {
      return Err(UnknownFormat(file));
    }
    var loaded := load(file);
    if loaded.LoadFailed? {
      return Err(LoadError(file));
    }
    var content := First(loaded.docs);
    var withEnv := HashifyContainerEnv(content);
    if withEnv.Err? {
      return Err(Malformed(file, withEnv.error));
    }
    var withRequired := RequiredEnvHashified(withEnv.value);
    if withRequired.Err? {
      return Err(Malformed(file, withRequired.error));
    }
    r := Ok(FlatHash(withRequired.value));
  }

  /** A file is refused for its name exactly when it ends in neither
      `.yml` nor `.yaml`; a file read successfully held a Hash as its first
      document, since every other kind raises in the container step. */
  lemma ReadSpec(file: string, load: string -> Loaded)
    ensures ReadResult(file, load) == Err(UnknownFormat(file)) <==> !(EndsWith(file, ".yml") || EndsWith(file, ".yaml"))
    ensures ReadResult(file, load).Ok? ==> load(file).Documents? && First(load(file).docs).Map?
  {
  }

  /** A document with neither containers nor annotations is flattened as
      it was loaded. */
  lemma ReadPlainDocument(file: string, load: string -> Loaded, es: Assoc<Value>)
    requires EndsWith(file, ".yml") || EndsWith(file, ".yaml")
    requires load(file).Documents? && First(load(file).docs) == Map(es)
    requires Get(es, "spec") == None
    ensures ReadResult(file, load) == Ok(FlatHash(Map(es)))
  {
    assert ContainerEnvHashified(Map(es)) == Ok(Map(es));
    assert RequiredEnvHashified(Map(es)) == Ok(Map(es));
  }

  // ---------------------------------------------------------------------
  // The per-pair loop

  /** What the loop stores for each other file, given its flat Hash. */
  type Entry = Flat -> seq<string>

  /** The entry `diff` stores: for every other file, the differing keys of
      the base and that file, ignore-filtered and sorted. */
  function Comparing(baseFlat: Flat, ignore: Ignore): (entry: Entry)
    ensures forall f :: Sorted(entry(f)) && Distinct(entry(f))
    ensures forall f, k :: k in entry(f) <==>
              && (k in Keys(baseFlat) || k in Keys(f))
              && Lookup(baseFlat, k) != Lookup(f, k)
              && !Ignored(ignore, k)
  {
    PairEntryEvery(baseFlat, ignore);
    f => PairEntry(baseFlat, f, ignore)
  }

  lemma PairEntryEvery(baseFlat: Flat, ignore: Ignore)
    ensures forall f :: Sorted(PairEntry(baseFlat, f, ignore)) && Distinct(PairEntry(baseFlat, f, ignore))
    ensures forall f, k :: k in PairEntry(baseFlat, f, ignore) <==>
              && (k in Keys(baseFlat) || k in Keys(f))
              && Lookup(baseFlat, k) != Lookup(f, k)
              && !Ignored(ignore, k)
  {
    forall f {
      PairEntrySpec(baseFlat, f, ignore);
    }
  }

  /** Ruby `files.each_with_object(all) { |other, all| all[label] = entry }`,
      for any entry computed from the other file's flat Hash. */
  function Pairs(base: string, others: seq<string>, read: Reader, entry: Entry, all: Report): Result<Report, Error>
    decreases others
  {
    if others == [] then Ok(all)
    else
      match read(others[0])
      case Err(e) => Err(e)
      case Ok(f) => Pairs(base, others[1..], read, entry, Put(all, Label(base, others[0]), entry(f)))
  }

  /** The loop finishes exactly when every other file reads ... */
  lemma {:induction false} PairsOk(base: string, others: seq<string>, read: Reader, entry: Entry, all: Report)
    ensures Pairs(base, others, read, entry, all).Ok? <==> forall j :: 0 <= j < |others| ==> read(others[j]).Ok?
    decreases others
  {
    if others != [] && read(others[0]).Ok? {
      var next := Put(all, Label(base, others[0]), entry(read(others[0]).value));
      PairsOk(base, others[1..], read, entry, next);
      assert forall j :: 0 < j < |others| ==> others[j] == others[1..][j - 1];
    }
  }

  /** ... and otherwise raises the error of the first one that does not. */
  lemma {:induction false} PairsFirstError(base: string, others: seq<string>, read: Reader, entry: Entry,
                                           all: Report, i: nat)
    requires i < |others| && read(others[i]).Err?
    requires forall j :: 0 <= j < i ==> read(others[j]).Ok?
    ensures Pairs(base, others, read, entry, all) == Err(read(others[i]).error)
    decreases others
  {
    if i > 0 {
      var next := Put(all, Label(base, others[0]), entry(read(others[0]).value));
      PairsFirstError(base, others[1..], read, entry, next, i - 1);
    }
  }

  /** After the loop, each other file's label holds that file's entry ... */
  lemma {:induction false} PairsHit(base: string, others: seq<string>, read: Reader, entry: Entry,
                                    all: Report, o: string)
    requires Pairs(base, others, read, entry, all).Ok?
    requires o in others
    ensures read(o).Ok?
    ensures Get(Pairs(base, others, read, entry, all).value, Label(base, o)) == Some(entry(read(o).value))
    decreases others
  {
    var next := Put(all, Label(base, others[0]), entry(read(others[0]).value));
    if o in others[1..] {
      PairsHit(base, others[1..], read, entry, next, o);
    } else {
      PairsMiss(base, others[1..], read, entry, next, o);
    }
  }

  /** ... and every other label is as it was. */
  lemma {:induction false} PairsMiss(base: string, others: seq<string>, read: Reader, entry: Entry,
                                     all: Report, o: string)
    requires Pairs(base, others, read, entry, all).Ok?
    requires o !in others
    ensures Get(Pairs(base, others, read, entry, all).value, Label(base, o)) == Get(all, Label(base, o))
    decreases others
  {
    if others != [] {
      var next := Put(all, Label(base, others[0]), entry(read(others[0]).value));
      if Label(base, o) == Label(base, others[0]) {
        LabelInjective(base, o, others[0]);
      }
      assert o !in others[1..];
      PairsMiss(base, others[1..], read, entry, next, o);
    }
  }

  /** The keys of the Hash the loop builds are the labels of the other
      files, added to what it started with ... */
  lemma {:induction false} PairsKeys(base: string, others: seq<string>, read: Reader, entry: Entry,
                                     all: Report, k: string)
    requires Pairs(base, others, read, entry, all).Ok?
    ensures k in Keys(Pairs(base, others, read, entry, all).value) <==>
              k in Keys(all) || exists o :: o in others && k == Label(base, o)
    decreases others
  {
    if others != [] {
      var next := Put(all, Label(base, others[0]), entry(read(others[0]).value));
      PairsKeys(base, others[1..], read, entry, next, k);
      if exists o :: o in others && k == Label(base, o) {
        var o :| o in others && k == Label(base, o);
        if o != others[0] {
          assert o in others[1..];
        }
      }
      if exists o :: o in others[1..] && k == Label(base, o) {
        var o :| o in others[1..] && k == Label(base, o);
        assert o in others;
      }
    }
  }

  /** ... each once. */
  lemma {:induction false} PairsUniqueKeys(base: string, others: seq<string>, read: Reader, entry: Entry, all: Report)
    requires Pairs(base, others, read, entry, all).Ok?
    requires UniqueKeys(all)
    ensures UniqueKeys(Pairs(base, others, read, entry, all).value)
    decreases others
  {
    if others != [] {
      var l0 := Label(base, others[0]);
      var e0 := entry(read(others[0]).value);
      PutKeepsUniqueKeys(all, l0, e0);
      PairsUniqueKeys(base, others[1..], read, entry, Put(all, l0, e0));
    }
  }

  // ---------------------------------------------------------------------
  // Reconciling with the expected differences

  /** Ruby `expected.each { |k, v| r = xor(diff[k] || [], v); r.empty? ? diff.delete(k) : diff[k] = r }`. */
  function Reconciled(diff: Report, expected: Report): Report
    decreases expected
  {
    if expected == [] then diff
    else
      var k := expected[0].0;
      var result := Xor(GetOr(diff, k, []), expected[0].1);
      Reconciled(if result == [] then Delete(diff, k) else Put(diff, k, result), expected[1..])
  }

  method Reconcile(diff: Report, expected: Report) returns (r: Report)
    ensures r == Reconciled(diff, expected)
  {
    r := diff;
    var i := 0;
    while i < |expected|
      invariant 0 <= i <= |expected|
      invariant Reconciled(diff, expected) == Reconciled(r, expected[i..])
    {
      assert expected[i..][1..] == expected[i + 1..];
      var k := expected[i].0;
      var result := Xor(GetOr(r, k, []), expected[i].1);
      if result == [] {
        r := Delete(r, k);
      } else {
        r := Put(r, k, result);
      }
      i := i + 1;
    }
  }

  /** A label the caller expects nothing about keeps its entry. A label with
      an expectation disappears when the expected list has the same keys
      as the actual one, and otherwise holds their xor: the unexpected
      differences and the expected ones that did not occur. */
  lemma {:induction false} ReconciledLabel(diff: Report, expected: Report, k: string)
    requires UniqueKeys(expected)
    ensures k !in Keys(expected) ==> Get(Reconciled(diff, expected), k) == Get(diff, k)
    ensures k in Keys(expected) ==>
              var result := Xor(GetOr(diff, k, []), Get(expected, k).value);
              Get(Reconciled(diff, expected), k) == if result == [] then None else Some(result)
    decreases expected
  {
    if expected != [] {
      var k0 := expected[0].0;
      var result := Xor(GetOr(diff, k0, []), expected[0].1);
      var next := if result == [] then Delete(diff, k0) else Put(diff, k0, result);
      assert Keys(expected) == [k0] + Keys(expected[1..]);
      assert UniqueKeys(expected[1..]) by {
        assert Keys(expected[1..]) == Keys(expected)[1..];
      }
      ReconciledLabel(next, expected[1..], k);
      if k == k0 {
        assert k0 !in Keys(expected[1..]);
      }
    }
  }

  /** Reconciling adds no label but the expected ones. */
  lemma {:induction false} ReconciledKeys(diff: Report, expected: Report, k: string)
    ensures k in Keys(Reconciled(diff, expected)) ==> k in Keys(diff) || k in Keys(expected)
    decreases expected
  {
    if expected != [] {
      var k0 := expected[0].0;
      var result := Xor(GetOr(diff, k0, []), expected[0].1);
      ReconciledKeys(if result == [] then Delete(diff, k0) else Put(diff, k0, result), expected[1..], k);
      assert Keys(expected) == [k0] + Keys(expected[1..]);
    }
  }

  /** Reconciling keeps the labels distinct. */
  lemma {:induction false} ReconciledUniqueKeys(diff: Report, expected: Report)
    requires UniqueKeys(diff)
    ensures UniqueKeys(Reconciled(diff, expected))
    decreases expected
  {
    if expected != [] {
      var k0 := expected[0].0;
      var result := Xor(GetOr(diff, k0, []), expected[0].1);
      if result != [] {
        PutKeepsUniqueKeys(diff, k0, result);
      }
      ReconciledUniqueKeys(if result == [] then Delete(diff, k0) else Put(diff, k0, result), expected[1..]);
    }
  }

  // ---------------------------------------------------------------------
  // diff

  /** Ruby `diff(files, ignore:, expected:)`, each file read with `read`. */
  function DiffWith(files: seq<string>, read: Reader, ignore: Ignore, expected: Report): Result<Report, Error>
  {
    if |files| < 2 then Err(NeedTwoFiles)
    else
      match read(files[0])
      case Err(e) => Err(e)
      case Ok(baseFlat) =>
        match Pairs(files[0], files[1..], read, Comparing(baseFlat, ignore), [])
        case Err(e) => Err(e)
        case Ok(d) => Ok(Reconciled(d, expected))
  }

  /** The reader `diff` uses: `read` with the given loader. It refuses a
      file for its name exactly when the name ends in neither `.yml` nor
      `.yaml`, and a file it reads had a Hash as its first document. */
  function Reading(load: string -> Loaded): (read: Reader)
    ensures forall file :: read(file) == Err(UnknownFormat(file)) <==> !(EndsWith(file, ".yml") || EndsWith(file, ".yaml"))
    ensures forall file :: read(file).Ok? ==> load(file).Documents? && First(load(file).docs).Map?
  {
    file => ReadResult(file, load)
  }

  /** The `each_with_object` loop over the other files. */
  method CollectPairs(baseFlat: Flat, base: string, others: seq<string>, load: string -> Loaded, ignore: Ignore)
    returns (r: Result<Report, Error>)
    ensures r == Pairs(base, others, Reading(load), Comparing(baseFlat, ignore), [])
  {
    var diff: Report := [];
    var i := 0;
    while i < |others|
      invariant 0 <= i <= |others|
      invariant Pairs(base, others, Reading(load), Comparing(baseFlat, ignore), [])
                == Pairs(base, others[i..], Reading(load), Comparing(baseFlat, ignore), diff)
    {
      assert others[i..][1..] == others[i + 1..];
      var other := Read(others[i], load);
      if other.Err? {
        return Err(other.error);
      }
      diff := Put(diff, Label(base, others[i]), PairEntry(baseFlat, other.value, ignore));
      i := i + 1;
    }
    r := Ok(diff);
  }

  method Diff(files: seq<string>, load: string -> Loaded, ignore: Ignore, expected: Report) returns (r: Result<Report, Error>)
    ensures r == DiffWith(files, Reading(load), ignore, expected)
    ensures |files| < 2 ==> r == Err(NeedTwoFiles)
  {
    if |files| < 2 {
      return Err(NeedTwoFiles);
    }
    var baseFlat := Read(files[0], load);
    if baseFlat.Err? {
      return Err(baseFlat.error);
    }
    var diff := CollectPairs(baseFlat.value, files[0], files[1..], load, ignore);
    if diff.Err? {
      return Err(diff.error);
    }
    var reconciled := Reconcile(diff.value, expected);
    r := Ok(reconciled);
  }

  /** `diff` answers exactly when at least two files are given and every
      one of them reads ... */
  lemma DiffOk(files: seq<string>, read: Reader, ignore: Ignore, expected: Report)
    ensures DiffWith(files, read, ignore, expected).Ok? <==>
              |files| >= 2 && forall i :: 0 <= i < |files| ==> read(files[i]).Ok?
  {
    if |files| >= 2 && read(files[0]).Ok? {
      var entry := Comparing(read(files[0]).value, ignore);
      assert DiffWith(files, read, ignore, expected).Ok? <==> Pairs(files[0], files[1..], read, entry, []).Ok?;
      PairsOk(files[0], files[1..], read, entry, []);
      AllReadTail(files, read);
    }
  }

  /** Every file reads exactly when the base and every other file do. */
  lemma AllReadTail(files: seq<string>, read: Reader)
    requires files != []
    ensures (forall i :: 0 <= i < |files| ==> read(files[i]).Ok?) <==>
              read(files[0]).Ok? && forall j :: 0 <= j < |files[1..]| ==> read(files[1..][j]).Ok?
  {
    assert forall i :: 0 < i < |files| ==> files[i] == files[1..][i - 1];
  }

  /** ... otherwise it raises the error of the first file, base first, that
      does not. */
  lemma DiffFirstError(files: seq<string>, read: Reader, ignore: Ignore, expected: Report, i: nat)
    requires 2 <= |files| && i < |files| && read(files[i]).Err?
    requires forall j :: 0 <= j < i ==> read(files[j]).Ok?
    ensures DiffWith(files, read, ignore, expected) == Err(read(files[i]).error)
  {
    if i > 0 {
      OthersFirstError(files, read, Comparing(read(files[0]).value, ignore), i);
    }
  }

  /** The per-pair loop over the files after the base raises the error of
      `files[i]` when that is the first file that does not read. */
  lemma OthersFirstError(files: seq<string>, read: Reader, entry: Entry, i: nat)
    requires 0 < i < |files| && read(files[i]).Err?
    requires forall j :: 0 <= j < i ==> read(files[j]).Ok?
    ensures Pairs(files[0], files[1..], read, entry, []) == Err(read(files[i]).error)
  {
    assert forall j :: 0 <= j < i - 1 ==> files[1..][j] == files[j + 1];
    PairsFirstError(files[0], files[1..], read, entry, [], i - 1);
  }

  /** What `diff` reports for the pair of the base and `files[j]`: the
      sorted, ignore-filtered keys that differ, unless the caller expected
      something for that label, in which case the label is dropped when
      the expectation matches and otherwise holds the xor. */
  lemma DiffReportsEachPair(files: seq<string>, read: Reader, ignore: Ignore, expected: Report, j: nat)
    requires DiffWith(files, read, ignore, expected).Ok?
    requires UniqueKeys(expected)
    requires 1 <= j < |files|
    ensures read(files[0]).Ok? && read(files[j]).Ok?
    ensures var pair := Label(files[0], files[j]);
      var actual := PairEntry(read(files[0]).value, read(files[j]).value, ignore);
      Get(DiffWith(files, read, ignore, expected).value, pair)
        == if pair !in Keys(expected) then Some(actual)
           else if Xor(actual, Get(expected, pair).value) == [] then None
           else Some(Xor(actual, Get(expected, pair).value))
  {
    var baseFlat := read(files[0]).value;
    var others := files[1..];
    var pair := Label(files[0], files[j]);
    assert files[j] == others[j - 1];
    PairsHit(files[0], others, read, Comparing(baseFlat, ignore), [], files[j]);
    var d := Pairs(files[0], others, read, Comparing(baseFlat, ignore), []).value;
    ReconciledLabel(d, expected, pair);
  }

  /** Every label `diff` reports belongs to an other file or to an
      expectation, and no label is reported twice. */
  lemma DiffLabels(files: seq<string>, read: Reader, ignore: Ignore, expected: Report, k: string)
    requires DiffWith(files, read, ignore, expected).Ok?
    ensures UniqueKeys(DiffWith(files, read, ignore, expected).value)
    ensures k in Keys(DiffWith(files, read, ignore, expected).value) ==>
              k in Keys(expected) || exists o :: o in files[1..] && k == Label(files[0], o)
  {
    var baseFlat := read(files[0]).value;
    var others := files[1..];
    PairsKeys(files[0], others, read, Comparing(baseFlat, ignore), [], k);
    PairsUniqueKeys(files[0], others, read, Comparing(baseFlat, ignore), []);
    var d := Pairs(files[0], others, read, Comparing(baseFlat, ignore), []).value;
    ReconciledUniqueKeys(d, expected);
    ReconciledKeys(d, expected, k);
  }
}
