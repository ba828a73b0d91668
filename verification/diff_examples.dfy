/**
 * The scenarios of spec/kucodiff_spec.rb's `.diff` examples, for any
 * loader that hands over the documents those examples write to disk.
 */
module DiffExamples {
  import opened Wrappers
  import opened OrderedMap
  import opened Lists
  import opened Text
  import opened Manifest
  import opened Flatten
  import opened Kucodiff

  /** "raises on too few files". */
  lemma TooFewFilesExample(read: Reader, ignore: Ignore, expected: Report)
    ensures DiffWith(["xxxx"], read, ignore, expected) == Err(NeedTwoFiles)
  {
  }

  /** "raises on unknown format": the base is refused before anything is
      loaded. */
  lemma UnknownFormatExample(load: string -> Loaded, ignore: Ignore, expected: Report)
    ensures DiffWith(["a.json", "b.json"], Reading(load), ignore, expected) == Err(UnknownFormat("a.json"))
  {
    var f := "a.json";
    assert f[2] == 'j';
    assert !EndsWith(f, ".yml");
    assert !EndsWith(f, ".yaml");
  }

  function Doc(key: string, n: int): Value
  {
    Map([(key, Leaf(Int(n)))])
  }

  lemma ReadSingleKey(file: string, load: string -> Loaded, key: string, n: int)
    requires EndsWith(file, ".yml")
    requires load(file).Documents? && |load(file).docs| > 0 && load(file).docs[0] == Doc(key, n)
    requires key != "spec"
    ensures ReadResult(file, load) == Ok([(key, Int(n))])
  {
    ReadPlainDocument(file, load, [(key, Leaf(Int(n)))]);
    FlatSingleEntry(key, Leaf(Int(n)), None, []);
  }

  lemma PairExample()
    ensures PairEntry([("foo", Int(1))], [("foo", Int(2))], None) == ["foo"]
  {
    var a: Flat := [("foo", Int(1))];
    var b: Flat := [("foo", Int(2))];
    assert Keys(a) + Keys(b) == ["foo", "foo"];
    assert Uniq(["foo", "foo"]) == ["foo"];
    assert DifferentKeys(a, b) == ["foo"];
  }

  lemma OnePair(read: Reader, ignore: Ignore, a: Flat, b: Flat)
    requires read("b.yml") == Ok(b)
    ensures Pairs("a.yml", ["b.yml"], read, Comparing(a, ignore), []) == Ok([("a.yml-b.yml", PairEntry(a, b, ignore))])
  {
    assert Label("a.yml", "b.yml") == "a.yml-b.yml";
    assert ["b.yml"][1..] == [];
  }

  /** Two files and no expectations: one label, holding the pair's entry. */
  lemma TwoFiles(read: Reader, ignore: Ignore, a: Flat, b: Flat)
    requires read("a.yml") == Ok(a) && read("b.yml") == Ok(b)
    ensures DiffWith(["a.yml", "b.yml"], read, ignore, []) == Ok([("a.yml-b.yml", PairEntry(a, b, ignore))])
  {
    OnePair(read, ignore, a, b);
    assert ["a.yml", "b.yml"][1..] == ["b.yml"];
  }

  /** "reads the first object when multiple exist": only the first of
      a.yml's two documents is compared, so the pair reports `foo`. */
  lemma FirstDocumentExample(load: string -> Loaded)
    requires load("a.yml") == Documents([Doc("foo", 1), Doc("bar", 1)])
    requires load("b.yml") == Documents([Doc("foo", 2)])
    ensures DiffWith(["a.yml", "b.yml"], Reading(load), None, []) == Ok([("a.yml-b.yml", ["foo"])])
  {
    assert "a.yml"[1..] == ".yml" && "b.yml"[1..] == ".yml";
    ReadSingleKey("a.yml", load, "foo", 1);
    ReadSingleKey("b.yml", load, "foo", 2);
    PairExample();
    TwoFiles(Reading(load), None, [("foo", Int(1))], [("foo", Int(2))]);
  }
}

/**
 * spec/kucodiff_spec.rb "can ignore": two manifests whose only container
 * runs a different command; with every `.command.` key ignored the pair
 * reports nothing.
 */
module IgnoreExample {
  import opened Wrappers
  import opened OrderedMap
  import opened Lists
  import opened Text
  import opened Manifest
  import opened Normalize
  import opened NormalizeExamples
  import opened Flatten
  import opened Kucodiff
  import opened DiffExamples

  const Prefix: string := "spec.template.spec.containers.0.command"
  const Key0: string := "spec.template.spec.containers.0.command.0"
  const Key1: string := "spec.template.spec.containers.0.command.1"

  function Command(x: string, y: string): Value
  {
    Map([("command", List([Leaf(Str(x)), Leaf(Str(y))]))])
  }

  lemma CommandKeysIgnored()
    ensures Contains(Key0, ".command.") && Contains(Key1, ".command.")
  {
    assert Key0[31..40] == ".command.";
    ContainsAt(Key0, ".command.", 31);
    assert Key1[31..40] == ".command.";
    ContainsAt(Key1, ".command.", 31);
  }

  lemma CommandUnchanged(x: string, y: string)
    ensures ContainerEnvHashified(Containers([Command(x, y)])) == Ok(Containers([Command(x, y)]))
    ensures RequiredEnvHashified(Containers([Command(x, y)])) == Ok(Containers([Command(x, y)]))
  {
    var cs := [Command(x, y)];
    assert Get(Command(x, y).entries, "env") == None;
    ContainerListAllOk(cs, cs);
    DigContainers(cs);
    ReplaceContainers(cs, cs);
    var v3 := Map([("containers", List(cs))]);
    var v2 := Map([("spec", v3)]);
    assert Get(v2.entries, "metadata") == None;
    assert Dig(v2, ["metadata", "annotations"]) == Ok(None);
    assert Dig(Map([("template", v2)]), ["template", "metadata", "annotations"]) == Ok(None);
    assert Dig(Containers(cs), AnnotationsPath) == Ok(None);
  }

  lemma FlatCommandList(x: string, y: string, all: Flat)
    requires all == []
    ensures FlatInto(Command(x, y), Some("spec.template.spec.containers.0"), all) == [(Key0, Str(x)), (Key1, Str(y))]
  {
    FlatSingleEntry("command", List([Leaf(Str(x)), Leaf(Str(y))]), Some("spec.template.spec.containers.0"), all);
    assert Prefix == "spec.template.spec.containers.0" + "." + "command";
    FlatTwoItems(Leaf(Str(x)), Leaf(Str(y)), Some(Prefix), all);
    assert Key0 == Prefix + "." + "0" && Key1 == Prefix + "." + "1";
    assert Key0 != Key1 by { assert Key0[40] != Key1[40]; }
  }

  lemma FlatCommand(x: string, y: string)
    ensures FlatHash(Containers([Command(x, y)])) == [(Key0, Str(x)), (Key1, Str(y))]
  {
    var c := Command(x, y);
    var p1 := "spec.template";
    var p2 := "spec.template.spec";
    var p3 := "spec.template.spec.containers";
    var p4 := "spec.template.spec.containers.0";
    assert p1 == "spec" + "." + "template";
    assert p2 == p1 + "." + "spec";
    assert p3 == p2 + "." + "containers";
    assert NatToString(0) == "0";
    assert p4 == p3 + "." + "0";
    FlatSingleEntry("spec", Map([("template", Map([("spec", Map([("containers", List([c]))]))]))]), None, []);
    FlatSingleEntry("template", Map([("spec", Map([("containers", List([c]))]))]), Some("spec"), []);
    FlatSingleEntry("spec", Map([("containers", List([c]))]), Some(p1), []);
    FlatSingleEntry("containers", List([c]), Some(p2), []);
    assert FlatItems([c], 0, Some(p3), []) == FlatItems([], 1, Some(p3), FlatInto(c, Some(p4), []));
    FlatCommandList(x, y, []);
  }

  lemma ReadCommand(file: string, load: string -> Loaded, x: string, y: string)
    requires EndsWith(file, ".yml")
    requires load(file) == Documents([Containers([Command(x, y)])])
    ensures ReadResult(file, load) == Ok([(Key0, Str(x)), (Key1, Str(y))])
  {
    CommandUnchanged(x, y);
    FlatCommand(x, y);
  }

  lemma IgnoredPair(a: Flat, b: Flat, ignore: Ignore)
    requires a == [(Key0, Str("a")), (Key1, Str("b"))] && b == [(Key0, Str("c")), (Key1, Str("d"))]
    requires Ignored(ignore, Key0) && Ignored(ignore, Key1)
    ensures PairEntry(a, b, ignore) == []
  {
    DifferentKeysSpec(a, b);
    assert Keys(a) == [Key0, Key1] && Keys(b) == [Key0, Key1];
    RejectEverything(DifferentKeys(a, b), ignore);
  }

  /** Both command keys differ, both match the ignore pattern, so the pair
      is reported with an empty list. */
  lemma CanIgnoreExample(load: string -> Loaded)
    requires load("a.yml") == Documents([Containers([Command("a", "b")])])
    requires load("b.yml") == Documents([Containers([Command("c", "d")])])
    ensures DiffWith(["a.yml", "b.yml"], Reading(load), Some(k => Contains(k, ".command.")), []) == Ok([("a.yml-b.yml", [])])
  {
    assert "a.yml"[1..] == ".yml" && "b.yml"[1..] == ".yml";
    ReadCommand("a.yml", load, "a", "b");
    ReadCommand("b.yml", load, "c", "d");
    var ignore: Ignore := Some(k => Contains(k, ".command."));
    CommandKeysIgnored();
    var a: Flat := [(Key0, Str("a")), (Key1, Str("b"))];
    var b: Flat := [(Key0, Str("c")), (Key1, Str("d"))];
    IgnoredPair(a, b, ignore);
    TwoFiles(Reading(load), ignore, a, b);
  }
}
