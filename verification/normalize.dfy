/**
 * The two rewrites `read` applies to a freshly loaded document before
 * flattening it: `hashify_container_env!` turns each container's `env` list
 * into a Hash from variable name to value, and `hashify_required_env!`
 * turns the `samson/required_env` annotation into a Hash from token to
 * true. The Ruby code edits the loaded tree in place; here each rewrite
 * returns the edited tree, or the Fault with which the Ruby code raises.
 */
module Normalize {
  import opened Wrappers
  import opened OrderedMap
  import opened Lists
  import opened Text
  import opened Manifest

  const ContainersPath: seq<string> := ["spec", "template", "spec", "containers"]
  const AnnotationsPath: seq<string> := ["spec", "template", "metadata", "annotations"]
  const RequiredEnvKey: string := "samson/required_env"

  // ---------------------------------------------------------------------
  // hashify_container_env!

  /** Ruby `(v.keys - ['name']).first` together with its value. */
  function FirstOther(es: Assoc<Value>): (r: Option<(string, Value)>)
    ensures r.Some? ==> r.value.0 != "name"
    ensures r.Some? ==> exists i :: 0 <= i < |es| && es[i] == r.value && forall j :: 0 <= j < i ==> es[j].0 == "name"
    ensures r.None? ==> forall i :: 0 <= i < |es| ==> es[i].0 == "name"
  {
    if es == [] then None
    else if es[0].0 != "name" then Some(es[0])
    else
      var r := FirstOther(es[1..]);
      assert r.Some? ==> exists i :: 1 <= i < |es| && es[i] == r.value && forall j :: 1 <= j < i ==> es[j].0 == "name";
      r
  }

  /** One `env` entry: its `name` and the value of its first other key.
      `fetch` raises KeyError when either is missing. */
  function EnvEntry(v: Value): Result<(string, Value), Fault>
  {
    match v
    case Map(es) =>
      var name := Get(es, "name");
      var other := FirstOther(es);
      if name.None? || other.None? then Err(KeyMissing)
      else if !(name.value.Leaf? && name.value.scalar.Str?) then Err(WrongShape)
      else Ok((name.value.scalar.s, other.value.1))
    case _ => Err(WrongShape)
  }

  /** Ruby `env.each_with_object(h) { |v, h| h[name] = value }`. */
  function EnvHash(entries: seq<Value>, h: Assoc<Value>): Result<Assoc<Value>, Fault>
  {
    if entries == [] then Ok(h)
    else
      match EnvEntry(entries[0])
      case Err(f) => Err(f)
      case Ok(nv) => EnvHash(entries[1..], Put(h, nv.0, nv.1))
  }

  /** The `each_with_object` loop of `hashify_container_env!`. */
  method HashifyEnvEntries(entries: seq<Value>) returns (r: Result<Assoc<Value>, Fault>)
    ensures r == EnvHash(entries, [])
  {
    var h: Assoc<Value> := [];
    var i := 0;
    while i < |entries|
      invariant 0 <= i <= |entries|
      invariant EnvHash(entries, []) == EnvHash(entries[i..], h)
    {
      assert entries[i..][1..] == entries[i + 1..];
      var entry := EnvEntry(entries[i]);
      if entry.Err? {
        return Err(entry.error);
      }
      h := Put(h, entry.value.0, entry.value.1);
      i := i + 1;
    }
    r := Ok(h);
  }

  /** The new value of a truthy `container['env']`. An Array of entries
      becomes a Hash; an empty Hash iterates nothing and stays empty;
      anything else has no usable `each_with_object` and raises. */
  function EnvHashified(env: Value): Result<Value, Fault>
  {
    match env
    case List(entries) =>
      (match EnvHash(entries, [])
       case Err(f) => Err(f)
       case Ok(h) => Ok(Map(h)))
    case Map(es) => if es == [] then Ok(env) else Err(WrongShape)
    case Leaf(_) => Err(WrongShape)
  }

  /** One iteration of `containers.each`. A String container answers
      `container['env']` with a substring search, so it is skipped when it
      does not contain "env" and raises when it does. */
  function ContainerHashified(c: Value): Result<Value, Fault>
  {
    match c
    case Map(es) =>
      var env := Get(es, "env");
      if !Truthy(env) then Ok(c)
      else
        (match EnvHashified(env.value)
         case Err(f) => Err(f)
         case Ok(e) => Ok(Map(Put(es, "env", e))))
    case Leaf(Str(s)) => if Contains(s, "env") then Err(WrongShape) else Ok(c)
    case _ => Err(WrongShape)
  }

  /** The body of the `containers.each` block as statements, with its
      in-place store; `ContainerHashified` is the same step as a value. */
  method HashifyContainer(c: Value) returns (r: Result<Value, Fault>)
    ensures r == ContainerHashified(c)
  {
    match c {
      case Map(es) =>
        var env := Get(es, "env");
        if !Truthy(env) {
          return Ok(c);
        }
        match env.value {
          case List(entries) =>
            var h := HashifyEnvEntries(entries);
            if h.Err? {
              return Err(h.error);
            }
            r := Ok(Map(Put(es, "env", Map(h.value))));
          case Map(h) =>
            r := if h == [] then Ok(Map(Put(es, "env", Map([])))) else Err(WrongShape);
          case Leaf(_) =>
            r := Err(WrongShape);
        }
      case _ =>
        r := ContainerHashified(c);
    }
  }

  /** Every container in turn; the first one that raises ends the walk. */
  function ContainerList(cs: seq<Value>): Result<seq<Value>, Fault>
  {
    if cs == [] then Ok([])
    else
      match ContainerHashified(cs[0])
      case Err(f) => Err(f)
      case Ok(c) =>
        (match ContainerList(cs[1..])
         case Err(f) => Err(f)
         case Ok(rest) => Ok([c] + rest))
  }

  lemma {:induction false} ContainerListAllOk(cs: seq<Value>, done: seq<Value>)
    requires |done| == |cs|
    requires forall j :: 0 <= j < |cs| ==> ContainerHashified(cs[j]) == Ok(done[j])
    ensures ContainerList(cs) == Ok(done)
  {
    if cs != [] {
      ContainerListAllOk(cs[1..], done[1..]);
      assert done == [done[0]] + done[1..];
    }
  }

  lemma {:induction false} ContainerListFirstError(cs: seq<Value>, i: nat)
    requires i < |cs| && ContainerHashified(cs[i]).Err?
    requires forall j :: 0 <= j < i ==> ContainerHashified(cs[j]).Ok?
    ensures ContainerList(cs) == Err(ContainerHashified(cs[i]).error)
  {
    if i > 0 {
      ContainerListFirstError(cs[1..], i - 1);
    }
  }

  /** `containers.each`: an Array is walked; an empty Hash iterates nothing;
      a non-empty Hash yields [key, value] pairs, on which `['env']`
      raises; a scalar has no `each`. */
  function ContainersHashified(cs: Value): Result<Value, Fault>
  {
    match cs
    case List(items) =>
      (match ContainerList(items)
       case Err(f) => Err(f)
       case Ok(done) => Ok(List(done)))
    case Map(es) => if es == [] then Ok(cs) else Err(WrongShape)
    case Leaf(_) => Err(WrongShape)
  }

  /** The `containers.each` loop, rewriting each container where it stands. */
  method HashifyContainers(cs: Value) returns (r: Result<Value, Fault>)
    ensures r == ContainersHashified(cs)
  {
    match cs {
      case List(items) =>
        var done := items;
        var i := 0;
        while i < |done|
          invariant 0 <= i <= |done| == |items|
          invariant done[i..] == items[i..]
          invariant forall j :: 0 <= j < i ==> ContainerHashified(items[j]) == Ok(done[j])
        {
          var c := HashifyContainer(done[i]);
          if c.Err? {
            ContainerListFirstError(items, i);
            return Err(c.error);
          }
          done := done[i := c.value];
          i := i + 1;
        }
        ContainerListAllOk(items, done);
        r := Ok(List(done));
      case _ =>
        r := ContainersHashified(cs);
    }
  }

  /** `hashify_container_env!(content)`. */
  function ContainerEnvHashified(doc: Value): Result<Value, Fault>
  {
    match Dig(doc, ContainersPath)
    case Err(f) => Err(f)
    case Ok(None) => Ok(doc)
    case Ok(Some(cs)) =>
      (match ContainersHashified(cs)
       case Err(f) => Err(f)
       case Ok(cs') => Ok(Replace(doc, ContainersPath, cs')))
  }

  /** `hashify_container_env!` as the Ruby method runs it, statement by
      statement; `ContainerEnvHashified` is the same rewrite as a value. */
  method HashifyContainerEnv(doc: Value) returns (r: Result<Value, Fault>)
    ensures r == ContainerEnvHashified(doc)
  {
    var found := Dig(doc, ContainersPath);
    if found.Err? {
      return Err(found.error);
    }
    if found.value.None? {
      return Ok(doc);
    }
    var cs := HashifyContainers(found.value.value);
    r := if cs.Err? then Err(cs.error) else Ok(Replace(doc, ContainersPath, cs.value));
  }

  // ---------------------------------------------------------------------
  // hashify_required_env!

  /** Ruby `Hash[tokens.map { |k| [k, true] }]`. */
  function TokenHash(tokens: seq<string>): (r: Assoc<Value>)
  {
    if tokens == [] then []
    else Put(TokenHash(tokens[..|tokens| - 1]), tokens[|tokens| - 1], Leaf(Bool(true)))
  }

  /** The annotation's new value. */
  function RequiredEnvHash(s: string): Value
  {
    Map(TokenHash(Split(Strip(s))))
  }

  /** The `annotations[key] = ... if annotations[key]` step. A String in
      place of the annotations Hash answers `[key]` with a substring search:
      nothing happens when the key is not in it, and the assignment raises
      when it is. */
  function AnnotationsHashified(a: Value): Result<Value, Fault>
  {
    match a
    case Map(es) =>
      if !Truthy(Get(es, RequiredEnvKey)) then Ok(a)
      else
        (match Get(es, RequiredEnvKey).value
         case Leaf(Str(s)) => Ok(Map(Put(es, RequiredEnvKey, RequiredEnvHash(s))))
         case _ => Err(WrongShape))
    case Leaf(Str(s)) => if Contains(s, RequiredEnvKey) then Err(WrongShape) else Ok(a)
    case _ => Err(WrongShape)
  }

  /** `hashify_required_env!(content)`. */
  function RequiredEnvHashified(doc: Value): Result<Value, Fault>
  {
    match Dig(doc, AnnotationsPath)
    case Err(f) => Err(f)
    case Ok(None) => Ok(doc)
    case Ok(Some(a)) =>
      (match AnnotationsHashified(a)
       case Err(f) => Err(f)
       case Ok(a') => Ok(Replace(doc, AnnotationsPath, a')))
  }

  // ---------------------------------------------------------------------
  // What the rewrites promise

  /** The (name, value) pairs of entries that all have both. */
  function EnvPairs(entries: seq<Value>): (r: Assoc<Value>)
    requires forall j :: 0 <= j < |entries| ==> EnvEntry(entries[j]).Ok?
    ensures |r| == |entries|
    ensures forall j :: 0 <= j < |entries| ==> r[j] == EnvEntry(entries[j]).value
  {
    if entries == [] then [] else [EnvEntry(entries[0]).value] + EnvPairs(entries[1..])
  }

  /** The env loop raises exactly when some entry lacks `name` or any
      other key (or is not a Hash) ... */
  lemma {:induction false} EnvHashOk(entries: seq<Value>, h: Assoc<Value>)
    ensures EnvHash(entries, h).Ok? <==> forall j :: 0 <= j < |entries| ==> EnvEntry(entries[j]).Ok?
  {
    if entries != [] && EnvEntry(entries[0]).Ok? {
      var nv := EnvEntry(entries[0]).value;
      assert EnvHash(entries, h) == EnvHash(entries[1..], Put(h, nv.0, nv.1));
      EnvHashOk(entries[1..], Put(h, nv.0, nv.1));
      assert forall j :: 0 < j < |entries| ==> entries[j] == entries[1..][j - 1];
    }
  }

  /** ... and otherwise stores every entry's pair, in order. */
  lemma {:induction false} EnvHashStoresEveryEntry(entries: seq<Value>, h: Assoc<Value>)
    requires EnvHash(entries, h).Ok?
    ensures forall j :: 0 <= j < |entries| ==> EnvEntry(entries[j]).Ok?
    ensures EnvHash(entries, h).value == PutAll(h, EnvPairs(entries))
  {
    EnvHashOk(entries, h);
    if entries != [] {
      var nv := EnvEntry(entries[0]).value;
      var next := Put(h, nv.0, nv.1);
      assert EnvHash(entries, h) == EnvHash(entries[1..], next);
      EnvHashStoresEveryEntry(entries[1..], next);
      var pairs := EnvPairs(entries);
      assert pairs[0] == nv && pairs[1..] == EnvPairs(entries[1..]);
      assert PutAll(h, pairs) == PutAll(next, pairs[1..]);
    }
  }

  /** The env Hash maps each name to the value of its entry's first key
      other than `name`; when a name repeats, its last entry wins. */
  lemma EnvHashLastEntryWins(entries: seq<Value>, i: nat, name: string, x: Value)
    requires EnvHash(entries, []).Ok?
    requires i < |entries| && EnvEntry(entries[i]) == Ok((name, x))
    requires forall j :: i < j < |entries| ==> !(EnvEntry(entries[j]).Ok? && EnvEntry(entries[j]).value.0 == name)
    ensures Get(EnvHash(entries, []).value, name) == Some(x)
  {
    EnvHashStoresEveryEntry(entries, []);
    PutAllHit([], EnvPairs(entries), i);
  }

  /** The env Hash has one key per distinct name, and no other. */
  lemma EnvHashKeys(entries: seq<Value>, name: string)
    requires EnvHash(entries, []).Ok?
    ensures UniqueKeys(EnvHash(entries, []).value)
    ensures name in Keys(EnvHash(entries, []).value) <==>
              exists j :: 0 <= j < |entries| && EnvEntry(entries[j]).Ok? && EnvEntry(entries[j]).value.0 == name
  {
    EnvHashStoresEveryEntry(entries, []);
    PutAllKeys([], EnvPairs(entries), name);
  }

  /** `hashify_container_env!` rewrites every container of the list found
      at spec.template.spec.containers, and nothing outside that list;
      a document without that path is left as it is. */
  lemma ContainerEnvHashifiedEffect(doc: Value)
    requires ContainerEnvHashified(doc).Ok?
    ensures Dig(doc, ContainersPath) == Ok(None) ==> ContainerEnvHashified(doc).value == doc
    ensures forall q :: Diverge(ContainersPath, q) ==> Dig(ContainerEnvHashified(doc).value, q) == Dig(doc, q)
    ensures forall cs :: Dig(doc, ContainersPath) == Ok(Some(List(cs))) ==>
              && (forall i :: 0 <= i < |cs| ==> ContainerHashified(cs[i]).Ok?)
              && Dig(ContainerEnvHashified(doc).value, ContainersPath)
                 == Ok(Some(List(seq(|cs|, i requires 0 <= i < |cs| => ContainerHashified(cs[i]).value))))
  {
    var found := Dig(doc, ContainersPath);
    if found.Ok? && found.value.Some? {
      var cs' := ContainersHashified(found.value.value).value;
      forall q | Diverge(ContainersPath, q)
        ensures Dig(ContainerEnvHashified(doc).value, q) == Dig(doc, q)
      {
        DigReplaceElsewhere(doc, ContainersPath, q, cs');
      }
      DigReplace(doc, ContainersPath, cs');
      if found.value.value.List? {
        var cs := found.value.value.items;
        ContainerListEach(cs);
      }
    }
  }

  lemma {:induction false} ContainerListEach(cs: seq<Value>)
    requires ContainerList(cs).Ok?
    ensures forall i :: 0 <= i < |cs| ==> ContainerHashified(cs[i]).Ok?
    ensures ContainerList(cs).value == seq(|cs|, i requires 0 <= i < |cs| => ContainerHashified(cs[i]).value)
  {
    if cs != [] {
      ContainerListEach(cs[1..]);
    }
  }

  /** The annotation value becomes a Hash whose keys are exactly the
      tokens, each once, in order of first appearance ... */
  lemma {:induction false} TokenHashKeys(tokens: seq<string>)
    ensures Keys(TokenHash(tokens)) == Uniq(tokens)
  {
    if tokens != [] {
      TokenHashKeys(tokens[..|tokens| - 1]);
    }
  }

  /** ... and each mapped to true. */
  lemma {:induction false} TokenHashValues(tokens: seq<string>, t: string)
    ensures Get(TokenHash(tokens), t) == if t in tokens then Some(Leaf(Bool(true))) else None
  {
    if tokens != [] {
      var init := tokens[..|tokens| - 1];
      var last := tokens[|tokens| - 1];
      TokenHashValues(init, t);
      assert TokenHash(tokens) == Put(TokenHash(init), last, Leaf(Bool(true)));
      if t != last {
        InitMember(tokens, t);
      }
    }
  }

  /** The tokens are the pieces of the stripped value between single
      whitespace or comma characters, trailing empty pieces dropped. */
  lemma RequiredEnvTokens(s: string)
    ensures |Fields(Strip(s))| == |Delimiters(Strip(s))| + 1
    ensures var fs := Fields(Strip(s));
      && Split(Strip(s)) == fs[..|Split(Strip(s))|]
      && (forall i :: |Split(Strip(s))| <= i < |fs| ==> fs[i] == "")
      && Interleave(fs, Delimiters(Strip(s))) == Strip(s)
    ensures forall t, c :: t in Split(Strip(s)) && c in t ==> !IsDelimiter(c)
    ensures Split(Strip(s)) == [] || Split(Strip(s))[|Split(Strip(s))| - 1] != ""
  {
    FieldsRoundTrip(Strip(s));
    var fs := Fields(Strip(s));
    var tokens := Split(Strip(s));
    forall t, c | t in tokens && c in t ensures !IsDelimiter(c) {
      var i :| 0 <= i < |tokens| && tokens[i] == t;
      assert fs[i] == t;
    }
  }

  /** `hashify_required_env!` leaves a document alone when its annotation
      is missing, nil or false. */
  lemma RequiredEnvAbsent(doc: Value, es: Assoc<Value>)
    requires Dig(doc, AnnotationsPath) == Ok(Some(Map(es)))
    requires !Truthy(Get(es, RequiredEnvKey))
    ensures RequiredEnvHashified(doc) == Ok(doc)
  {
    assert AnnotationsHashified(Map(es)) == Ok(Map(es));
    ReplaceFound(doc, AnnotationsPath, Map(es));
  }

  lemma AnnotationReplaced(es: Assoc<Value>, s: string)
    requires Get(es, RequiredEnvKey) == Some(Leaf(Str(s)))
    ensures AnnotationsHashified(Map(es)) == Ok(Map(Put(es, RequiredEnvKey, RequiredEnvHash(s))))
  {
    var r := AnnotationsHashified(Map(es));
    assert r.Ok? && r.value.Map?;
    assert r.value.entries == Put(es, RequiredEnvKey, RequiredEnvHash(s));
  }

  /** It replaces a string annotation by the Hash of its tokens, keeps the
      other annotations, and changes nothing outside the annotations Hash. */
  lemma RequiredEnvReplaced(doc: Value, es: Assoc<Value>, s: string)
    requires Dig(doc, AnnotationsPath) == Ok(Some(Map(es)))
    requires Get(es, RequiredEnvKey) == Some(Leaf(Str(s)))
    ensures RequiredEnvHashified(doc).Ok?
    ensures Dig(RequiredEnvHashified(doc).value, AnnotationsPath)
              == Ok(Some(Map(Put(es, RequiredEnvKey, Map(TokenHash(Split(Strip(s))))))))
    ensures forall q :: Diverge(AnnotationsPath, q) ==> Dig(RequiredEnvHashified(doc).value, q) == Dig(doc, q)
  {
    var a' := Map(Put(es, RequiredEnvKey, RequiredEnvHash(s)));
    AnnotationReplaced(es, s);
    assert RequiredEnvHashified(doc) == Ok(Replace(doc, AnnotationsPath, a'));
    DigReplace(doc, AnnotationsPath, a');
    forall q | Diverge(AnnotationsPath, q)
      ensures Dig(Replace(doc, AnnotationsPath, a'), q) == Dig(doc, q)
    {
      DigReplaceElsewhere(doc, AnnotationsPath, q, a');
    }
  }
}

module NormalizeExamples {
  import opened Wrappers
  import opened OrderedMap
  import opened Manifest
  import opened Text
  import opened Normalize

  function Containers(cs: seq<Value>): Value
  {
    Map([("spec", Map([("template", Map([("spec", Map([("containers", List(cs))]))]))]))])
  }

  function EnvList(name: string, key: string, value: string): Value
  {
    Map([("env", List([Map([("name", Leaf(Str(name))), (key, Leaf(Str(value)))])]))])
  }

  function EnvMap(name: string, value: string): Value
  {
    Map([("env", Map([(name, Leaf(Str(value)))]))])
  }

  lemma ContainerExample(name: string, key: string, value: string)
    requires key != "name"
    ensures ContainerHashified(EnvList(name, key, value)) == Ok(EnvMap(name, value))
  {
    var entry := Map([("name", Leaf(Str(name))), (key, Leaf(Str(value)))]);
    assert FirstOther(entry.entries) == Some((key, Leaf(Str(value))));
    assert EnvEntry(entry) == Ok((name, Leaf(Str(value))));
    assert EnvHash([entry], []) == Ok([(name, Leaf(Str(value)))]);
    assert EnvHashified(List([entry])) == Ok(Map([(name, Leaf(Str(value)))]));
    var es := EnvList(name, key, value).entries;
    assert Get(es, "env") == Some(List([entry]));
    assert Put(es, "env", Map([(name, Leaf(Str(value)))])) == EnvMap(name, value).entries;
  }

  lemma DigContainers(cs: seq<Value>)
    ensures Dig(Containers(cs), ContainersPath) == Ok(Some(List(cs)))
  {
    var v3 := Map([("containers", List(cs))]);
    var v2 := Map([("spec", v3)]);
    var v1 := Map([("template", v2)]);
    assert Dig(v3, ["containers"]) == Ok(Some(List(cs)));
    assert Dig(v2, ["spec", "containers"]) == Ok(Some(List(cs)));
    assert Dig(v1, ["template", "spec", "containers"]) == Ok(Some(List(cs)));
  }

  lemma ReplaceContainers(cs: seq<Value>, cs': seq<Value>)
    ensures Replace(Containers(cs), ContainersPath, List(cs')) == Containers(cs')
  {
    var v3 := Map([("containers", List(cs))]);
    var v2 := Map([("spec", v3)]);
    var v1 := Map([("template", v2)]);
    assert Replace(v3, ["containers"], List(cs')) == Map([("containers", List(cs'))]);
    assert Replace(v2, ["spec", "containers"], List(cs')) == Map([("spec", Map([("containers", List(cs'))]))]);
    assert Replace(v1, ["template", "spec", "containers"], List(cs'))
        == Map([("template", Map([("spec", Map([("containers", List(cs'))]))]))]);
  }

  /** spec/kucodiff_spec.rb:115-127: two containers, one with a `value` and
      one with a `valueFrom` entry; each env list becomes a one-entry Hash.
      The test calls `send(:hashify_container_env, input)`, without the `!`,
      and lib/kucodiff.rb defines no method of that name, so as written it
      raises NoMethodError before its `expect`. This lemma states what the
      test evidently means: the effect of `hashify_container_env!`. */
  lemma HashifyContainerEnvExample()
    ensures ContainerEnvHashified(Containers([EnvList("a", "value", "b"), EnvList("c", "valueFrom", "d")]))
            == Ok(Containers([EnvMap("a", "b"), EnvMap("c", "d")]))
  {
    var before := [EnvList("a", "value", "b"), EnvList("c", "valueFrom", "d")];
    var after := [EnvMap("a", "b"), EnvMap("c", "d")];
    ContainerExample("a", "value", "b");
    ContainerExample("c", "valueFrom", "d");
    ContainerListAllOk(before, after);
    DigContainers(before);
    assert ContainersHashified(List(before)) == Ok(List(after));
    ReplaceContainers(before, after);
  }

  /** A container without an env list, or with a nil or false one, is
      left as it is. */
  lemma ContainerWithoutEnv(es: Assoc<Value>)
    requires !Truthy(Get(es, "env"))
    ensures ContainerHashified(Map(es)) == Ok(Map(es))
  {
  }

  /** Adjacent delimiters give an empty token; trailing ones give none. */
  lemma SplitExamples()
    ensures Split("a,,b") == ["a", "", "b"]
    ensures Split("a b,,") == ["a", "b"]
  {
    assert "b"[1..] == "" && ['b'] + "" == "b";
    assert Fields("b") == ["b"];
    assert Fields(",b") == ["", "b"];
    assert Fields(",,b") == ["", "", "b"];
    assert "a,,b"[1..] == ",,b" && ['a'] + "" == "a";
    assert Fields("a,,b") == ["a", "", "b"];
    assert Fields(",") == ["", ""];
    assert Fields(",,") == ["", "", ""];
    assert "b,,"[1..] == ",," && ['b'] + "" == "b";
    assert Fields("b,,") == ["b", "", ""];
    assert Fields(" b,,") == ["", "b", "", ""];
    assert "a b,,"[1..] == " b,,";
    var fs := ["a", "b", "", ""];
    assert Fields("a b,,") == fs;
    assert fs[..3] == ["a", "b", ""] && fs[..3][..2] == ["a", "b"];
    assert DropTrailingEmpty(fs) == DropTrailingEmpty(fs[..3][..2]);
  }

  /** spec/kucodiff_spec.rb:109-113: a document without containers is left
      alone. As in the next example, the test calls `hashify_container_env`
      without the `!`, a name lib/kucodiff.rb does not define, so as written
      it raises NoMethodError; this lemma states the effect of
      `hashify_container_env!` that the test evidently means. */
  lemma HashifyContainerEnvEmptyExample()
    ensures ContainerEnvHashified(Map([])) == Ok(Map([]))
  {
  }
}
