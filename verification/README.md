# kucodiff in Dafny

A model of kucodiff's comparison engine (`lib/kucodiff.rb`). Kucodiff reads
several Kubernetes manifests and takes the first as the base. It then reports,
for each other manifest, which flattened keys differ from the base.

Each manifest goes through the same pipeline:

1. It is loaded, and only its first YAML document is kept.
2. Two normalisations make it comparable. `hashify_container_env!` turns each
   container's `env` list into a Hash from variable name to value.
   `hashify_required_env!` turns the `samson/required_env` annotation string
   into a Hash from token to `true`.
3. `flat_hash` flattens the tree into a Hash from dot-joined paths
   (`spec.template.spec.containers.0.env.PORT`) to leaf values.

`different_keys` lists the keys whose values differ. Keys matching the `ignore`
pattern are dropped and the list is sorted. The result is stored under the
label `"<base>-<other>"`. Finally, each label the caller listed in `expected`
is reconciled with the list expected for it. The label is deleted when the two
lists hold the same keys. Otherwise it holds their symmetric difference (`xor`).

Modules, one concern each:

- `Wrappers`: `Option` and `Result`.
- `Lists`: Ruby's `select`/`reject`, `uniq`, `a - b` and `a & b` on string lists.
- `OrderedMap`: Ruby's insertion-ordered Hash as an association list.
  - `Get` is `h[k]`.
  - `Put` is `h[k] = v`. An existing key keeps its place and a new key is appended.
  - `Delete` is `h.delete(k)`.
  - `PutAll` stores pairs in turn.
- `Text`: `end_with?`, substring lookup, `strip`, `split(/[\s,]/)`, `Integer#to_s` and the string order `sort` uses.
- `Manifest`: the loaded tree (`Value`: scalars, Arrays, Hashes) and the `Fault` a normalisation raises.
  - `Dig` follows a chain of `fetch(key, default)` calls.
  - `Replace` stores a new value at the end of such a chain.
- `Flatten`: `flat_hash`, plus a reference definition. `Leaves` lists the path of every scalar in the tree, and `PathKey` renders a path as `flat_hash` joins it.
- `Normalize`: `hashify_container_env!` and `hashify_required_env!`. The two loops of `hashify_container_env!` (lib/kucodiff.rb:41, 43) are methods proved equal to functions; `hashify_required_env!`'s `map` is the function `TokenHash`.
- `Kucodiff`: `read`, `different_keys`, `xor`, the per-pair loop, the `expected` loop and `diff`.
  - `DiffWith` states `diff` for any reader of files.
  - `Reading(load)` is the reader `diff` uses: `read` with the given loader.
- `NormalizeExamples`, `DiffExamples`, `IgnoreExample`: the scenarios of `spec/kucodiff_spec.rb`.

Ruby exceptions are `Err` results, not preconditions:

- `NeedTwoFiles` and `UnknownFormat(file)` are the two `ArgumentError`s.
- `LoadError(file)` means the file could not be read or parsed.
- `Malformed(file, fault)` means a normalisation met a value of the wrong kind (Ruby's NoMethodError or TypeError) or an env entry without the keys `fetch` needs (KeyError).

## Model

| member | source | states |
|---|---|---|
| `OrderedMap.Keys` | lib/kucodiff.rb:57 | `h.keys`: one key per entry, in insertion order |
| `OrderedMap.Get` | lib/kucodiff.rb:57 | `h[k]` finds nothing exactly when `k` is not a key; otherwise it finds a value stored under `k` |
| `OrderedMap.GetFound` | lib/kucodiff.rb:57 | what `h[k]` finds is the value of an entry of `h` with key `k` |
| `OrderedMap.Put` | lib/kucodiff.rb:45 | after `h[k] = v`, `k` finds `v` and every other key finds what it found before; a new key is appended, an existing key keeps its place |
| `OrderedMap.Delete` | lib/kucodiff.rb:18 | after `h.delete(k)`, `k` finds nothing, every other key is unchanged, the key set loses exactly `k`, and distinct keys stay distinct |
| `OrderedMap.GetOr` | lib/kucodiff.rb:17 | `h[k] \|\| default` is the default for a missing key and the stored value otherwise |
| `OrderedMap.PutAll` | lib/kucodiff.rb:45 | repeated `h[k] = v`, one pair at a time; stated by `OrderedMap.PutAllHit`, `OrderedMap.PutAllMiss` and `OrderedMap.PutAllKeys` |
| `OrderedMap.PutAllHit` | lib/kucodiff.rb:43-46 | after storing pairs in turn, a key finds the value of the last pair that has it |
| `OrderedMap.PutAllMiss` | lib/kucodiff.rb:43-46 | storing pairs none of which has key `k` leaves `k` as it was |
| `OrderedMap.PutAllKeys` | lib/kucodiff.rb:43-46 | the keys after storing pairs are the old keys plus the pairs' keys, and they stay distinct |
| `OrderedMap.PutFound` | lib/kucodiff.rb:53 | storing under a key the value it already finds changes nothing |
| `OrderedMap.PutSecond` | lib/kucodiff.rb:75 | storing a second, different key behind a one-entry Hash appends it after the first |
| `Lists.Filter` | lib/kucodiff.rb:12 | `select`/`reject` keep exactly the elements that pass the test, and keep a duplicate-free list duplicate-free |
| `Lists.Uniq` | lib/kucodiff.rb:57 | `uniq` keeps every element, and each only once |
| `Lists.Without` | lib/kucodiff.rb:61 | `a - b` holds exactly the elements of `a` that are not in `b`, and is no longer than `a` (`Kucodiff.XorSplits` uses it for the two halves of the xor) |
| `Lists.Intersect` | lib/kucodiff.rb:61 | `a & b` holds exactly the elements in both lists, each once |
| `Lists.FilterAppend` | lib/kucodiff.rb:61 | filtering `a + b` is filtering `a`, then `b` |
| `Lists.FilterCount` | lib/kucodiff.rb:61 | `select`/`reject` (and so `a - b`) keep each passing element as often as it occurs and drop every other element |
| `Lists.DistinctPermutation` | lib/kucodiff.rb:13 | reordering a duplicate-free list (as `sort` does) keeps it duplicate-free |
| `Text.EndsWith` | lib/kucodiff.rb:27 | `end_with?`: the last characters of the file name are the suffix; `Kucodiff.ReadSpec` states the suffix check it makes in `read` |
| `Text.Contains` | lib/kucodiff.rb:42 | `s[t]` on a String is non-nil when `t` occurs in `s`; its meaning is stated by `Text.ContainsSpec` |
| `Text.ContainsSpec` | lib/kucodiff.rb:42 | `s[t]` is non-nil exactly when `t` is a slice of `s` at some position |
| `Text.StripLeading` | lib/kucodiff.rb:53 | the leading part `strip` removes is whitespace or NUL, and what remains does not start with either |
| `Text.StripTrailing` | lib/kucodiff.rb:53 | the trailing part `strip` removes is whitespace or NUL, and what remains does not end with either |
| `Text.Strip` | lib/kucodiff.rb:53 | `strip` returns a slice of the string with only whitespace or NUL before and after it, and the slice neither starts nor ends with either |
| `Text.FieldsRoundTrip` | lib/kucodiff.rb:53 | the pieces between single whitespace or comma characters contain no delimiter, there is one more piece than delimiters, and putting the delimiters back between the pieces gives the string back |
| `Text.DropTrailingEmpty` | lib/kucodiff.rb:53 | `split` keeps a prefix of the pieces, drops only empty pieces, and leaves no trailing empty piece |
| `Text.Split` | lib/kucodiff.rb:53 | `split(/[\s,]/)` is the delimited pieces without trailing empty ones; its contract is stated by `Text.FieldsRoundTrip`, `Text.DropTrailingEmpty` and `Normalize.RequiredEnvTokens` |
| `Text.Below` | lib/kucodiff.rb:13 | the `String#<=>` order `sort` uses: character by character, a proper prefix first; it is a strict total order by `Text.BelowIrreflexive`, `Text.BelowAsymmetric`, `Text.BelowTransitive` and `Text.BelowTotal` |
| `Text.BelowIrreflexive` | lib/kucodiff.rb:13 | no string sorts before itself |
| `Text.BelowAsymmetric` | lib/kucodiff.rb:13 | of two strings, at most one sorts before the other |
| `Text.BelowTransitive` | lib/kucodiff.rb:13 | the string order `sort` uses is transitive |
| `Text.BelowTotal` | lib/kucodiff.rb:13 | of two different strings, one sorts before the other |
| `Text.Sort` | lib/kucodiff.rb:13 | `result.sort` is in string order and is a permutation of `result` |
| `Text.NatToString` | lib/kucodiff.rb:67-72 | an Array index, interpolated into a key, renders as a non-empty string of decimal digits with no leading zero unless it is 0 |
| `Text.NatToStringRoundTrip` | lib/kucodiff.rb:67-72 | reading an index's rendering as a decimal number gives the index back |
| `Text.NatToStringInjective` | lib/kucodiff.rb:67-72 | different Array indices render as different key segments |
| `Manifest.Truthy` | lib/kucodiff.rb:42 | Ruby truthiness of a lookup (`next unless container['env']`, `if annotations[key]`): a missing key, nil and false are falsy, everything else is truthy |
| `Manifest.Dig` | lib/kucodiff.rb:40 | the chain of `fetch(key, {})` calls: the value at the path, nothing when a key on the way is missing, and a raise when a value on the way is not a Hash; stated with `Manifest.Replace` by `Manifest.DigReplace`, `Manifest.DigReplaceElsewhere` and `Manifest.ReplaceFound` |
| `Manifest.Replace` | lib/kucodiff.rb:40-41 | writes a value back at the end of a `fetch` chain, as the in-place rewrites leave the tree: the containers list walked by `containers.each`, and the annotations Hash of lib/kucodiff.rb:52-53; stated by `Manifest.DigReplace` (the path then leads to the new value), `Manifest.DigReplaceElsewhere` (diverging paths are unchanged) and `Manifest.ReplaceFound` |
| `Manifest.DigReplace` | lib/kucodiff.rb:40-43 | after a value found by a chain of `fetch` calls is rewritten in place, the chain leads to the new value |
| `Manifest.DigReplaceElsewhere` | lib/kucodiff.rb:40-43 | a rewrite at one path leaves every path that parts from it unchanged |
| `Manifest.ReplaceFound` | lib/kucodiff.rb:52-53 | writing back the value found at a path changes nothing |
| `Flatten.BaseKey` | lib/kucodiff.rb:75 | the key `all[base] = input` stores a leaf under: the accumulated path (`""` for a bare-scalar document, see Left out) |
| `Flatten.Step` | lib/kucodiff.rb:72 | `base ? "#{base}.#{k}" : k`: the key alone at the top, otherwise the base, a dot and the key; the keys it builds are stated by `Flatten.FlatHashKeys` |
| `Flatten.FlatInto` | lib/kucodiff.rb:65-79 | `flat_hash(input, base, all)`; its contract is `Flatten.FlatIntoRecordsLeaves`: the result is `all` with every leaf stored, in tree order, under its joined path |
| `Flatten.FlatItems` | lib/kucodiff.rb:66-73 | the Array branch, each element under its zero-based position; stated by `Flatten.FlatTwoItems` and `Flatten.EmptyAddsNothing` |
| `Flatten.FlatEntries` | lib/kucodiff.rb:70-73 | the Hash branch, in key order; stated by `Flatten.FlatOneLeaf` and `Flatten.EmptyAddsNothing` |
| `Flatten.FlatHash` | lib/kucodiff.rb:65-79 | `flat_hash(input)` with no base and an empty accumulator; its contract is stated by `Flatten.FlatHashKeys`, `Flatten.FlatHashValue`, `Flatten.FlatHashFindsEveryLeaf` and `Flatten.FlatHashEntryIsLeaf` |
| `Flatten.FlatIntoRecordsLeaves` | lib/kucodiff.rb:65-79 | `flat_hash(v, base, all)` stores, in tree order, every leaf of `v` under `base` joined with the leaf's path; a later leaf with the same key overwrites an earlier one |
| `Flatten.FlatHashKeys` | lib/kucodiff.rb:65-79 | the flat Hash has distinct keys, and a key is present exactly when it is the dot-joined path of some leaf |
| `Flatten.FlatHashValue` | lib/kucodiff.rb:65-79 | a leaf whose joined path no later leaf shares is found under that path with its value |
| `Flatten.FlatHashFindsEveryLeaf` | lib/kucodiff.rb:65-79 | in a tree where no two leaf paths join to the same key, every scalar reachable by a path of keys and zero-based indices is found under that path's joined key |
| `Flatten.FlatHashEntryIsLeaf` | lib/kucodiff.rb:65-79 | every flat entry is a scalar of the tree, at a path whose dot-joined form is its key |
| `Flatten.LeavesAreAt` | lib/kucodiff.rb:65-79 | every listed leaf path leads to its scalar in the tree |
| `Flatten.AtLeafIsListed` | lib/kucodiff.rb:65-79 | every path that leads to a scalar is listed as a leaf |
| `Flatten.EmptyAddsNothing` | lib/kucodiff.rb:70-73 | an empty Hash or Array adds no entry and has no leaf |
| `Flatten.FlatOneLeaf` | lib/kucodiff.rb:70-75 | a one-key Hash of a scalar stores the scalar under the accumulated path joined with the key |
| `Flatten.FlatTwoItems` | lib/kucodiff.rb:66-73 | a two-element Array flattens its first element under position `0`, then its second under position `1` |
| `Flatten.FlatArrayOfPairs` | lib/kucodiff.rb:65-79 | a key holding an Array of two one-key Hashes flattens to `key.0.k0` and `key.1.k1`, in that order |
| `Flatten.FlatHashSimpleExamples` | spec/kucodiff_spec.rb:89-95 | `{}` flattens to `{}`, and `{"foo" => "bar"}` to itself |
| `Flatten.FlatHashNestedExample` | spec/kucodiff_spec.rb:97-99 | a three-level Hash flattens to `"foo.bar.baz" => "boing"` |
| `Flatten.FlatHashArrayExample` | spec/kucodiff_spec.rb:101-105 | Array elements flatten under `foo.0` and `foo.1` |
| `Normalize.FirstOther` | lib/kucodiff.rb:44 | `(v.keys - ['name']).first` is the first entry whose key is not `name`, and there is none only when every key is `name` |
| `Normalize.EnvEntry` | lib/kucodiff.rb:44-45 | one env entry gives its `name` and its first other key's value; a missing key raises KeyError and a non-Hash raises; stated by `Normalize.EnvHashOk` and `Normalize.EnvHashStoresEveryEntry` |
| `Normalize.EnvHash` | lib/kucodiff.rb:43-46 | the `each_with_object` loop as a function: its contract is stated by `Normalize.EnvHashOk`, `Normalize.EnvHashStoresEveryEntry`, `Normalize.EnvHashLastEntryWins` and `Normalize.EnvHashKeys` |
| `Normalize.HashifyEnvEntries` | lib/kucodiff.rb:43-46 | the `each_with_object` loop returns the env Hash, or the first entry's KeyError |
| `Normalize.EnvHashOk` | lib/kucodiff.rb:43-46 | the env loop raises exactly when some entry is not a Hash, lacks `name` or any other key, or has a non-string name |
| `Normalize.EnvHashStoresEveryEntry` | lib/kucodiff.rb:43-46 | when the env loop does not raise, it stores every entry's (name, value) pair, in order |
| `Normalize.EnvHashLastEntryWins` | lib/kucodiff.rb:43-46 | each name maps to the value of its entry's first non-`name` key, and the last entry with a repeated name wins |
| `Normalize.EnvHashKeys` | lib/kucodiff.rb:43-46 | the env Hash has one key per distinct name, and no other |
| `Normalize.EnvHashified` | lib/kucodiff.rb:43 | a truthy `env` that is an Array becomes the Hash `EnvHash` builds; an empty Hash stays as it is and any other value raises |
| `Normalize.ContainerHashified` | lib/kucodiff.rb:42-46 | one container: skipped without a truthy `env` (`NormalizeExamples.ContainerWithoutEnv`), otherwise `env` replaced by its Hash (`NormalizeExamples.ContainerExample`); a String container is searched for `env` and raises when it contains it; other kinds raise |
| `Normalize.ContainerList` | lib/kucodiff.rb:41-47 | every container in turn; stated by `Normalize.ContainerListAllOk` and `Normalize.ContainerListFirstError` |
| `Normalize.ContainersHashified` | lib/kucodiff.rb:40-41 | the `containers.each` call: an Array is walked, an explicit empty Hash has nothing to walk, anything else raises (a missing `containers` key, Ruby's `[]` default, is `ContainerEnvHashified`'s `Ok(None)` case and never reaches this function) |
| `Normalize.ContainerEnvHashified` | lib/kucodiff.rb:39-48 | `hashify_container_env!` as a function; its effect is stated by `Normalize.ContainerEnvHashifiedEffect` |
| `Normalize.HashifyContainer` | lib/kucodiff.rb:42-46 | one container: skipped without a truthy `env`, otherwise `env` is replaced by its Hash, and wrong kinds raise |
| `Normalize.ContainerListFirstError` | lib/kucodiff.rb:41 | the walk over the containers raises the error of the first container that raises |
| `Normalize.ContainerListAllOk` | lib/kucodiff.rb:41 | when no container raises, the walk rewrites each container in place, in order |
| `Normalize.HashifyContainers` | lib/kucodiff.rb:41-47 | the `containers.each` loop rewrites each container where it stands, or stops at the first that raises |
| `Normalize.HashifyContainerEnv` | lib/kucodiff.rb:39-48 | `hashify_container_env!` returns the document as the Ruby code leaves it, or the error it raises |
| `Normalize.ContainerEnvHashifiedEffect` | lib/kucodiff.rb:39-48 | every container at `spec.template.spec.containers` is rewritten, nothing outside that list changes, and a document without that path is unchanged |
| `Normalize.TokenHash` | lib/kucodiff.rb:53 | `Hash[tokens.map { \|k\| [k, true] }]`; stated by `Normalize.TokenHashKeys` and `Normalize.TokenHashValues` |
| `Normalize.RequiredEnvHash` | lib/kucodiff.rb:53 | the annotation's new value, the token Hash of the stripped, split string; stated by `Normalize.RequiredEnvTokens` |
| `Normalize.AnnotationsHashified` | lib/kucodiff.rb:53 | `annotations[key] = … if annotations[key]`: stated by `Normalize.AnnotationReplaced`; a non-String truthy annotation raises, as `strip` does not exist on it |
| `Normalize.RequiredEnvHashified` | lib/kucodiff.rb:50-54 | `hashify_required_env!` as a function; stated by `Normalize.RequiredEnvAbsent` and `Normalize.RequiredEnvReplaced` |
| `Normalize.TokenHashKeys` | lib/kucodiff.rb:53 | the annotation's Hash has the tokens as keys, each once, in order of first appearance |
| `Normalize.TokenHashValues` | lib/kucodiff.rb:53 | every token maps to `true`, and nothing else is a key |
| `Normalize.RequiredEnvTokens` | lib/kucodiff.rb:53 | the tokens are the pieces of the stripped value between single whitespace or comma characters, with trailing empty pieces dropped; no token contains a delimiter |
| `Normalize.RequiredEnvAbsent` | lib/kucodiff.rb:50-54 | a missing, nil or false annotation leaves the document unchanged |
| `Normalize.RequiredEnvReplaced` | lib/kucodiff.rb:50-54 | a string annotation is replaced by the Hash of its tokens, the other annotations keep their values, and nothing outside the annotations Hash changes |
| `Normalize.AnnotationReplaced` | lib/kucodiff.rb:53 | a string annotation becomes its token Hash in place, with the other annotations unchanged |
| `NormalizeExamples.ContainerWithoutEnv` | lib/kucodiff.rb:42 | a container without a truthy `env` is left as it is |
| `NormalizeExamples.SplitExamples` | lib/kucodiff.rb:53 | `"a,,b"` splits to `a`, an empty token and `b`; `"a b,,"` splits to `a` and `b` |
| `NormalizeExamples.ContainerExample` | lib/kucodiff.rb:42-46 | a one-entry env list becomes the one-entry Hash from its name to its other key's value |
| `NormalizeExamples.HashifyContainerEnvEmptyExample` | spec/kucodiff_spec.rb:109-113 | `{}` is left alone |
| `NormalizeExamples.HashifyContainerEnvExample` | spec/kucodiff_spec.rb:115-127 | a `value` entry and a `valueFrom` entry in two containers each become a one-entry Hash |
| `Kucodiff.Lookup` | lib/kucodiff.rb:57 | `a[k]` on a flat Hash is nil for a missing key and the stored value otherwise |
| `Kucodiff.DifferentKeys` | lib/kucodiff.rb:56-58 | `different_keys(a, b)`; its contract is `Kucodiff.DifferentKeysSpec` and `Kucodiff.DifferentKeysSymmetric` |
| `Kucodiff.DifferentKeysSpec` | lib/kucodiff.rb:56-58 | a key is listed exactly when it is a key of either Hash and the two lookups differ (missing reads as nil); no key is listed twice |
| `Kucodiff.DifferentKeysSymmetric` | lib/kucodiff.rb:56-58 | swapping the arguments lists the same keys, and a Hash differs from itself nowhere |
| `Kucodiff.Xor` | lib/kucodiff.rb:60-62 | `xor(a, b)` holds exactly the elements that occur in one list but not the other |
| `Kucodiff.XorSplits` | lib/kucodiff.rb:60-62 | `xor(a, b)` is `a - b` followed by `b - a`, with their order and repetitions |
| `Kucodiff.XorEmpty` | lib/kucodiff.rb:60-62 | `xor(a, b)` is empty exactly when both lists hold the same elements; `xor(x, x)` is empty |
| `Kucodiff.XorInvolution` | lib/kucodiff.rb:60-62 | `xor(xor(a, b), b)` holds the elements of `a` |
| `Kucodiff.Reject` | lib/kucodiff.rb:12 | `reject!` with the ignore pattern keeps exactly the keys it does not match; without a pattern everything stays |
| `Kucodiff.Ignored` | lib/kucodiff.rb:12 | `k =~ ignore` when an ignore pattern is given, never otherwise; used by `Kucodiff.Reject` and `Kucodiff.PairEntrySpec` |
| `Kucodiff.RejectEverything` | lib/kucodiff.rb:12 | a pattern that matches every key leaves an empty list |
| `Kucodiff.PairEntry` | lib/kucodiff.rb:11-13 | the entry of one pair, `different_keys` with `reject!` and `sort` applied; its contract is `Kucodiff.PairEntrySpec` |
| `Kucodiff.Comparing` | lib/kucodiff.rb:11-13 | for every other file, the entry the per-pair loop stores is sorted and duplicate-free, and holds exactly the keys of either flat Hash whose lookups differ and that the ignore pattern does not match |
| `Kucodiff.Label` | lib/kucodiff.rb:13 | `"#{base}-#{other}"`; stated by `Kucodiff.LabelInjective` |
| `Kucodiff.PairEntrySpec` | lib/kucodiff.rb:11-13 | a pair's entry is sorted and duplicate-free, and holds exactly the keys that differ between the two files and are not ignored |
| `Kucodiff.LabelInjective` | lib/kucodiff.rb:13 | with the base fixed, different files get different labels |
| `Kucodiff.First` | lib/kucodiff.rb:30 | `.first` of the loaded stream, nil when the stream is empty; `Kucodiff.ReadSpec` and `DiffExamples.FirstDocumentExample` state its use |
| `Kucodiff.ReadResult` | lib/kucodiff.rb:26-36 | `read(file)` as a function; its contract is `Kucodiff.ReadSpec` and `Kucodiff.ReadPlainDocument` |
| `Kucodiff.Reading` | lib/kucodiff.rb:26-30 | the reader `diff` calls on each file refuses it for its name exactly when the name ends in neither `.yml` nor `.yaml`, and a file it reads had a Hash as its first document |
| `Kucodiff.Read` | lib/kucodiff.rb:26-36 | `read` checks the suffix, loads, keeps the first document, normalises it and flattens it, raising the first step's error |
| `Kucodiff.ReadSpec` | lib/kucodiff.rb:26-36 | a file is refused for its name exactly when it ends in neither `.yml` nor `.yaml`; a file that reads had a Hash as its first document |
| `Kucodiff.ReadPlainDocument` | lib/kucodiff.rb:26-36 | a Hash document without `spec` is flattened as loaded |
| `Kucodiff.Pairs` | lib/kucodiff.rb:10-14 | the per-pair loop as a function; its contract is `Kucodiff.PairsOk`, `Kucodiff.PairsFirstError`, `Kucodiff.PairsHit`, `Kucodiff.PairsMiss`, `Kucodiff.PairsKeys` and `Kucodiff.PairsUniqueKeys` |
| `Kucodiff.CollectPairs` | lib/kucodiff.rb:10-14 | the loop over the other files builds the label Hash, or raises the first read error |
| `Kucodiff.PairsOk` | lib/kucodiff.rb:10-14 | the loop finishes exactly when every other file reads |
| `Kucodiff.PairsFirstError` | lib/kucodiff.rb:10-14 | otherwise it raises the error of the first other file that does not read |
| `Kucodiff.PairsHit` | lib/kucodiff.rb:10-14 | after the loop, each other file's label holds that file's entry |
| `Kucodiff.PairsMiss` | lib/kucodiff.rb:10-14 | labels of files outside the loop are as they were |
| `Kucodiff.PairsKeys` | lib/kucodiff.rb:10-14 | a key is in the loop's Hash exactly when it was there before or is the label of one of the other files |
| `Kucodiff.PairsUniqueKeys` | lib/kucodiff.rb:10-14 | the loop keeps the labels distinct |
| `Kucodiff.Reconciled` | lib/kucodiff.rb:16-19 | the `expected.each` loop as a function; its contract is `Kucodiff.ReconciledLabel`, `Kucodiff.ReconciledKeys` and `Kucodiff.ReconciledUniqueKeys` |
| `Kucodiff.Reconcile` | lib/kucodiff.rb:16-19 | the `expected.each` loop deletes or replaces labels as the reconciliation prescribes |
| `Kucodiff.ReconciledLabel` | lib/kucodiff.rb:16-19 | a label without an expectation keeps its entry; a label with one (a missing label reading as `[]`) is deleted when the xor is empty and otherwise holds the xor, not re-sorted |
| `Kucodiff.ReconciledKeys` | lib/kucodiff.rb:16-19 | reconciling adds no label but the expected ones |
| `Kucodiff.ReconciledUniqueKeys` | lib/kucodiff.rb:16-19 | reconciling keeps the labels distinct |
| `Kucodiff.DiffWith` | lib/kucodiff.rb:5-22 | `diff` for any reader of files; its contract is `Kucodiff.DiffOk`, `Kucodiff.DiffFirstError`, `Kucodiff.DiffReportsEachPair` and `Kucodiff.DiffLabels` |
| `Kucodiff.Diff` | lib/kucodiff.rb:5-22 | `diff` returns the reconciled report, or raises "Need 2+ files" for fewer than two files, or the first read error |
| `Kucodiff.DiffOk` | lib/kucodiff.rb:5-22 | `diff` answers exactly when at least two files are given and every one of them reads |
| `Kucodiff.DiffFirstError` | lib/kucodiff.rb:8-11 | otherwise it raises the error of the first file, base first, that does not read |
| `Kucodiff.DiffReportsEachPair` | lib/kucodiff.rb:8-19 | for each file after the first, the label `"<base>-<other>"` holds the sorted, ignore-filtered differing keys when nothing is expected for it; with an expectation it is dropped on a match and holds the xor otherwise |
| `Kucodiff.DiffLabels` | lib/kucodiff.rb:8-21 | the report has distinct labels, each belonging to an other file or to an expectation |
| `DiffExamples.TooFewFilesExample` | spec/kucodiff_spec.rb:59-61 | one file raises "Need 2+ files" |
| `DiffExamples.UnknownFormatExample` | spec/kucodiff_spec.rb:63-65 | `a.json` is refused as an unknown format before anything is loaded |
| `DiffExamples.FirstDocumentExample` | spec/kucodiff_spec.rb:67-73 | only the first document of a two-document file is compared, so the pair reports `foo` |
| `DiffExamples.TwoFiles` | lib/kucodiff.rb:8-14 | two files and no expectations give one label holding the pair's entry |
| `IgnoreExample.CanIgnoreExample` | spec/kucodiff_spec.rb:75-81 | with every `.command.` key ignored, two manifests that differ only in a container's command report an empty list |

## Left out

- YAML parsing and `File.read` are not modelled. The loader is a parameter (`string -> Loaded`): it returns the documents of a file, or fails. `LoadError` stands for every way either step can raise. Only the first document is used, and an empty stream gives nil, as `.first` does.
- Ruby `Regexp` semantics are not modelled. `ignore:` is any predicate on keys, and `false` is the absence of one. The `ignore` scenario uses a substring test for `/\.command\./`, which matches the same keys.
- YAML values other than nil, booleans, integers and strings are not modelled: floats, symbols, dates and so on. Keys of Hashes are strings, so YAML integer keys are not modelled either.
- `Normalize.EnvEntry` makes an env entry whose `name` is not a string raise `WrongShape`, because Hash keys here are strings. Ruby would store such a name as it is.
- `Flatten.FlatHash` of a bare scalar stores it under `""`, and a top-level Array's indices become decimal strings. Ruby uses a nil key and Integer keys there. `read` never reaches this case: a non-Hash document raises in `hashify_container_env!` first.
- Faults record only the kind of failure (wrong kind of value, or a missing key), not Ruby's exception class or message. Errors are tagged with the file they concern (`LoadError(file)`, `Malformed(file, fault)`) for readability; Ruby's parser and NoMethodError messages do not carry that name.
- In-place mutation is not modelled as such: each rewrite returns the rewritten tree, and `flat_hash`'s shared accumulator is an argument threaded through the recursion. This matches Ruby only while the loaded tree shares no nodes.
- YAML anchors and aliases are not modelled: the loader's trees share no nodes. In Ruby an `*alias` is the same object as its anchor, so a rewrite through one is seen through the other. A container listed twice through an alias has its `env` already turned into a Hash on the second visit, and Ruby then raises NoMethodError at lib/kucodiff.rb:44; the model rewrites each copy and succeeds. A container shared with another part of the document (such as `initContainers`) has its `env` rewritten there too in Ruby, but not in the model.
- The side effect of `files.shift` on the caller's array (lib/kucodiff.rb:8) is not modelled: `diff` takes the files as a value.
- The `VERSION` constant and the test evaluated from `Readme.md` (spec/kucodiff_spec.rb:54-56, 84-86) are not modelled. `Readme.md` is not part of this model.
- `strip` removes NUL as well as whitespace at both ends, as current Ruby documents it. Older Rubies removed leading NUL only in some versions.

## Notes on the code

- The annotation test at lib/kucodiff.rb:53 is Ruby truthiness, and `""` is truthy, so an empty annotation becomes an empty Hash (`Normalize.RequiredEnvReplaced` with `s == ""`).
- A reconciled entry holds the xor as computed, not re-sorted: the entry's keys that were not expected come first, then the expected keys that did not occur (`Kucodiff.XorSplits`).
- `read` raises for a first document that is not a Hash: a scalar has no `fetch` at lib/kucodiff.rb:40, and an Array's `fetch` raises TypeError for a String index (`Kucodiff.ReadSpec`).
