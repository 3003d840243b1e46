# kcmap route data, modelled in Dafny

kcmap turns KanColle map data into files a map viewer can use. This project
models two scripts of that pipeline.

- **Aggregator** (`poi.js`, module `Aggregator`). The script walks a
  directory of per-cell JSON files. It keeps every file whose base name is
  `<digits>_<digits>.json` and stores that file's content under the key
  `"<area>-<cell>"`. The two numbers are printed back in decimal, so leading
  zeros are dropped. A later file with the same key replaces an earlier one.
- **Normaliser** (`kc3kai.js`, module `Normalizer`). For every entry of the
  aggregated object, the script builds the label `World <area>-<cell>` from
  the key. It keeps the entry's routes whose first element is not `null` or
  missing. When a kept route's first element points at a spot whose third
  field is `"start"`, that element is replaced by `"Start"`.
- **Pipeline** (module `Pipeline`). Lemmas for the two scripts run one after
  the other, including the worked example `1_2.json`.

Supporting modules:

- `Text`: ASCII digits, and `split`/`join` on one separator, with both round
  trips.
- `Decimal`: `Number` on digit text, and the decimal printing of a template
  literal, with both round trips and the effect of leading zeros.
- `Json`: parsed JSON values, and property access `v[i]`.
- `Dicts`: a JavaScript object used as a dictionary. It is a key list in
  enumeration order together with a map, and `Put` is `o[k] = v`.

Each loop of the scripts is written as a Dafny method, proved equal to a
specification function:

| loop | method | specification function |
|---|---|---|
| the `poi.js` loop over walked files | `Aggregator.Aggregate` | `Aggregated` |
| the `kc3kai.js` outer loop over `Object.keys(poi)` | `Normalizer.Normalize` | `Normalized` |
| the `kc3kai.js` inner loop over `Object.keys(route)` | `Normalizer.NormalizeRoutes` | `Routes` |

The properties are stated about those functions. The fold lemmas are proved
once for any key or label function, and are then instantiated for the
scripts' own: `Aggregator.AggregatedKeys`, `Aggregator.AggregatedLastWins`,
`Aggregator.AggregatedFromLast` and `Aggregator.AggregatedSize` for `FileKey`,
and `Normalizer.NormalizedKeys` and `Normalizer.NormalizedLastWins` for
`WorldLabel`.

Inputs the model takes as parameters:

- The directory walk is a parameter: a sequence of (path, parsed content)
  pairs in walk order.
- The normaliser's input is the aggregated object itself.

## Model

| member | source | states |
|---|---|---|
| Aggregator.Aggregated | poi.js:6-13 | the object `final` after the walk: `Collect` with the script's key function; its partners are `Aggregate` (the loop) and `AggregatedKeys`, `AggregatedLastWins`, `AggregatedFromLast`, `AggregatedSize` |
| Aggregator.Aggregate | poi.js:6-13 | the loop over the walked files ends with exactly the object `Aggregated(walk)` |
| Aggregator.Collect | poi.js:6-13 | the object built by the walk names each of its fields exactly once in its key list |
| Aggregator.CollectStep | poi.js:8-12 | one more walked file leaves the object unchanged when its path has no key, and stores its content under its key otherwise |
| Aggregator.StripTrailingSlashes | poi.js:8 | the result is a prefix of the path, only slashes were removed, and it does not end in a slash unless it is empty |
| Aggregator.LastSegment | poi.js:8 | the result is the longest slash-free suffix of its argument |
| Aggregator.Basename | poi.js:8 | `path.basename`: the last slash-free component after trailing slashes are removed; its result holds no slash, and `BasenameAfterDirectory` is its partner |
| Aggregator.BasenameAfterDirectory | poi.js:8 | the base name of a path made of directories followed by a slash-free name is that name |
| Aggregator.CellFileName | poi.js:8 | `<a>_<b>.json` with nonempty digit `a`, `b` is a slash-free name of the matched shape |
| Aggregator.MatchCellFile | poi.js:8-9 | `.match(/^(\d+)_(\d+)\.json$/)`: both captured groups are digit text; `MatchCellFileIff` is its partner |
| Aggregator.MatchCellFileIff | poi.js:8-9 | the pattern matches with captures `(a, b)` exactly when the name is `a_b.json` with nonempty ASCII-digit `a` and `b` |
| Aggregator.OtherNamesSkipped | poi.js:8-9 | `final.json`, `a_1.json`, `1_2.json.bak`, `1-2.json` and `1_.json` do not match, so these files are skipped |
| Aggregator.FileKey | poi.js:8-12 | the key a walked path is stored under, or none when the file is skipped; `FileKeyIff` characterises it independently |
| Aggregator.CellKey | poi.js:12 | the template `${area}-${cell}`; `CellKeyRoundTrip` and `CellKeyInjective` are its partners |
| Aggregator.FileKeyIgnoresDirectory | poi.js:8 | whether a path is kept, and under which key, depends only on its last component |
| Aggregator.FileKeyIff | poi.js:8-12 | a path is stored under `key` exactly when its base name is `a_b.json` with digit `a`, `b` and `key` is `${Number(a)}-${Number(b)}` |
| Aggregator.FileKeyOfMatch | poi.js:8-12 | a path whose base name matches is stored under the key printed from the two captured numbers |
| Aggregator.CellFileKey | poi.js:8-12 | the file `<dir>/<a>_<b>.json` is stored under the key printed from the numbers that `a` and `b` denote |
| Aggregator.LeadingZerosDropped | poi.js:10-12 | digit groups with extra leading zeros give the same key as the groups without them, so those files collide |
| Aggregator.PaddedExample | poi.js:10-12 | the groups `007` and `02` give the key `"7-2"` |
| Aggregator.CellKeyRoundTrip | poi.js:12 | splitting a key at `-` gives two digit parts that read back as the two numbers it was printed from |
| Aggregator.CellKeyInjective | poi.js:12 | distinct pairs of numbers get distinct keys |
| Aggregator.OutputNotAggregated | poi.js:8-9 | a path whose base name is `final.json`, the script's own output, is never stored |
| Aggregator.CollectKeys | poi.js:7-13 | a key is present exactly when some walked path produces it |
| Aggregator.CollectLastWins | poi.js:12 | the last walked file with a given key supplies that entry's content |
| Aggregator.CollectFromLast | poi.js:12 | every entry holds the content of the last walked file with its key, which it returns |
| Aggregator.LastWithKey | poi.js:7-12 | from a walked path with key `k`, finds the last walked path with that key |
| Aggregator.CollectSize | poi.js:6-13 | when no two walked paths share a key, there is one entry per matching path |
| Aggregator.AggregatedKeys | poi.js:7-13 | `CollectKeys` for the script's own key function |
| Aggregator.AggregatedLastWins | poi.js:12 | `CollectLastWins` for the script's own key function: last write wins |
| Aggregator.AggregatedFromLast | poi.js:12 | every entry of `final` is the content of the last walked file with its key, and of no earlier one |
| Aggregator.AggregatedSize | poi.js:6-13 | without shared keys, `final` has exactly one entry per matching file |
| Aggregator.AggregatedKeysAreCellKeys | poi.js:10-12 | every key of `final` is two decimal numbers around a dash |
| Normalizer.IsNullish | kc3kai.js:14 | `r[0] == null`: the first element is `null`, or missing because the route is empty; `Routes` drops exactly these routes |
| Normalizer.IsStartSpot | kc3kai.js:15 | `spot[2] === 'start'`, read with `Json.Element`; `RewriteStart` rewrites exactly the routes whose spot meets it |
| Normalizer.RewriteStart | kc3kai.js:15 | a route keeps its length and tail; its first element becomes `"Start"` when its spot's third field is `"start"`, and the route is unchanged otherwise |
| Normalizer.Routes | kc3kai.js:11-17 | a world holds a route id exactly when the route's first element is not `null` or missing, under its own id, rewritten |
| Normalizer.NormalizeRoutes | kc3kai.js:11-17 | the inner loop builds exactly `Routes(cell)`, whatever order it visits the ids in |
| Normalizer.EntryRoutes | kc3kai.js:8-17 | the routes of every entry, under the entry's own key: exactly the keys of `poi`, each holding `Routes` of its cell |
| Normalizer.Normalized | kc3kai.js:6-19 | the output object `kc3`: every entry's routes regrouped under its world label; its partners are `Normalize` (the loop), `NormalizedKeys` and `NormalizedLastWins` |
| Normalizer.Normalize | kc3kai.js:6-19 | the outer loop builds exactly `Normalized(poi)` |
| Normalizer.Regroup | kc3kai.js:6-19 | the output object's key list names each of its worlds exactly once |
| Normalizer.RegroupStep | kc3kai.js:7-18 | one more key is stored, under its label, over what the earlier keys built |
| Normalizer.NormalizeStep | kc3kai.js:7-18 | one more entry of `poi` stores that entry's routes under that entry's world label |
| Normalizer.WorldLabel | kc3kai.js:9-10 | `World ${area}-${cell}` from `k.split('-').map(Number)`; `LabelOfHalves`, `LabelOfCellKey`, `LabelOfWhole` and `LabelIgnoresThirdPart` are its partners |
| Normalizer.LabelOfHalves | kc3kai.js:9-10 | a key whose first two parts are digit strings is labelled `World ` followed by both numbers, printed in decimal, around a dash |
| Normalizer.LabelOfCellKey | kc3kai.js:9-10 | a key printed from two numbers, as the aggregator writes keys, is labelled `World ` followed by the key itself |
| Normalizer.LabelIgnoresLeadingZeros | kc3kai.js:9-10 | leading zeros in the first part do not change the label |
| Normalizer.LabelOfWhole | kc3kai.js:9-10 | a key that does not split has no second part, which prints as `undefined` |
| Normalizer.LabelWithoutDash | kc3kai.js:9-10 | a digit key without a dash is labelled `World <number>-undefined` |
| Normalizer.LabelIgnoresThirdPart | kc3kai.js:9 | parts after the second are ignored, so `a-b-c` is labelled as `a-b` |
| Normalizer.RegroupKeys | kc3kai.js:7-18 | a world is present exactly when it is the label of some entry |
| Normalizer.InLabels | kc3kai.js:7-18 | a name is among the labels exactly when some key has it as its label |
| Normalizer.RegroupInOrder | kc3kai.js:7-18 | when no two entries share a label, the worlds follow the entries' order |
| Normalizer.DistinctLabelsBefore | kc3kai.js:7-18 | the keys before the last one still have pairwise-distinct labels |
| Normalizer.LabelNotEarlier | kc3kai.js:7-18 | with pairwise-distinct labels, the last key's label is none of the earlier keys' labels |
| Normalizer.RegroupLastWins | kc3kai.js:18 | of the entries sharing a label, the last one supplies that world's routes |
| Normalizer.NormalizedKeys | kc3kai.js:7-18 | the output object has a world exactly when some entry of `poi` is labelled with that world's name |
| Normalizer.NormalizedLastWins | kc3kai.js:9-10 | of the entries of `poi` sharing a world label, the last in key order supplies that world's routes |
| Normalizer.RegroupDistinct | kc3kai.js:7-18 | with pairwise-distinct labels there is one world per entry, in order, holding that entry's routes |
| Normalizer.RegroupPrefixed | kc3kai.js:7-18 | when every label is a fixed prefix followed by the key, the worlds are the prefixed keys in order, each holding its entry's routes |
| Normalizer.RegroupSingle | kc3kai.js:7-18 | one entry gives one world under its label |
| Normalizer.NormalizedSingle | kc3kai.js:6-19 | an object with one entry normalises to one world, under that entry's label, holding that entry's routes |
| Normalizer.RegroupPair | kc3kai.js:18 | two entries with one label leave one world, holding the later entry's routes |
| Normalizer.NormalizedCollapse | kc3kai.js:6-19 | two keys with the same label, such as `01-2` and `1-2`, produce a single world holding the routes of the later key |
| Pipeline.LabelOfStoredKey | kc3kai.js:9-10 | every key the aggregator writes is labelled `World ` followed by the key |
| Pipeline.AggregatedIsNormalizable | kc3kai.js:7-10 | when every file that is stored and not overwritten holds a well-formed cell, the aggregated object is one the normaliser accepts, and each key is labelled `World <key>` |
| Pipeline.StoredEntry | kc3kai.js:7-10 | an aggregated entry's key has digit halves and is labelled `World <key>`, and its cell is well formed and is the content of one of the walked files |
| Pipeline.NormalizedPrefixed | kc3kai.js:6-19 | an object whose keys are labelled `World <key>` normalises to one world per entry, in order, holding that entry's routes |
| Pipeline.PipelineOutput | kc3kai.js:6-19 | normalising the aggregated object gives one world per aggregated entry, in the same order; the `i`-th world is labelled `World ` followed by the `i`-th key and holds that entry's routes |
| Pipeline.FirstOfTwoOverwritten | poi.js:12 | of two files with the same key, the first is overwritten, for any key function |
| Pipeline.OverwrittenFileIgnored | poi.js:12 | of two files with the same key, only the later one needs a well-formed cell for the pipeline's precondition |
| Pipeline.ExampleRoutes | kc3kai.js:12-17 | in the example cell, route `a` becomes `["Start", 1]` and route `b`, which starts at `null`, is dropped |
| Pipeline.ExampleBasename | poi.js:8 | the base name of `1_2.json` is itself |
| Pipeline.ExampleName | poi.js:8 | `1_2.json` has the matched shape with groups `1` and `2` |
| Pipeline.ExampleNumbers | poi.js:10-12 | the groups read as 1 and 2, and print the key `"1-2"` |
| Pipeline.ExampleKey | poi.js:8-12 | the file `1_2.json` is stored under `"1-2"` |
| Pipeline.ExampleKeyIn | poi.js:8-12 | the file `<dir>/1_2.json` is stored under `"1-2"` for every directory |
| Pipeline.ExampleOverwritten | poi.js:7-12 | a malformed `1_2.json` overwritten by a well-formed `1_2.json` from another directory still meets the pipeline's precondition |
| Pipeline.ExampleAggregated | poi.js:6-13 | walking that one file gives `{"1-2": <its content>}` verbatim |
| Pipeline.ExampleNormalized | kc3kai.js:6-19 | normalising that object gives `{"World 1-2": {"a": ["Start", 1]}}` |
| Text.IndexOf | kc3kai.js:9 | the position of the first separator, or the length when there is none |
| Text.Split | kc3kai.js:9 | `split` gives at least one part, and no part holds the separator |
| Text.JoinSplit | kc3kai.js:9 | joining the parts of a split gives back the string |
| Text.SplitJoin | kc3kai.js:9 | splitting a join of separator-free parts gives back the parts |
| Text.SplitWithout | kc3kai.js:9 | a string without the separator splits into itself |
| Text.SplitTwo | kc3kai.js:9 | `a-b` splits into `[a, b]` when neither part holds a dash |
| Text.SplitThree | kc3kai.js:9 | `a-b-c` splits into `[a, b, c]` when no part holds a dash |
| Decimal.DigitChar | poi.js:12 | the printed digit is an ASCII digit with the given value |
| Decimal.Print | poi.js:12 | an integer prints as nonempty digit text without leading zeros, and `"0"` exactly for zero |
| Decimal.ValueOf | poi.js:10-11 | `Number` on digit text; `ValueOfPrint`, `PrintOfValue` and `LeadingZeros` are its partners |
| Decimal.ValueOfPrint | poi.js:10-12 | `Number` reads printed text back as the same integer |
| Decimal.PrintOfValue | kc3kai.js:9-10 | digit text without leading zeros prints back as itself |
| Decimal.CanonicalIsPositive | kc3kai.js:9-10 | digit text without leading zeros that does not start with `0` denotes a positive number |
| Decimal.LeadingZero | poi.js:10-11 | one leading zero does not change the number |
| Decimal.LeadingZeros | poi.js:10-11 | any run of leading zeros does not change the number |
| Decimal.PrintSameIff | kc3kai.js:9-10 | two digit texts print the same exactly when they denote the same number |
| Json.Element | kc3kai.js:15 | JavaScript's `v[i]` on arrays, strings and objects, `undefined` as none; `ElementOfObject` is its partner |
| Json.ElementOfObject | kc3kai.js:15 | on an object, `v[i]` reads the property named by the canonical decimal text of `i` |
| Dicts.Dict.Put | poi.js:12 | `o[k] = v` stores `v` under `k` and leaves every other key and value alone; a new key goes last, an existing key keeps its place; validity is kept |
| Dicts.Empty | poi.js:6 | `{}` has no keys and no fields |
| Dicts.PutNewKey | poi.js:12 | storing a key that is not yet present appends it to the key list |
| Dicts.ValidSize | poi.js:6-13 | a valid object has as many fields as keys |
| Dicts.DistinctCard | poi.js:6-13 | a duplicate-free key list has as many distinct keys as entries |

## Left out

- `rasterize.js`, which renders map images, is not part of this model.
- File-system I/O is not modelled. `fs.walkSync` is the `walk` parameter, whose order is the walk order. `fs.readJSONSync` is represented by content that is already parsed. What `fs.writeJSONSync` writes is not modelled, and neither is its indentation.
- The normaliser reads `./poi/final.json` from disk; `Pipeline` hands it the aggregated object in memory instead.
- Running the normaliser twice gives byte-identical output. That is a property of JSON serialisation, which is not modelled.
- Decimal.ValueOf: reads digit text as an unbounded integer. JavaScript's `Number` rounds beyond 2^53, so two very long digit groups can print the same in the script but not in the model.
- Normalizer.HasNumericHalves: the model requires digit text in the first two parts of a normalised key. `Number` on other text (signs, spaces, decimal points, exponents) is not modelled. Every key the aggregator writes meets this requirement (`Pipeline.AggregatedIsNormalizable`).
- A second part that is present but empty, as in `"1-"`, reads as `Number("") = 0`, as in JavaScript.
- There is no check that fails loudly on non-integer input: the pattern lets only digit groups through, so none is needed.
- Normalizer.NormalizeRoutes: requires every kept route to start with an integer index of a spot that exists and is not `null`. For most other first elements, such as a negative or out-of-range number, a boolean or non-numeric text, `spots[r[0]][2]` throws a `TypeError` and the script stops. That crash is not modelled as an error result.
- Normalizer.NormalizeRoutes: some other first elements do not throw, because JavaScript turns them into the property name of a spot. Examples are numeric text (`"1"`) and a one-element array (`[1]`). The script accepts these routes; the model's requires excludes them.
- JSON numbers are integers in the model (`Json.Value`). A fractional number cannot be represented. As a first element, such a number names no spot, so `spots[r[0]][2]` throws.
- Every aggregated entry is a `Normalizer.Cell`, which always has a `route` object and a `spots` array. An entry without `route` cannot be represented, and on it `Object.keys(undefined)` throws at `kc3kai.js:12`. An entry without `spots` is represented by an empty array. It normalises only when every route starts at `null` or is empty, which is also when the script does not throw.
- A spot without a third field is fine: `undefined !== 'start'`, so the route is kept unchanged. `PointsAtSpot` therefore does not ask for a third field.
- Route values are modelled as arrays. A route value that is a string or an object, where `r[0]` means something else, is not modelled.
- Spots are modelled as an array. `spots` given as an object with numeric keys is not modelled.
- The script's `r[0] = 'Start'` changes the route array inside `poi` in place. The model builds a new sequence instead, so aliasing is not modelled. No later code reads `poi`.
- The order of route ids inside a world is not modelled: a world is a `map`. JavaScript would also list integer-like ids first.
- World labels and aggregated keys are never integer-like, so `Dicts.Dict.Put`'s append-at-the-end order is JavaScript's order for them.
- A key named `__proto__` would not become an own property in JavaScript; this case is not modelled.
- `path.basename` is modelled with POSIX `/` separators only. Windows `\` separators are not modelled.
- The regular expression in the comment at `kc3kai.js:23-25` is an editor search-and-replace note, not code, and is not modelled.
- A matching file is not guaranteed to contribute exactly once: `007_02.json` and `7_2.json` share the key `"7-2"`, and the later one wins (`Aggregator.LeadingZerosDropped`, `Aggregator.AggregatedLastWins`).
