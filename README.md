# scouttwang configuration core in Dafny

This project models the core of the `scouttwang` utilities, which bind nested
configuration mappings to structured records (Python dataclasses), and proves
properties of that model. It covers five parts:

- **Dict flattening** (`flatdict`). `flatten_dict` turns a nested mapping into
  a flat one whose keys are dot-joined paths. `flatdict_to_hierarchical`
  splits the keys on `.` and rebuilds the nesting.
- **Record materialisation** (`dataclass_utils.ops`).
  - `field_default` resolves a field's default.
  - `dataclass_defaults` collects the defaults of the non-nested fields.
  - `dataclass_from_flatdict` and `dataclass_from_dict` build a record by
    recursion over its schema.
  - The record's constructor fails when a required field is missing.
- **Command-line arguments** (`dataclass_utils.parser`).
  - The `parser_add_*` functions become a function from a record schema to
    the list of `add_argument` calls it makes.
  - `ConfigLoader.load` chooses a decoder by file extension.
  - `DataclassParser.parse_args` merges configuration files and the
    command-line namespace, then builds the record.
- **Peekable iterator** (`iterators`). `Peekable` has a one-slot lookahead
  cache. `iterator_length` counts what is left of an iterator.

Modules:

- `Values`: configuration values, errors and results.
- `PyDict`: Python's insertion-ordered `dict` as a sequence of key/value
  pairs. It has `get`, item assignment and `update`.
- `FlatDict`: flattening and unflattening.
- `FlatDictRoundTrip`: the round trip between the two.
- `DataclassOps`: record materialisation.
- `Parser`: argument generation, the loader and `parse_args`.
- `Iterators`: the iterator classes.

How the model represents the source:

- **Exceptions.** Python exceptions become `Err` results:
  - `KeyError`, `TypeError`, `AttributeError`, `IndexError`, `ValueError` and
    `StopIteration` keep their names.
  - A dataclass constructor called without its required arguments raises a
    `TypeError` naming them. That is `MissingArguments(names)`.
  - A dataclass constructor called with a keyword that names no field raises
    a `TypeError` naming it. That is `UnexpectedArgument(keyword)`.
- **Schemas.** A record schema is a sequence of `Field(name, ty, default,
  factory)`.
  - The factory is represented by the value it returns.
  - `TRecord(schema)` marks a nested dataclass type.
  - `TBool`, `TTuple(args)` and `TEllipsis` are the types the argument
    generator distinguishes. Every other type is an opaque `TScalar(name)`.
- **Records.** A constructed record is a map from field names to values or
  nested records.
- **Iterators.**
  - The wrapped iterator is a `Cursor` object over a fixed sequence.
  - `Peekable` is a class with the source's fields `it` and `v`, updated in
    place by `peek` and `__next__`.
  - The loops of `flatdict_to_hierarchical`, `_inner_flatten`,
    `dataclass_defaults`, the two record builders, `parse_args` and
    `iterator_length` are methods with loops. Each is proved equal to a
    function that its lemmas are about.
  - `_inner_setitem` walks a reference into the nested dicts. It is the
    recursive function `FlatDict.SetPath` over nested mapping values.

## Model

| member | source | states |
|---|---|---|
| PyDict.Get | src/scouttwang/dataclass_utils/ops.py:41 | `d.get(k)`: the value of the first entry with key `k`; `GetKeys` and `PutGet` state its behaviour |
| PyDict.Put | src/scouttwang/flatdict/__init__.py:9 | `d[k] = v`: replaces the value of an existing key in place, else appends; `PutKeys`, `PutGet` and `PutFresh` state its behaviour |
| PyDict.Update | src/scouttwang/dataclass_utils/parser/__init__.py:116 | `d.update(e)`: assigns each entry of `e` in order; `UpdateGet` and `UpdateKeys` state its behaviour |
| PyDict.GetKeys | src/scouttwang/flatdict/__init__.py:8 | `key in entry` holds exactly when `get` finds a value under `key`, and the value found is an entry of the mapping |
| PyDict.PutKeys | src/scouttwang/flatdict/__init__.py:9 | `entry[key] = value` keeps the existing keys in their order and appends `key` only when it is new |
| PyDict.GetLastKeys | src/scouttwang/flatdict/__init__.py:24 | entries give a key a last value exactly when it is one of their keys |
| PyDict.PutGet | src/scouttwang/flatdict/__init__.py:11 | after `d[k] = v`, `k` holds `v` and every other key keeps its value |
| PyDict.PutFresh | src/scouttwang/flatdict/__init__.py:26 | assigning a key that is not present appends it at the end, in insertion order |
| PyDict.UpdateGet | src/scouttwang/flatdict/__init__.py:24 | after `d.update(e)`, a key of `e` holds the last value `e` gives it, and every other key keeps its value in `d` |
| PyDict.UpdateKeys | src/scouttwang/flatdict/__init__.py:24 | the keys after `update` are those of both mappings, and distinct keys stay distinct |
| FlatDict.Split | src/scouttwang/flatdict/__init__.py:15 | `key.split(".")` is never empty and no piece contains a dot |
| FlatDict.JoinSplit | src/scouttwang/flatdict/__init__.py:15 | joining the pieces of `key.split(".")` with dots gives the key back |
| FlatDict.SplitJoin | src/scouttwang/flatdict/__init__.py:15 | splitting a dot-join of dot-free segments gives the segments back |
| FlatDict.JoinInjective | src/scouttwang/flatdict/__init__.py:15 | distinct paths of dot-free segments have distinct flat keys |
| FlatDict.SetPath | src/scouttwang/flatdict/__init__.py:5-11 | `_inner_setitem(keys, value)`, recursing into one nested mapping per key; the four lemmas below state its behaviour |
| FlatDict.SetPathPlaces | src/scouttwang/flatdict/__init__.py:5-11 | after a successful `_inner_setitem(keys, value)`, the value is found at the nested path `keys` |
| FlatDict.SetPathCreatesMappings | src/scouttwang/flatdict/__init__.py:7-10 | every proper prefix of the path then names a mapping, created when missing |
| FlatDict.SetPathElsewhere | src/scouttwang/flatdict/__init__.py:8-11 | a path neither on nor under `keys` keeps its value, so existing intermediate mappings are reused and not replaced |
| FlatDict.SetPathSucceeds | src/scouttwang/flatdict/__init__.py:7-11 | `_inner_setitem` succeeds exactly when no proper prefix of the path names a non-mapping; otherwise it raises TypeError |
| FlatDict.SetPathsElsewhere | src/scouttwang/flatdict/__init__.py:13-15 | a path that no key of the loop touches keeps its value |
| FlatDict.SetPathsLastWins | src/scouttwang/flatdict/__init__.py:14-15 | an entry that no later entry overrides ends at its path, so of two keys with the same path the later wins |
| FlatDict.FlatdictToHierarchical | src/scouttwang/flatdict/__init__.py:4-16 | the loop over the flat mapping computes `Unflatten`, which the lemmas describe |
| FlatDict.UnflattenPlaces | src/scouttwang/flatdict/__init__.py:4-16 | each flat entry not overridden by a later one appears at the nested path its key splits into |
| FlatDict.UnflattenTopLevel | src/scouttwang/flatdict/__init__.py:11-15 | a flat key without a dot becomes a top-level entry mapped to its value |
| FlatDict.InnerFlatten | src/scouttwang/flatdict/__init__.py:20-27 | the loop of `_inner_flatten(kwargs, prefix)` with the intended recursion computes `FlattenFrom` |
| FlatDict.FlattenDict | src/scouttwang/flatdict/__init__.py:19-29 | `flatten_dict(d)` computes `Flatten(d)` |
| FlatDict.FlattenIsFlat | src/scouttwang/flatdict/__init__.py:21-27 | the result has no mapping values and no repeated key |
| FlatDict.FlattenFlatIsIdentity | src/scouttwang/flatdict/__init__.py:22-26 | a mapping with no mapping values, lists included, flattens to exactly its own entries |
| FlatDict.FlattenIdempotent | src/scouttwang/flatdict/__init__.py:19-29 | flattening a flat mapping changes nothing, and flattening twice equals flattening once |
| FlatDict.FlattenNested | src/scouttwang/flatdict/__init__.py:23-24 | a mapping value's flattened entries reappear with keys prefixed by `key + "."` |
| FlatDict.FlattenPrefix | src/scouttwang/flatdict/__init__.py:23-26 | flattening under prefix `q + p` is flattening under `p` with `q` put before every key |
| FlatDict.FlattenAsWritten | src/scouttwang/flatdict/__init__.py:19-29 | `flatten_dict` as written, where the recursive call passes two arguments to the one-parameter `flatten_dict`; `FlattenAsWrittenFails` states its behaviour |
| FlatDict.FlattenAsWrittenFails | src/scouttwang/flatdict/__init__.py:24 | as written, any mapping value makes `flatten_dict` raise TypeError, and without one it agrees with the intended version |
| FlatDict.FlattenAsWrittenCounterexample | src/scouttwang/flatdict/__init__.py:24 | `{"a": {"b": 1}}` raises as written and flattens to `{"a.b": 1}` as intended |
| FlatDictRoundTrip.FlattenLeaves | src/scouttwang/flatdict/__init__.py:20-27 | flattening lists the leaves of the tree in order, each under its dot-joined path |
| FlatDictRoundTrip.SetPathsLeaves | src/scouttwang/flatdict/__init__.py:13-15 | setting the leaves of a tree (distinct dot-free keys, no empty nested map) in order rebuilds it |
| FlatDictRoundTrip.RoundTrip | src/scouttwang/flatdict/__init__.py:4-29 | `flatdict_to_hierarchical(flatten_dict(m)) == m` when no key contains a dot, keys are distinct and no nested map is empty |
| DataclassOps.Names | src/scouttwang/dataclass_utils/ops.py:10 | the field names in declaration order |
| DataclassOps.FieldDefault | src/scouttwang/dataclass_utils/ops.py:20-25 | the literal default if declared, else the factory's result, else the caller's fallback |
| DataclassOps.DataclassDefaults | src/scouttwang/dataclass_utils/ops.py:8-17 | the loop over the fields computes `Defaults` |
| DataclassOps.DefaultsFromGet | src/scouttwang/dataclass_utils/ops.py:10-16 | from field `i` on, the loop sets each field with a non-None, non-record default to it and leaves every other name unchanged |
| DataclassOps.DefaultsFromKeys | src/scouttwang/dataclass_utils/ops.py:10-16 | the loop adds no key other than a field name |
| DataclassOps.DefaultsGet | src/scouttwang/dataclass_utils/ops.py:10-16 | `dataclass_defaults` holds exactly the non-record fields whose resolved default is not None, with that default, and never a record field |
| DataclassOps.Unbound | src/scouttwang/dataclass_utils/ops.py:45 | the missing names are none exactly when every field is given or has a default, and each one is a field with neither argument nor default |
| DataclassOps.Unexpected | src/scouttwang/dataclass_utils/ops.py:45 | the first keyword that names no field; none exactly when every keyword is a field name |
| DataclassOps.Construct | src/scouttwang/dataclass_utils/ops.py:45 | `dataclass(**kwargs)` succeeds exactly when every keyword is a field name and every field is given or has a default; a keyword that is no field raises a TypeError naming it, checked first; otherwise a TypeError names at least one field, each a field with neither argument nor default |
| DataclassOps.ConstructUnexpected | src/scouttwang/dataclass_utils/ops.py:45 | with one keyword that is no field, construction raises the TypeError naming that keyword |
| DataclassOps.BindGet | src/scouttwang/dataclass_utils/ops.py:45 | each field is bound to its argument if given, else to its default |
| DataclassOps.BindKeys | src/scouttwang/dataclass_utils/ops.py:45 | the constructed record binds field names only |
| DataclassOps.ConstructGet | src/scouttwang/dataclass_utils/ops.py:45 | a constructed record holds every field, each bound to its argument, else its default |
| DataclassOps.DataclassFromFlatdict | src/scouttwang/dataclass_utils/ops.py:31-45 | the loop of `dataclass_from_flatdict` computes `FromFlat` |
| DataclassOps.FlatStepGet | src/scouttwang/dataclass_utils/ops.py:34-43 | one turn of the loop sets only the current field: a nested record from its sub-mapping, or the flat value if present |
| DataclassOps.FlatArgsKeep | src/scouttwang/dataclass_utils/ops.py:34-43 | the field loop from `i` on leaves alone every name that no field from `i` on has |
| DataclassOps.FlatArgsGet | src/scouttwang/dataclass_utils/ops.py:34-43 | after the loop from `i` on, each later field holds its nested record or its flat value if present, and each earlier one is unchanged |
| DataclassOps.FromFlatScalar | src/scouttwang/dataclass_utils/ops.py:40-43 | a scalar field takes the flat value if present, and otherwise keeps its default |
| DataclassOps.FromFlatNested | src/scouttwang/dataclass_utils/ops.py:35-39 | a nested field holds the record built from its sub-mapping |
| DataclassOps.FromFlatFields | src/scouttwang/dataclass_utils/ops.py:31-45 | the built record has exactly the schema's fields |
| DataclassOps.FlatArgsNames | src/scouttwang/dataclass_utils/ops.py:32-43 | the field loop assigns field names only, so the keywords passed to the constructor are all field names |
| DataclassOps.FromFlatErrors | src/scouttwang/dataclass_utils/ops.py:31-45 | `dataclass_from_flatdict` fails only with a missing required field, here or in a nested record; it never passes an unexpected keyword |
| DataclassOps.FromFlatMissing | src/scouttwang/dataclass_utils/ops.py:41-45 | a required scalar field absent from the flat mapping makes construction fail with a missing-field TypeError |
| DataclassOps.SubDictGet | src/scouttwang/dataclass_utils/ops.py:36-38 | with the intended `name.` test, the sub-mapping holds `k` exactly as the flat mapping holds `name.k` |
| DataclassOps.SubDictAsWritten | src/scouttwang/dataclass_utils/ops.py:36-38 | the sub-mapping with the `startswith(field.name)` test as written; `SubDictAsWrittenLeaks` states its behaviour |
| DataclassOps.SubDictAsWrittenLeaks | src/scouttwang/dataclass_utils/ops.py:38 | as written, field `inner` takes key `inner_s` as `s`, while the intended test takes nothing |
| DataclassOps.DataclassFromDict | src/scouttwang/dataclass_utils/ops.py:48-59 | the loop of `dataclass_from_dict` computes `FromDict` |
| DataclassOps.FieldFromDict | src/scouttwang/dataclass_utils/ops.py:52-57 | one turn of the loop of `dataclass_from_dict` |
| DataclassOps.DictStepGet | src/scouttwang/dataclass_utils/ops.py:52-57 | one turn sets only the current field: the record built from `kwargs[name]`, or the value if present |
| DataclassOps.DictArgsGet | src/scouttwang/dataclass_utils/ops.py:51-57 | after the loop from `i` on, each later field holds its nested record or value, and each earlier one is unchanged |
| DataclassOps.FromDictScalar | src/scouttwang/dataclass_utils/ops.py:54-57 | a scalar field takes the mapping's value if present, and otherwise keeps its default |
| DataclassOps.FromDictNested | src/scouttwang/dataclass_utils/ops.py:52-53 | a nested field's key must be present, and the field holds the record built from its value |
| DataclassOps.DictArgsNames | src/scouttwang/dataclass_utils/ops.py:49-57 | the field loop assigns field names only, so the keywords passed to the constructor are all field names |
| DataclassOps.FromDictErrors | src/scouttwang/dataclass_utils/ops.py:48-59 | `dataclass_from_dict` never passes an unexpected keyword to a constructor, here or in a nested record |
| DataclassOps.FromDictMissing | src/scouttwang/dataclass_utils/ops.py:55-59 | a required scalar field absent from the mapping makes construction fail |
| DataclassOps.FromDictNotMapping | src/scouttwang/dataclass_utils/ops.py:53-55 | a non-mapping input raises TypeError at a record field's `kwargs[name]` and AttributeError at a scalar field's `kwargs.get` |
| Parser.AddArgument | src/scouttwang/dataclass_utils/parser/__init__.py:23-42 | `parser_add_argument`: a record type recurses, `bool` gives the flag pair, `tuple[T, ...]` the extending argument, a short tuple IndexError, any other type one stored argument; the field lemmas below state each case |
| Parser.DataclassArguments | src/scouttwang/dataclass_utils/parser/__init__.py:45-52 | `parser_add_dataclass_arguments(parser, dataclass, prefix)`; `FieldsArgumentsDests` and `FieldsArgumentsGroups` state its behaviour |
| Parser.FieldArguments | src/scouttwang/dataclass_utils/parser/__init__.py:48-52 | one turn of its field loop: a nested record in a group titled by the field, else `parser_add_argument` with `field_default(field, default=no_default)` |
| Parser.FieldsArguments | src/scouttwang/dataclass_utils/parser/__init__.py:47-52 | the field loop, concatenating each field's arguments in declaration order |
| Parser.AddBoolArgument | src/scouttwang/dataclass_utils/parser/__init__.py:64-68 | `--dest` stores true and `--not_dest` stores false into the same dest, in one mutually exclusive group that is required exactly when there is no default |
| Parser.AddTupleArgument | src/scouttwang/dataclass_utils/parser/__init__.py:55-61 | `--dest` extends with one or more values of the element type, with the default if given |
| Parser.BoolFieldArguments | src/scouttwang/dataclass_utils/parser/__init__.py:64-68 | a bool field yields exactly its two flags, whose group is required exactly when the field has neither a default nor a factory |
| Parser.TupleFieldArguments | src/scouttwang/dataclass_utils/parser/__init__.py:33-34 | a `tuple[T, ...]` field yields one extending argument of element type T that carries the field's default |
| Parser.StoreFieldArguments | src/scouttwang/dataclass_utils/parser/__init__.py:37-41 | any other non-record field yields one stored `--dest` argument of its type, no nargs and no mutex group, whose default is the field's resolved default, present exactly when the field has a default or a factory |
| Parser.RecordFieldArguments | src/scouttwang/dataclass_utils/parser/__init__.py:49-51 | a nested record field yields the nested schema's arguments under `name.`, in an argument group titled `name` |
| Parser.AddArgumentErrors | src/scouttwang/dataclass_utils/parser/__init__.py:23-42 | `parser_add_argument` can fail only with IndexError, at `type_args[1]` |
| Parser.FieldsArgumentsErrors | src/scouttwang/dataclass_utils/parser/__init__.py:45-52 | argument generation for a record, nested records included, can fail only with IndexError |
| Parser.ShortTupleFails | src/scouttwang/dataclass_utils/parser/__init__.py:33 | a tuple type with fewer than two arguments makes spec generation raise IndexError, whatever the other fields are, nested records included |
| Parser.AddArgumentLeaf | src/scouttwang/dataclass_utils/parser/__init__.py:30-41 | every argument a non-record type yields writes `dest` |
| Parser.FieldsArgumentsDests | src/scouttwang/dataclass_utils/parser/__init__.py:45-52 | the arguments' dests are exactly the dot-joined paths of the leaf fields |
| Parser.FieldDests | src/scouttwang/dataclass_utils/parser/__init__.py:48-52 | one field's arguments write exactly its own leaf paths |
| Parser.FieldsArgumentsGroups | src/scouttwang/dataclass_utils/parser/__init__.py:50 | every argument sits inside the argument groups of the records that enclose it |
| Parser.SpecsDests | src/scouttwang/dataclass_utils/parser/__init__.py:120 | the parser `parse_args` builds writes exactly the leaf paths of its record |
| Parser.RFind | src/scouttwang/dataclass_utils/parser/__init__.py:81 | the index of the last occurrence of a character, or -1 |
| Parser.Extension | src/scouttwang/dataclass_utils/parser/__init__.py:81 | `os.path.splitext` gives an empty extension, or a suffix of the path that starts with its only dot and holds no slash |
| Parser.ExtensionOf | src/scouttwang/dataclass_utils/parser/__init__.py:81 | a file name ending in `.e` after a character other than a dot or slash has extension `.e` |
| Parser.HiddenFileHasNoExtension | src/scouttwang/dataclass_utils/parser/__init__.py:81 | leading dots of a file name are not an extension: `.json` and `conf/.yml` have none |
| Parser.ChooseDecoder | src/scouttwang/dataclass_utils/parser/__init__.py:83-89 | `.json` selects JSON, `.yaml` and `.yml` select YAML and `.toml` selects TOML, each if and only if; any other extension raises ValueError |
| Parser.ChooseDecoderByName | src/scouttwang/dataclass_utils/parser/__init__.py:81-89 | the decoder is chosen by the final extension of the file name |
| Parser.Load | src/scouttwang/dataclass_utils/parser/__init__.py:80-89 | `load` returns the document exactly when its extension selects a decoder, and otherwise raises ValueError |
| Parser.DataclassParser.constructor | src/scouttwang/dataclass_utils/parser/__init__.py:104-105 | the parser keeps its record type |
| Parser.DataclassParser.ParseArgs | src/scouttwang/dataclass_utils/parser/__init__.py:107-124 | the merge loop and the build compute `ParseArgsResult`: configuration files in order, then the namespace, then `dataclass_from_flatdict` |
| Parser.MergeConfigs | src/scouttwang/dataclass_utils/parser/__init__.py:113-116 | loads each configuration file in order and updates the flat mapping with its flattened document; `MergeConfigsGet` states the result |
| Parser.MergeConfigsGet | src/scouttwang/dataclass_utils/parser/__init__.py:114-116 | in the merged mapping, a key holds the value of the last configuration file that sets it |
| Parser.ParsePriority | src/scouttwang/dataclass_utils/parser/__init__.py:116-122 | the flat mapping holds the command line's value for a key if it has one, else the last configuration file's |
| Parser.ParseArgsScalar | src/scouttwang/dataclass_utils/parser/__init__.py:107-124 | for any namespace, a top-level scalar field of the parsed record holds the namespace's value, else the last configuration file's, else its default; in the program the namespace always holds the field's dest, so only the first case arises |
| Parser.SeedDestsKeep | src/scouttwang/dataclass_utils/parser/__init__.py:118-121 | argparse's seeding leaves a dest that already has a value alone, and gives no value to a dest that no argument writes |
| Parser.SeedDestsFirst | src/scouttwang/dataclass_utils/parser/__init__.py:118-121 | a dest is seeded with the default of the first argument added for it |
| Parser.SeedRestGet | src/scouttwang/dataclass_utils/parser/__init__.py:119 | a `set_defaults` key that no argument writes is seeded with its `set_defaults` value |
| Parser.SeededKeys | src/scouttwang/dataclass_utils/parser/__init__.py:118-122 | the namespace holds every argument's dest and every `set_defaults` key, and nothing else |
| Parser.SeededGet | src/scouttwang/dataclass_utils/parser/__init__.py:118-121 | the namespace seeds each dest with its first argument's own default, else the `set_defaults` value, else the action's built-in default |
| Parser.BoolSeedIgnoresDefault | src/scouttwang/dataclass_utils/parser/__init__.py:64-68 | the bool flags pass no `default=`, so a bool dest is seeded with the configuration value, else store_true's False, whatever the field declares |
| Parser.StoreSeedPrefersDefault | src/scouttwang/dataclass_utils/parser/__init__.py:37-41 | a stored argument is seeded with the field's default when it has one, which outranks the configuration value; else with the configuration value; else None |
| Parser.ParseArgsFromNamespace | src/scouttwang/dataclass_utils/parser/__init__.py:118-124 | when the namespace holds every dest, as argparse ensures, a top-level scalar field of the parsed record holds the namespace's value |
| Parser.BoolDefaultLost | src/scouttwang/dataclass_utils/parser/__init__.py:64-68 | `flag: bool = True`, set neither on the command line nor in a file, is built as False |
| Parser.RequiredScalarBuiltWithNone | src/scouttwang/dataclass_utils/parser/__init__.py:37-41 | a required `x: int` set nowhere is built with None instead of failing |
| Iterators.Cursor.Next | src/scouttwang/iterators/__init__.py:19 | `next(it)` returns the next element and moves past it, or raises StopIteration once the iterator is exhausted |
| Iterators.First | src/scouttwang/iterators/__init__.py:19-25 | the element `peek` or `next` reports for a pending sequence, or StopIteration when there is none |
| Iterators.Rest | src/scouttwang/iterators/__init__.py:22-26 | the pending sequence after `next` has lost its first element |
| Iterators.Peekable.constructor | src/scouttwang/iterators/__init__.py:12-15 | wraps the iterator with an empty cache |
| Iterators.Peekable.Peek | src/scouttwang/iterators/__init__.py:17-20 | returns the cached element, else takes the next one into the cache; when no element is None, repeated peeks take at most one element and nothing pending changes |
| Iterators.Peekable.Next | src/scouttwang/iterators/__init__.py:22-26 | empties the cache and returns what it held, else the next element; when no element is None, it returns and removes the first pending element |
| Iterators.Interleave | src/scouttwang/iterators/__init__.py:11-26 | whatever the interleaving of `peek` and `next`, and when no element is None, `next` returns the elements in order with none skipped or repeated; StopIteration comes only once all are taken |
| Iterators.IteratorLength | src/scouttwang/iterators/__init__.py:29-30 | `iterator_length` consumes the iterator and returns how many elements it had left |
| Iterators.PeekedNoneIsSkipped | src/scouttwang/iterators/__init__.py:17-26 | over the elements None, 1: `peek` reports None, then `next` returns 1 and then raises StopIteration |
| Iterators.CorrectedPeekable.Peek | src/scouttwang/iterators/__init__.py:17-20 | with a cache flag, `peek` reports the first pending element and changes nothing pending, whatever the elements |
| Iterators.CorrectedPeekable.Next | src/scouttwang/iterators/__init__.py:22-26 | with a cache flag, `next` returns and removes the first pending element, whatever the elements |
| Iterators.CorrectedKeepsNone | src/scouttwang/iterators/__init__.py:17-26 | over the elements None, 1: the corrected `next` returns the peeked None, then 1 |

## Left out

- Reading files and decoding them with `json.load`, `yaml.safe_load` and `toml.load` is not modelled. A configuration file is a path paired with the document its decoder would produce. The model checks only the extension dispatch.
- argparse's own tokenising and parsing are not modelled: `parse_known_args`, `parse_args` and `set_defaults`. `ParseArgs` takes the namespace they produce as a flat mapping parameter. The model also takes the list given to `--conf` as a parameter, and absence of the option as None.
  - How argparse seeds the namespace before it reads the command line is modelled separately, by `Parser.Seeded`. An argument gets a `set_defaults` value only when it has no default of its own. So a non-bool field's declared default outranks a configuration file's value for that field (`StoreSeedPrefersDefault`). This contradicts the documented priority of "field default < configuration file < command line".
  - The bool flags pass no `default=`. A bool field's declared default therefore never reaches the namespace (`BoolSeedIgnoresDefault`, `BoolDefaultLost`).
  - What the command line then overwrites is not modelled. Neither are the mutually exclusive group's required check, the type conversion of string defaults, and the way `extend` appends given values to a default list.
- Parser.ParseArgsScalar: covers only top-level scalar fields. Nested fields go through `SubDict`, whose behaviour `DataclassOps.SubDictGet` states.
- Parser.ParseArgsScalar: in the program the namespace holds every dest (`SeededKeys`). So its "else the last configuration file's, else its default" branches never arise for a field that has an argument, and nor does a missing-field error. `ParseArgsFromNamespace` states the case that does. A required scalar given nowhere is built with None (`RequiredScalarBuiltWithNone`), and a bool field's declared default is lost.
- argparse's error for conflicting option strings is not modelled. An example is a bool field `x` next to a field `not_x`, which both add `--not_x`. Spec generation here succeeds for such a schema.
- Absent `--conf`: iterating `ns.conf` when it is None raises TypeError, and this error is kept; it is not treated as an empty list.
- Python reflection is replaced by the explicit `Schema` datatype: `typing.get_origin`, `typing.get_args`, `dataclasses.fields` and `is_dataclass`. A default factory is represented by the value it returns. Its side effects and repeated calls are not modelled.
- Scalar type conversion of command-line values is not modelled; it includes `float` and other `type=` callables. Scalar types are opaque tags, and floating-point values are not part of `Value`.
- Logging (`log.info`, `log.debug`) is left out; it has no effect on results.
- FlatDict.FlattenDict: models the evidently intended recursion of `_inner_flatten`. The code as written is `FlattenAsWritten` (see Findings).
- DataclassOps.FromFlat: uses the corrected sub-mapping test `name.`. The code as written is `SubDictAsWritten` (see Findings).
- FlatDict.FlatdictToHierarchical: the source walks a reference `entry` into nested dicts and assigns through it. The model rebuilds the nested mapping as a value, so aliasing between shared sub-dicts is not captured.
- Iterators.Cursor: the wrapped iterator is a finite sequence with a position. Infinite iterators, and code that advances `it` behind the Peekable's back, are not modelled.
- Iterators.Interleave: its in-order promise, like that of `Peekable.Peek` and `Peekable.Next`, holds only when no element is None. `CorrectedPeekable` has it for all elements.
- The `Peek` protocol class is left out: it is an interface with no behaviour.
- Scalar values are not checked against field types: the source does not check them, and neither does the record constructor.

## Findings

| source | as written | input that shows it | evidently intended | confidence | as-written member | corrected member |
|---|---|---|---|---|---|---|
| src/scouttwang/flatdict/__init__.py:24 | calls `flatten_dict(value, f"{prefix+key}.")`, the one-parameter outer function, with two arguments | `flatten_dict({"a": {"b": 1}})` raises TypeError | recurse with `_inner_flatten(value, prefix + key + ".")`, giving `{"a.b": 1}` | high; not executed | FlatDict.FlattenAsWrittenCounterexample | FlatDict.FlattenNested |
| src/scouttwang/dataclass_utils/ops.py:38 | selects keys with `k.startswith(field.name)` while stripping `len(field.name) + 1` characters | field `inner` and flat key `inner_s` give the nested record the key `s` | select with `k.startswith(prefix)`, where prefix is `field.name + "."` | high; not executed | DataclassOps.SubDictAsWrittenLeaks | DataclassOps.SubDictGet |
| src/scouttwang/iterators/__init__.py:15-26 | uses None in `self.v` both for an empty cache and for a cached element that is None | over `[None, 1]`: `peek()` gives None, then `next()` gives 1 and the next `next()` raises StopIteration | a separate cache-full flag, so `next()` returns the peeked None | medium; not executed | Iterators.PeekedNoneIsSkipped | Iterators.CorrectedPeekable.Next |
