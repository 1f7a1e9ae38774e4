# graphql-codegen resolution pipeline in Dafny

graphql-codegen reads a GraphQL schema together with a `codegen.yaml` configuration and generates Python Pydantic model classes. This project models the part between the parsed schema and the templates, and proves what that part promises:

- **Schema model.** `parse_schema_info` turns graphql-core's type map into the schema model:
  - scalars, enums, and object, interface and union types, in type-map order;
  - per field, the unwrapped type name with its list and required flags (`extract_type_name`);
  - directive arguments, taken as literal values or as text.
- **Line selection.** `extract_schema_lines` picks lines out of a base schema by a 1-based range list such as `"1-10,15-20,25"`.
- **Type collector.** `collect_types` builds the intermediate representation (IR) that the templates render:
  - it excludes root and `*Input` types;
  - it turns unions into type aliases;
  - it infers the Computable and Expandable mixins and chooses the base classes;
  - it drops fields inherited from interfaces;
  - it splits `@method` fields into methods;
  - it gathers `@static_method` entries and the type-level `@expand` spec;
  - it sets the module-wide import flags and computes the scalar imports.
- **Helpers.**
  - the GraphQL-to-Python type string (`get_python_type`);
  - the per-field directive metadata (`build_field_meta`);
  - decoding of the `into` argument (`parse_into`);
  - removal of `#` comment lines (`strip_hash_comments`).
- **Configuration.** The two validators (package identifier, version lock), the defaults, and the choice of output directory.

Modules, one per source file:
- `Parser`: graphql_codegen/parser.py.
- `TypeCollector`: graphql_codegen/generator/type_collector.py.
- `Utils`: graphql_codegen/generator/utils.py.
- `Config`: graphql_codegen/config.py.
- `Types`: the output IR of graphql_codegen/generator/types.py, plus decoded JSON and the exceptions that abort a run.
- `Text`: the Python string built-ins the code relies on (`split`, `join`, `strip`, `startswith`, `endswith`, `in`, `replace`).
- `Wrappers`: `Option` and `Result`.

Where the source exceptions mean failure, the model returns a `Result`. The collector fails in two cases:
- `json.loads` is given a boolean: it raises TypeError, which `parse_into` does not catch.
- Pydantic gets a boolean where `MethodInfo` expects a string: it raises ValidationError.

Each loop is written as a `method` with invariants and is proved equal to a specification function. The properties are proved as lemmas about those functions.

Two behaviours of the code are worth stating outright:
- **Malformed `into`.** `parse_into` returns `{}` when decoding fails, so a bare function name never comes back as the raw string (`Utils.ParseInto`, `Utils.BareNameGivesEmptyObject`). A boolean argument raises TypeError.
- **Input object types.** `parse_schema_info` has no branch for input object types in the type map, so it drops them: they land in none of the three lists (`Parser.EntryPlacement`).

## Model

| member | source | states |
|---|---|---|
| Parser.ExtractTypeName | graphql_codegen/parser.py:80-101 | `is_required` is true exactly when the outermost wrapper is NonNull; `is_list` is true exactly when the type is a List after peeling at most one outer NonNull |
| Parser.OneListLayer | graphql_codegen/parser.py:90-100 | only one List layer is unwrapped: a list of lists is named by the inner list's text, with is_list true |
| Parser.ElementNullabilityDropped | graphql_codegen/parser.py:95-97 | `[T!]` and `[T]` give the same triple, and so do `[T!]!` and `[T]!` |
| Parser.PlainNamedType | graphql_codegen/parser.py:80-101 | `T` gives `(T, false, false)` and `T!` gives `(T, false, true)` |
| Parser.ExtractRewrap | graphql_codegen/parser.py:80-101 | the triple read back from a rebuilt field type is the triple it was built from |
| Parser.ArgsOfKeys | graphql_codegen/parser.py:158-165 | the args dict has a key exactly for each argument name given |
| Parser.ArgsOfLastWins | graphql_codegen/parser.py:158-165 | with repeated argument names the last one's value is kept; a value is the literal `.value`, otherwise the node's text |
| Parser.DirectivesKeptInOrder | graphql_codegen/parser.py:157-168 | one DirectiveInfo per directive node, in source order, unknown names included |
| Parser.BuildArgs | graphql_codegen/parser.py:158-165 | the argument loop builds exactly the args dict of the specification function |
| Parser.ReadDirectives | graphql_codegen/parser.py:157-168 | the directive loop, written out for fields and again for types, returns the directives in order, each with its args dict |
| Parser.ExtractFields | graphql_codegen/parser.py:145-178 | the field loop yields one FieldInfo per field, in order, using the name, the unwrapped type triple and the directives |
| Parser.SchemaOf | graphql_codegen/parser.py:124-318 | the three lists hold at most one entry per type-map entry, and no `__` name appears in any of them |
| Parser.ParseSchemaInfo | graphql_codegen/parser.py:124-318 | the type-map loop produces exactly the schema model of the specification fold |
| Parser.SchemaOfAppend | graphql_codegen/parser.py:130-318 | the model of two concatenated type maps is the two models' lists concatenated: type-map order is kept |
| Parser.EntryPlacement | graphql_codegen/parser.py:130-144 | a `__` name or an input object lands nowhere, a scalar only among the scalars, an enum only among the enums with its values, and any other type is exactly one entry of the types |
| Parser.AddEntryMerge | graphql_codegen/parser.py:130-318 | adding one more entry after two merged models is adding it to the second |
| Parser.EntryInPlace | graphql_codegen/parser.py:130-318 | each entry contributes its own part between what precedes and what follows it |
| Parser.TypeEntryShape | graphql_codegen/parser.py:199-316 | a union has kind union, no fields and its members in order; objects and interfaces get kind object or interface, keep field order and interface order, and keep the type-level directives in order |
| Parser.SliceBound | graphql_codegen/parser.py:366 | a Python slice bound is adjusted into the range 0 to the length |
| Parser.GatherFailurePersists | graphql_codegen/parser.py:362-370 | once one range raises, the whole extraction raises |
| Parser.GatherAppend | graphql_codegen/parser.py:361-370 | the lines gathered for two lists of pieces are the first list's lines followed by the second's |
| Parser.GatherNoneIff | graphql_codegen/parser.py:361-370 | gathering fails exactly when some item fails |
| Parser.PiecesRaiseIff | graphql_codegen/parser.py:361-370 | the range loop raises exactly when some range raises |
| Parser.SchemaLinesText | graphql_codegen/parser.py:359-372 | `extract_schema_lines` raises exactly when one of the comma-separated ranges raises |
| Parser.RangesInOrder | graphql_codegen/parser.py:359-372 | ranges are taken in the order listed |
| Parser.SpanLines | graphql_codegen/parser.py:363-366 | within the file, `a-b` gives lines a..b inclusive (1-based), and a reversed span gives none |
| Parser.SingleLine | graphql_codegen/parser.py:367-370 | `n` gives line n, and a line past the end raises IndexError |
| Parser.DigitFacts | graphql_codegen/parser.py:364 | a single digit survives `strip` and `int()` reads it as its value |
| Parser.ParseDigit | graphql_codegen/parser.py:369 | `int()` of one digit is that digit |
| Parser.DecimalValue | graphql_codegen/parser.py:364-369 | a number's decimal digits read back as the number |
| Parser.ParseDecimal | graphql_codegen/parser.py:364-369 | `int()` reads any natural number's decimal text as that number |
| Parser.DecimalSpanPiece | graphql_codegen/parser.py:363-366 | for any numbers a and b, the range `"a-b"` selects lines a..b |
| Parser.DecimalLinePiece | graphql_codegen/parser.py:367-370 | for any number n, the range `"n"` selects line n, or raises past the end |
| Parser.LineZeroIsLast | graphql_codegen/parser.py:369-370 | with Python's negative indexing, line `0` selects the last line |
| Parser.ParseRangeExamples | graphql_codegen/parser.py:363-369 | `"1-2"` is the span 1 to 2, and `"5"` is the single line 5 |
| Parser.ExampleOneTwoFive | graphql_codegen/parser.py:359-372 | with 20 lines, `"1-2,5"` gives exactly lines 1, 2 and 5 concatenated |
| Parser.RepeatedRangeRepeats | graphql_codegen/parser.py:359-372 | a repeated range list repeats its lines: no sorting, no de-duplication |
| Parser.ExtractSchemaLines | graphql_codegen/parser.py:346-372 | the range loop returns the concatenation of the selected lines, or fails where `int()`, unpacking or indexing raises |
| Text.ConcatAppend | graphql_codegen/parser.py:372 | `"".join` of a concatenation is the concatenation of the joins |
| Text.JoinSplit | graphql_codegen/generator/utils.py:10-11 | joining what `split` returns gives the text back |
| Text.SplitJoin | graphql_codegen/generator/utils.py:10-11 | splitting a join of separator-free pieces gives the pieces back |
| Text.ReplaceAbsent | graphql_codegen/generator/type_collector.py:152-154 | `replace` leaves a text without the pattern unchanged |
| Text.ReplaceSplit | graphql_codegen/generator/type_collector.py:152-154 | `replace` on `s + t` is `replace` on each part when no occurrence can straddle the boundary |
| Text.ReplaceOneChar | graphql_codegen/generator/type_collector.py:152-154 | `replace` leaves a single character outside the pattern unchanged |
| Text.ReplaceWhole | graphql_codegen/generator/type_collector.py:152-154 | replacing a whole text by its quoted form yields the quoted form |
| Config.ValidatePackageName | graphql_codegen/config.py:30-36 | the package name is returned unchanged exactly when it is an identifier, and otherwise it is rejected |
| Config.ValidateVersion | graphql_codegen/config.py:38-44 | exactly `"0.1"` is accepted, unchanged; every other version is rejected |
| Config.Validate | graphql_codegen/config.py:9-44 | accepted, unchanged, exactly when the package is an identifier and the version is `"0.1"`; otherwise one or two errors, the package error first |
| Config.ValidateAcceptsExactly | graphql_codegen/config.py:9-44 | a configuration is accepted unchanged exactly when both validators accept, and every failing validator is reported |
| Config.DefaultsAreEmpty | graphql_codegen/config.py:15-28 | defaults: no scalar mappings, no templates, flat_output and stdout false, no schema_lines, no base_schema |
| Config.IdentifierExamples | graphql_codegen/config.py:34-35 | the keyword `class` passes the identifier check; `my-pkg` and the empty name fail |
| Config.GetOutputPath | graphql_codegen/config.py:66-73 | the output directory is named after the package, is as absolute as the schema directory, and sits in `outputs` under a test-input directory |
| Config.OutputPathPlacement | graphql_codegen/config.py:66-73 | the output path is parent.parent/outputs/package when the path text contains `test/inputs`, otherwise parent/package |
| Config.OutputPathForTestInputs | graphql_codegen/config.py:68-71 | `test/inputs/smoothies` with package `smoothies` writes to `test/outputs/smoothies` |
| Utils.StripHashComments | graphql_codegen/generator/utils.py:8-11 | no line of the result is a comment line |
| Utils.KeptLinesAppend | graphql_codegen/generator/utils.py:11 | filtering the lines keeps their order: the filter of a concatenation is the concatenation of the filters |
| Utils.KeptLinesAreNotComments | graphql_codegen/generator/utils.py:11 | every line kept is an input line and not a comment line |
| Utils.KeptLinesWithoutComments | graphql_codegen/generator/utils.py:11 | lines without comments are all kept |
| Utils.StripKeepsExactlyNonComments | graphql_codegen/generator/utils.py:8-11 | the output's lines are exactly the input's lines whose stripped text does not start with `#`, in order |
| Utils.StripIsIdempotent | graphql_codegen/generator/utils.py:8-11 | removing comment lines twice equals removing them once |
| Utils.ParseInto | graphql_codegen/generator/utils.py:14-19 | returns the decoded value, or `{}` when decoding fails; a boolean argument raises TypeError |
| Utils.BareNameGivesEmptyObject | graphql_codegen/generator/utils.py:14-19 | a bare function name such as `calcCalories` becomes `{}`, not the raw string |
| Utils.UnwrapWrap | graphql_codegen/generator/utils.py:41-45 | a `w[...]` wrapper can be recognised and removed again |
| Utils.GetPythonType | graphql_codegen/generator/utils.py:22-47 | a field that is not required is `Optional[...]` around the list-wrapped base; a required list is `List[base]`; a required scalar is the bare base |
| Utils.BaseTypeChoice | graphql_codegen/generator/utils.py:27-37 | a configured scalar mapping wins; otherwise String and ID map to str, Int to int, Float to float, Boolean to bool, and any other name is unchanged |
| Utils.WrapTypeRoundTrip | graphql_codegen/generator/utils.py:39-47 | `List[...]` goes inside `Optional[...]`; for a base that is not itself `List[...]`- or `Optional[...]`-shaped, reading the string back gives the base, the list flag and the required flag |
| Utils.PythonTypeRoundTrip | graphql_codegen/generator/utils.py:22-47 | when the mapped base type is not itself `List[...]`- or `Optional[...]`-shaped (a scalar mapped to `Optional[dict]` is not covered), the type string reads back as that base type and the field's two flags |
| Utils.OptionalIffNotRequired | graphql_codegen/generator/utils.py:43-45 | a required type never gets `Optional`, and any other type always does |
| Utils.OptionalListOrder | graphql_codegen/generator/utils.py:39-47 | a list that is not required gives `Optional[List[T]]` |
| Utils.FieldMetaOf | graphql_codegen/generator/utils.py:50-85 | raises exactly when some directive's `into` raises; otherwise the type string is `get_python_type`'s, needs_compute holds exactly when some directive is `compute`, needs_expand exactly when some is `expand` |
| Utils.MetaFailurePersists | graphql_codegen/generator/utils.py:73-75 | once decoding an `into` raises, the metadata build raises |
| Utils.MetaRaisesIff | graphql_codegen/generator/utils.py:73-75 | the metadata build raises TypeError exactly when some `expand` has a boolean `into` |
| Utils.MetaEntriesPresent | graphql_codegen/generator/utils.py:61-82 | `compute` and needs_compute are present exactly for some `compute` directive, `expand` and needs_expand exactly for some `expand`, and `default` exactly for some `default` with a truthy expr; `default` never sets needs_compute |
| Utils.LastComputeWins | graphql_codegen/generator/utils.py:66-72 | the last `compute` decides the entry: `{"expr": ...}` when the key is present, else `{"fn": args.get("fn")}` |
| Utils.LastExpandWins | graphql_codegen/generator/utils.py:73-77 | the last `expand` decides the entry: the decoded `args.get("into", "{}")` |
| Utils.LastDefaultWins | graphql_codegen/generator/utils.py:78-82 | the last `default` with a truthy `expr` decides the default entry |
| Utils.ExtraAbsentIff | graphql_codegen/generator/utils.py:84-85 | `json_schema_extra` is None exactly when no compute, expand or default entry was added |
| Utils.ComputeFnExample | graphql_codegen/generator/utils.py:66-72 | `@compute(fn: "calcCalories")` gives `{"compute": {"fn": "calcCalories"}}` and sets needs_compute |
| Utils.BuildFieldMeta | graphql_codegen/generator/utils.py:50-85 | the directive loop returns the type string, the metadata and the two flags of the specification fold, or raises where it does |
| TypeCollector.BaseClassesLayout | graphql_codegen/generator/type_collector.py:85-107 | base classes are the interfaces in order (BaseModel when there are none), then only mixins, one per flag: Computable exactly when computable, then Expandable exactly when expandable |
| TypeCollector.FindTypeFirst | graphql_codegen/generator/type_collector.py:112-114 | the lookup returns the first type with that name, or nothing exactly when there is none |
| TypeCollector.InheritedNamesExactly | graphql_codegen/generator/type_collector.py:110-116 | a name is inherited exactly when a listed interface found in the schema declares it; interfaces not found contribute nothing |
| TypeCollector.InterfaceFieldNames | graphql_codegen/generator/type_collector.py:110-116 | the interface loop collects exactly the inherited names |
| TypeCollector.QuoteAsWritten | graphql_codegen/generator/type_collector.py:148-154 | the whole-string replace puts a quote first when the type string starts with the name, and leaves a type string that does not mention the name unchanged |
| TypeCollector.QuotedPythonType | graphql_codegen/generator/type_collector.py:148-154 | corrected quoting: a field that is not required stays `Optional[...]`, a required list stays `List[...]` |
| TypeCollector.WrapReplace | graphql_codegen/generator/type_collector.py:152-154 | replacing a bracket-free name inside `w[...]` leaves the wrapper alone when the name does not occur in `w[` |
| TypeCollector.QuoteAsWrittenAgrees | graphql_codegen/generator/type_collector.py:148-154 | the as-written replace agrees with the corrected quoting whenever the name occurs neither in `Optional[` (for a nullable field) nor in `List[` (for a list) |
| TypeCollector.QuotedKeepsWrappers | graphql_codegen/generator/type_collector.py:148-154 | with corrected quoting, a field typed by another schema type reads back as the quoted name with its list and required flags |
| TypeCollector.QuoteAtStartUnwraps | graphql_codegen/generator/type_collector.py:152-154 | when the type string starts with the name, the replacement puts a quote first |
| TypeCollector.QuoteAsWrittenBreaksOptional | graphql_codegen/generator/type_collector.py:148-154 | as written, an optional field typed by an object type whose name is a non-empty prefix of `Optional` (such as `Option` or `Opt`) loses its `Optional[...]` wrapper; the corrected quoting keeps it |
| TypeCollector.OptionTypeExample | graphql_codegen/generator/type_collector.py:148-154 | a nullable field of an object type `Option` is broken as written; corrected, it is `Optional["Option"]` |
| TypeCollector.FirstMethodDirective | graphql_codegen/generator/type_collector.py:128 | the lookup finds a `method` directive of the field exactly when there is one, and it is the first one in order |
| TypeCollector.MethodOf | graphql_codegen/generator/type_collector.py:129-141 | the method is named after the field with return type `get_python_type(type, is_list, False)`; `expr` and `fn` are copied as given; a boolean one fails validation |
| TypeCollector.MethodReturnIsOptional | graphql_codegen/generator/type_collector.py:135-137 | whenever a method is built, its return type is `Optional[...]` around the list-wrapped base type |
| TypeCollector.FieldOf | graphql_codegen/generator/type_collector.py:144-162 | a field entry fails exactly when `build_field_meta` raises; otherwise it keeps the field's name and `json_schema_extra`, and its type is `get_python_type`'s, quoted in stdout mode when the field refers to another schema type |
| TypeCollector.FieldOfComputeFn | graphql_codegen/generator/type_collector.py:144-162 | `@compute(fn: "calcCalories")` on a field reaches the emitted field's `json_schema_extra` |
| TypeCollector.MembersPartition | graphql_codegen/generator/type_collector.py:122-162 | in order, each non-inherited field without `@method` becomes one field entry and each with it one method entry; inherited fields produce nothing |
| TypeCollector.StaticMethodsExactly | graphql_codegen/generator/type_collector.py:165-177 | one static method per `static_method` directive with truthy name and expr, in order, returning `Any`; others are skipped |
| TypeCollector.StaticMethodsRaiseIff | graphql_codegen/generator/type_collector.py:166-177 | the static-method loop raises exactly when a qualifying directive has a boolean name or expr |
| TypeCollector.LastExpandIsSpec | graphql_codegen/generator/type_collector.py:179-196 | the expansion spec is derived from the last type-level `expand` directive's decoded `into` |
| TypeCollector.NoExpandNoSpec | graphql_codegen/generator/type_collector.py:180-182 | without a type-level `expand` there is no expansion spec |
| TypeCollector.UnionIsAlias | graphql_codegen/generator/type_collector.py:38-49 | a union is emitted with empty base classes, fields, methods and static methods, and its union_types copied unchanged |
| TypeCollector.Resolve | graphql_codegen/generator/type_collector.py:37-210 | a union never fails, and a resolved type keeps its name and kind |
| TypeCollector.ObjectShape | graphql_codegen/generator/type_collector.py:198-210 | an object or interface keeps its name, kind and interfaces, gets the base-class list, its members split as above, its static methods and its expansion spec |
| TypeCollector.ComputeOnAnyFieldCounts | graphql_codegen/generator/type_collector.py:52-75 | a `compute` on any own field, inherited or not, makes the type Computable |
| TypeCollector.InheritedNeverEmitted | graphql_codegen/generator/type_collector.py:109-125 | no emitted field or method has a name declared on an interface the type lists |
| TypeCollector.CollectEmitsInOrder | graphql_codegen/generator/type_collector.py:29-35 | Query, Mutation, Subscription and `*Input` types are dropped; every other type is emitted exactly once, in schema order |
| TypeCollector.CollectRaisesIff | graphql_codegen/generator/type_collector.py:29-210 | collection fails exactly when resolving some emitted type fails |
| TypeCollector.CollectFlags | graphql_codegen/generator/type_collector.py:77-83 | needs_computable_import holds exactly when an emitted non-union type is computable or has an `@method` field; needs_expandable_import exactly when one is expandable |
| TypeCollector.ImportsExactly | graphql_codegen/generator/type_collector.py:22-27 | `import datetime` is needed exactly when a mapping mentions `datetime`; `import typing` exactly when one mentions `typing.` but not `datetime`; nothing else |
| TypeCollector.SplitMembers | graphql_codegen/generator/type_collector.py:118-162 | the field loop builds exactly the fields and methods of the specification fold |
| TypeCollector.StaticMethods | graphql_codegen/generator/type_collector.py:165-177 | the static-method loop returns the specification's list |
| TypeCollector.ExpansionSpec | graphql_codegen/generator/type_collector.py:179-196 | the expansion loop returns the specification's value |
| TypeCollector.ResolveType | graphql_codegen/generator/type_collector.py:37-210 | one type's loop body returns exactly its specified resolution |
| TypeCollector.ScalarImports | graphql_codegen/generator/type_collector.py:22-27 | the scalar loop collects exactly the specified import set |
| TypeCollector.Collection | graphql_codegen/generator/type_collector.py:10-212 | one IR entry per emitted schema type, and no import other than `import datetime` and `import typing` |
| TypeCollector.CollectTypes | graphql_codegen/generator/type_collector.py:10-212 | `collect_types` returns the specified types, the two flags and the imports, or fails where the specification does |

## Left out

- File reading and graphql-core's `build_schema` (graphql_codegen/parser.py:66-77, 321-343) are I/O and a foreign library. The type map (`Parser.TypeMapEntry`) and the already-read lines are inputs.
- YAML loading and the wrapping of its errors (graphql_codegen/config.py:47-63) are I/O. `Config.Validate` starts from the values the file would hold.
- `json.loads` is the parameter `decode`. `json.dumps` and `repr`, which build the `expansion_spec` text (graphql_codegen/generator/type_collector.py:183-196), are foreign serialisers. The model keeps the decoded value of the last `expand`.
- Utils.BareNameGivesEmptyObject: holds only for a decoder that rejects text whose first token cannot start a JSON value. JSON decoding itself is not modelled.
- Directive argument values are either a string or a boolean (`Parser.ArgValue`). Nodes without `.value`, such as lists, objects, null and variables, are kept as the text graphql-core prints for them; that printing is not modelled.
- Config.IsIdentifier: ASCII only. Letters, digits and `_` are accepted, with no leading digit, and keywords pass. Unicode identifiers are not accepted.
- Parser.ParseInt: `int()` is modelled for ASCII digits, an optional sign, single underscores between digits, and surrounding whitespace. Non-ASCII digits are not accepted, and the 4300-digit limit of newer CPython versions (which raise ValueError above it) is not modelled: any length is accepted.
- Paths are modelled as `Config.Path`: a list of components plus an absolute flag. `GetOutputPath` models `str()`, `.parent` and `/` with a single component. Drive letters and normalisation are not modelled.
- The key order of a field's `json_schema_extra` dict: the model keeps its three possible entries as named slots.
- The text of error messages: only the kind of failure is kept (`Config.ConfigError`, `Types.Raised`).
- `GenerationResult` (graphql_codegen/generator/types.py:38-44) is used only by the orchestrator.
- `extract_directive_info` (graphql_codegen/parser.py:104-121) is called nowhere in the package and is not modelled. `parse_schema_info` writes out its own directive loop for fields and for types (graphql_codegen/parser.py:157-168, 187-197, 227-237, 256-266, 296-306); `Parser.ReadDirectives` and `Parser.BuildArgs` model that loop.
- The `hasattr`/truthiness guards around those loops are absorbed by the datatypes: a node with no directives has an empty directive list, and a directive with no arguments has an empty argument list.
- Rendering through Jinja templates and writing files (graphql_codegen/generator/outputs.py, graphql_codegen/generator/package.py) are not modelled.
- The CLI (graphql_codegen/cli.py), the deprecated shim (graphql_codegen/generator.py) and the orchestrator (graphql_codegen/generator/__init__.py) are plumbing and are not modelled.
- The runtime `compute`/`expand` contract lives in templates and is not modelled.
- gen_doc_with_includes.py is documentation tooling and is not modelled.
- TypeCollector.FieldOf: in stdout mode the model uses the corrected quoting in place of the whole-string replace (see Findings). The as-written form is `TypeCollector.QuoteAsWritten`.

## Findings

| source | as written | input that shows it | evidently intended | confidence | as-written member | corrected member |
|---|---|---|---|---|---|---|
| graphql_codegen/generator/type_collector.py:148-154 | in stdout mode, `python_type.replace(field.type_name, '"name"')` quotes every occurrence of the name in the whole type string, including the letters of the `Optional[`/`List[` wrappers | a nullable field, in stdout mode, whose type is an object type named `Option` (any non-empty prefix of `Optional` without a scalar mapping works) | quote only the referenced type name and keep `Optional[...]`/`List[...]` intact, e.g. `Optional["Option"]` | medium; not executed | TypeCollector.QuoteAsWrittenBreaksOptional | TypeCollector.QuotedKeepsWrappers |
