# tago in Dafny

A verified model of `tago.go`, a small Go library that reads one custom
struct tag (for instance `gorm2:"preload=true;otherOption=value"`) from the
fields of a model type and builds an index of *instructions*. Each
instruction is one normalised `key[=value]` directive. It maps to the list of
fields that carry it. The library then runs caller-supplied actions for the
fields under an instruction.

The model follows the library's five parts:

- `go_strings.dfy` (module `GoStrings`): the parts of Go's `strings` package the
  library calls: `TrimSpace` with Go's `unicode.IsSpace` table, `SplitN(s, sep, 2)`,
  `Split` and `Join`.
- `instruction.dfy` (module `Model`): `Instruction`, `FieldName`, `Key`, `Value`,
  `AddPrefix`, and the normalisation of one directive.
- `index.dfy` (module `Index`): the `Instructions` multimap. The class
  `Instructions` holds the index in a field. Its method `Concat` performs
  `concat` in place. It is proved equal to the pure merge `Merge`.
- `types.dfy` (module `Types`): type descriptors in place of reflection, and
  `typeToElem`. Each field is a name, a type and a tag map. An environment
  maps each struct name to its declared fields. A ghost rank map shows that
  the recursion terminates.
- `parser.dfy` (module `TagParser`): `GetFromField`, a loop proved equal to the
  reference fold `FieldIndex`.
- `builder.dfy` (module `Builder`): `Get`, `getNested`, `GetNested` and `Has`. Each
  is a method proved against a specification function: `Flat` for `Get`, and
  `Nested` / `NestedUpTo` / `NestedStep` / `Child` for `getNested`.
- `dispatch.dfy` (module `Dispatch`): `Apply` and `ApplyOne`. Each action call is
  recorded as a `Call(instruction, field)`, so a run is a trace of calls.
- `examples.dfy` (module `Examples`): the examples from the source's documentation
  comments, worked through the model.

`Get` and `getNested` guard their concat with `fieldTags != nil`. That guard
is always true, because `GetFromField` always returns a made map. The model
therefore always merges.

In `getNested`, the concat of a nested index is skipped for a field that is
not descended into. The model writes this as merging the empty index `Child`,
which changes nothing (`Index.MergeEmpty`).

The `GetNested` documentation comment (tago.go:214) writes `Field3.SubField1`
in one list and `Field3.Subfield1` in another. The field is named
`Subfield1`, and the code produces `Field3.Subfield1` in both lists.
`Examples.GetNestedLiteralExample` states that result.

For `Value`, the property "`Value` is `true` exactly when there is no `=`"
holds in one direction only. A directive `k=true` has an `=` and the value
`true`. The model states both cases separately:

- no `=` gives `"true"`;
- otherwise the value is the trimmed text after the first `=`, and it may
  itself contain `=`.

## Model

| member | source | states |
|---|---|---|
| GoStrings.TrimSpace | tago.go:84-86 | the trimmed text neither starts nor ends with white space |
| GoStrings.TrimSpaceIsTrim | tago.go:84-86 | TrimSpace returns a contiguous piece of its input; only white space is removed on either side |
| GoStrings.TrimSpaceIdempotent | tago.go:84-86 | trimming twice is trimming once |
| GoStrings.TrimSpaceEmpty | tago.go:84-86 | the trimmed text is empty exactly when the input is all white space |
| GoStrings.SplitN2Spec | tago.go:30 | SplitN(s, "=", 2): the first part has no `=`; there is one part exactly when s has no `=`; joining the parts with `=` gives s back |
| GoStrings.SplitSpec | tago.go:78 | no piece of Split(s, ";") contains `;`, and joining the pieces with `;` gives s back |
| GoStrings.SplitOfJoin | tago.go:78 | splitting the `;`-join of pieces without `;` gives back exactly those pieces |
| Model.Key | tago.go:29-32 | the key never contains `=` and has no leading or trailing white space |
| Model.Value | tago.go:34-43 | without `=` the value is "true"; with `=` it has no edge white space |
| Model.KeyValueOfPair | tago.go:29-43 | for `k=v` with no `=` in k: the key is trim(k) and the value is trim(v), which keeps any further `=` |
| Model.KeyValueOfFlag | tago.go:34-43 | a directive without `=` has key trim(k) and value "true" |
| Model.AddPrefix | tago.go:48-50 | FieldName.AddPrefix; its contract is carried by AddPrefixSplits, AddPrefixEmpty and AddPrefixTwice below |
| Model.AddPrefixSplits | tago.go:48-50 | the prefixed name is the prefix followed by the original name, with nothing inserted |
| Model.AddPrefixEmpty | tago.go:48-50 | the empty prefix leaves the name unchanged |
| Model.AddPrefixTwice | tago.go:48-50 | prefixing with inner and then with outer is prefixing once with outer+inner |
| Model.Normalize | tago.go:81-89 | the normal form of one directive; NormalizeIsJoinOfTrimmed ties it to the SplitN/trim/Join steps, and NormalizeForm, NormalizeKeepsKeyValue, NormalizeIdempotent and NormalizeEmpty state its properties |
| Model.NormalizeIsJoinOfTrimmed | tago.go:81-89 | the normal form is the `=`-join of the trimmed SplitN parts |
| Model.NormalizeForm | tago.go:81-89 | the normal form is Key, then `=` and Value when the directive has an `=` |
| Model.NormalizeKeepsKeyValue | tago.go:29-43 | normalising keeps whether there is an `=`, and keeps Key and Value |
| Model.NormalizeIdempotent | tago.go:81-89 | normalising a normal form changes nothing |
| Model.NormalizeEmpty | tago.go:91-94 | a directive is dropped, because its normal form is empty, exactly when it is all white space |
| Model.NormalizeOfClean | tago.go:81-89 | a `k=v` directive with a clean key and value is its own normal form |
| Index.Merge | tago.go:56-66 | the keys of the result are the union of the keys; under each key the old list is followed by the other index's names with the prefix added, in order |
| Index.PrefixedAt | tago.go:62-64 | the k-th appended name is the k-th name of the other list with the prefix added |
| Index.MergeEmpty | tago.go:56-66 | merging the empty index changes nothing |
| Index.MergeIntoEmpty | tago.go:56-66 | merging into an empty index with no prefix copies the other index |
| Index.MergeShift | tago.go:56-66 | merging prefixed pieces one after another equals prefixing their merge |
| Index.MergeAppendOnly | tago.go:56-66 | every old list is a prefix of the new one (append-only) |
| Index.Instructions.constructor | tago.go:72 | make(Instructions), as at tago.go:72, 146 and 166: a new index holds no key |
| Index.Instructions.Concat | tago.go:56-66 | the in-place concat leaves the index equal to Merge of the old index and the other index, whatever order the keys are visited in |
| Index.Instructions.AppendPrefixed | tago.go:62-64 | the inner loop appends every name, prefixed, under one key and touches no other key |
| Types.TagGet | tago.go:75 | StructTag.Get on the tag map: the raw text under the identifier, or "" when there is none |
| Types.TypeToElem | tago.go:113-129 | typeToElem; TypeToElemUnwraps, TypeToElemOfSupported and TypeToElemStopsAfterOneLayer below state which layers it removes |
| Types.TypeToElemUnwraps | tago.go:111-129 | the input is the result wrapped in one of the layer stacks none, `*`, `[]`, `[]*` or `*[]`, `*[]*` |
| Types.TypeToElemOfSupported | tago.go:111-129 | T, *T, []T, []*T (and the pointer-to-slice forms) all map to T when T is neither a pointer nor a slice |
| Types.TypeToElemStopsAfterOneLayer | tago.go:111-129 | at most one pointer, then one slice, then one pointer is removed: `**T`, `[][]T` and `[]**T` keep a layer |
| Types.RecursesIff | tago.go:185-186 | getNested descends exactly into fields whose unwrapped type is a struct other than the one being walked |
| TagParser.TrimParts | tago.go:84-86 | the loop trims every part, in place |
| TagParser.NormalizeDirective | tago.go:81-89 | split, trim and join compute the normal form |
| TagParser.GetFromField | tago.go:69-109 | the loop over the directives builds exactly the reference fold FieldIndex |
| TagParser.CollectCounts | tago.go:96-104 | under every non-empty normal form the field's name appears once per occurrence; there are no other keys |
| TagParser.CollectListsNonEmpty | tago.go:99-104 | every list the parser creates holds a name |
| TagParser.FieldIndexKeys | tago.go:71-109 | the keys of GetFromField's result are exactly the non-empty normal forms of the field's directives |
| TagParser.FieldIndexNoEmptyKey | tago.go:91-94 | no key is the empty instruction |
| TagParser.FieldIndexCounts | tago.go:96-104 | the field's name appears under an instruction once for each directive that normalises to it |
| TagParser.FieldIndexOwnName | tago.go:104 | every stored name is the field's own, unprefixed name |
| TagParser.FieldIndexOfBlank | tago.go:75-94 | a tag that is empty, only white space, or only white space and `;` (such as ";;") yields the empty index |
| Builder.Get | tago.go:145-162 | Get equals the left fold Flat: each field's index is merged with no prefix, in declaration order |
| Builder.FlatLookup | tago.go:145-162 | Get's list under an instruction holds each field's name, in field order, once per directive of that field that normalises to the instruction |
| Builder.FlatKeys | tago.go:145-162 | Get's keys are exactly the instructions that some top-level field's tag yields |
| Builder.FlatNoEmptyKey | tago.go:145-162 | Get never stores the empty instruction |
| Builder.FlatNames | tago.go:150-159 | every name Get stores is the bare name of a top-level field |
| Builder.FlatListsNonEmpty | tago.go:145-162 | an instruction has a non-empty list in Get's index exactly when it is a key |
| Builder.Has | tago.go:259-264 | Has holds exactly when the instruction is a key of Get's index, that is, when some top-level field's index holds it |
| Builder.HasMeaning | tago.go:259-264 | Has holds exactly when some directive of a top-level field normalises to the instruction |
| Builder.GetNestedAt | tago.go:164-197 | the loop over the fields, recursing into struct fields, builds exactly Nested |
| Builder.AddNestedField | tago.go:174-194 | one iteration merges the field's own index with the prefix, then the nested index unprefixed when it descends |
| Builder.GetNested | tago.go:215-217 | GetNested is getNested from the empty prefix |
| Builder.NestedStepLookup | tago.go:174-193 | under each instruction: the earlier fields' entries, then this field's own names with the prefix, then the entries of the struct it descends into |
| Builder.NoDescentIntoSelfOrNonStruct | tago.go:183-186 | a field whose unwrapped type is not a struct, or is the walked struct itself, contributes no nested entry |
| Builder.NestedPrefixed | tago.go:164-197 | every name getNested stores starts with the prefix it was given |
| Builder.ChildPrefixed | tago.go:186-191 | every name stored for the struct behind a field starts with prefix+Name+separator |
| Builder.NestedWithoutDescent | tago.go:164-197 | with no field to descend into, getNested is Get with every name prefixed |
| Builder.GetNestedIsGetWithoutDescent | tago.go:183-186 | a struct whose struct-typed fields only refer to itself gets from GetNested exactly what Get returns |
| Dispatch.ApplyOne | tago.go:244-257 | the action is called once for each name stored under the instruction, in order, and never when the instruction is absent |
| Dispatch.Apply | tago.go:219-242 | the trace is the fold ApplySpec over the mapping's keys; each action receives exactly the list under its instruction, in order, and actions of absent instructions receive nothing |
| Dispatch.ApplyProjection | tago.go:234-242 | the calls Apply makes to one instruction's action are exactly that instruction's list, or none when it is not mapped |
| Dispatch.ApplyOrderIrrelevant | tago.go:235 | the order in which Go iterates the mapping changes no action's calls |
| Dispatch.ApplyCallsAreStored | tago.go:234-242 | every call is for a mapped instruction and a name stored under it |
| Examples.FieldIndexOfTwo | tago.go:14 | a tag `a;b` of two distinct clean directives records the field's name once under each |
| Examples.OneFieldExample | tago.go:13-18 | Get on a struct whose one field Field1 is tagged `a;b` gives [Field1] under a and under b |
| Examples.UsageExample | tago.go:13-18 | the package comment's usage: Field1 tagged `preload=true;otherOption=value` gives map[preload=true:[Field1] otherOption=value:[Field1]]; the comment calls the method GetTags, which is Get |
| Examples.GetExample | tago.go:131-144 | the Get comment's example for any two distinct clean directives in place of preload=true and otherOption=value: the first gives [Field1 Field3], the second [Field1] |
| Examples.GetLiteralExample | tago.go:131-144 | the Get comment's result with its own texts: preload=true gives [Field1 Field3], otherOption=value gives [Field1] |
| Examples.ModelsRanked | tago.go:200-213 | the GetNested comment's MyModel/NestedModel environment has no cycle |
| Examples.NestedModelIndex | tago.go:186-191 | NestedModel under Field3 yields Field3.Subfield1 under both of its directives |
| Examples.GetNestedExample | tago.go:200-214 | the GetNested comment's example with "." for any three distinct clean directives in place of preload=true, otherOption=value and otherOption=value2: [Field1 Field3 Field3.Subfield1], [Field1] and [Field3.Subfield1] |
| Examples.GetNestedLiteralExample | tago.go:200-214 | the GetNested comment's result with its own texts and ".": preload=true gives [Field1 Field3 Field3.Subfield1], otherOption=value gives [Field1], otherOption=value2 gives [Field3.Subfield1] |
| Examples.SelfReferenceExample | tago.go:185 | a node type whose Next field points to its own type is not descended into, so GetNested equals Get |

## Left out

- Reflection (`reflect.TypeOf`, `NumField`, `Field(i)`, `reflect.New(...).Elem().Interface()`) is replaced by the type descriptors of `Types` and an environment of declared fields.
- `StructTag.Get` is a lookup in a map from tag identifier to raw text, and parsing of the backquoted tag syntax is left out. A missing identifier gives "".
- `Type.String()` is approximated by the struct's bare name, `*T` and `[]T`. Package qualification is left out, so two structs with the same name in different packages are not told apart.
- A model whose unwrapped type is not a struct makes `NumField` panic in Go. `Get`, `Has` and `GetNested` require a struct that the environment describes.
- Indirect type cycles (A→B→A) make `getNested` recurse without end. The model excludes them with the rank precondition `Ranked`. Direct self-reference is handled by the source's guard and is modelled.
- Go's map iteration order is unobservable in `concat` and is not modelled there (`Concat` chooses keys arbitrarily). For `Apply`, the order is the parameter `order`, which lists the mapping's keys without duplicates.
- Actions are opaque callbacks. Their side effects are left out, and only the trace of calls is modelled. `ApplyOne` returns the names its action would receive.
- `FieldName.String` is the identity and is left out.
- Strings are sequences of Unicode scalar values. UTF-8 bytes and invalid encodings are left out, and white space follows Go's `unicode.IsSpace` table.
