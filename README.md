# schematix, modelled in Dafny

schematix maps data between shapes declaratively. A schema class declares
fields; each field reads a value from a dotted source path, runs it through a
fixed pipeline of stages and writes it to a dotted target path. Fields compose
into fallback, combined, nested and accumulated fields, and a dependency
resolver orders conditional fields. Transforms are small callable objects
that compose into pipelines, fallbacks and parallel fans, and a library of
collection, text and validation helpers is built from them.

This project models that core over a closed value type: None, bool, int,
string, list, insertion-ordered dict and attribute object. User callables
(transforms, mappers, validators, key functions, predicates) are total
functions returning a value or an error, so every raise in the source becomes
an `Error` value and every `try`/`except` a match on it.

The modules follow the source files:

- `Paths` covers dotted-path reads and writes (`core/bases/field.py`).
- `LeafField` covers the leaf pipeline: source, transform, type, mapping,
  choices, validator and required. It also holds the conditional evaluation,
  the attribute overrides of `Field` and `SourceField`/`TargetField`
  (`core/field.py`). `FieldObject` is a class whose methods change its fields
  in place, as the source's attribute swaps do.
- `Composites` covers the fallback, combined, nested and accumulated fields
  and the composition operators. `BoundFields` covers `BoundField` and
  `FieldBindingFactory`.
- `Deps` covers the dependency resolver: validation, Kahn's algorithm, and
  the depth-first cycle search, as classes with loops.
- `SchemaMeta` covers the metaclass (registry merge, naming, name checks).
  `BaseSchemas` covers `BaseSchema`, and `Schemas` covers `Schema` and
  `BoundSchema`.
- `Transforms` covers the transform classes and the factory functions of
  `core/transform.py`. The factories `pipeline`, `fallback` and `parallel`
  are `MakePipeline`, `MakeFallback` and `MakeParallel` applied to the
  factory's arguments.
- `Slicing`, `Collections`, `Grouping`, `Text` and `Validation` cover the
  helpers in `transforms/`.
- `Wrappers`, `Values`, `Errors`, `PyText` and `OrderedMaps` are supporting
  definitions: results, the value type, error messages, Python string
  operations and ordered dicts.

Loops in the source (`Schema.transform`, `validate`, Kahn's queue, the
depth-first search, `unique`, `groupby`, the pipeline and parallel loops) are
methods with loop invariants. Each is proved equal to a recursive
specification function, and the properties are proved about that function.

Where the shown code and the description of schematix differ, the model
follows the code:

- Schema.transform evaluates the registry in declaration order. It neither
  consults the dependency resolver nor drops transient fields, so a
  conditional field fails there for want of computed values.
- Field.extract calls type, mapping and choices stages that `BaseField`
  does not define. Their behaviour is taken from
  `tests/test_value_pipeline.py` and `tests/test_field_validators.py`, and
  the table cites those lines.

## Model

| member | source | states |
|---|---|---|
| Paths.Walk | src/schematix/core/bases/field.py:94-118 | a read along at least one segment never yields None: a None on the way ends the walk as a miss |
| Paths.WalkConcat | src/schematix/core/bases/field.py:107-118 | reading `p + q` is reading `q` from wherever `p` leads, and a miss on `p` is a miss on `p + q` |
| Paths.GetNestedValue | src/schematix/core/bases/field.py:94-118 | the loop returns the value the segments lead to, or `default` on a miss |
| Paths.SourceValue | src/schematix/core/bases/field.py:120-148 | no source yields `default`; a dotted source is a nested walk with `default` on a miss; an undotted source on a dict is `get(source, default)` |
| Paths.SetLast | src/schematix/core/bases/field.py:196-200 | the final write succeeds exactly on a dict or an object, and a failed write changes nothing |
| Paths.SetNested | src/schematix/core/bases/field.py:178-200 | a dict stays a dict and an object stays an object; anything else is left unchanged and raises |
| Paths.ApplyTargetValue | src/schematix/core/bases/field.py:205-228 | no target raises "no target"; an undotted target on a dict or object always succeeds; a successful write keeps the root's kind |
| Paths.ReadAfterSetNested | src/schematix/core/bases/field.py:178-200 | a nested write that succeeds reads back along the same segments, None reading as a miss |
| Paths.SetNestedKeepsSiblings | src/schematix/core/bases/field.py:188-192 | a nested write into a dict keeps every other key's value, and adds a key only when the first segment was missing |
| Paths.ReadAfterWrite | src/schematix/core/bases/field.py:205-228 | assigning and then extracting through the same path gives the value back; a None under a dotted path reads as `default` |
| Paths.SetNestedFrame | src/schematix/core/bases/field.py:178-203 | a successful nested write changes nothing that a path diverging from the written one reads |
| Paths.SetNestedOtherStep | src/schematix/core/bases/field.py:188-203 | a nested write leaves what any other first segment reads as it was |
| Paths.UndottedParts | src/schematix/core/bases/field.py:218 | a path without '.' is one segment |
| Paths.ApplyAsSetNested | src/schematix/core/bases/field.py:205-225 | every successful `_applytargetvalue`, dotted or not, is the nested write along the target's segments |
| Paths.ApplyReads | src/schematix/core/bases/field.py:205-225 | after a successful write, the target's segments read the value back, a stored None reading as a miss |
| Paths.ApplyFrame | src/schematix/core/bases/field.py:205-225 | a successful write changes nothing that a path diverging from the target reads |
| LeafField.Simple | src/schematix/core/bases/field.py:26-44 | a field built from a name, source and target has every other option at its default: not required, default None, not conditional |
| LeafField.ApplyTransform | src/schematix/core/bases/field.py:150-163 | with no transform, or on None, the value passes through unchanged |
| LeafField.ApplyType | tests/test_value_pipeline.py:10-23 | with no type, or on None, the value passes; a constructor that raises becomes "Cannot convert <value> to <type>" |
| LeafField.LookUp | tests/test_value_pipeline.py:54-92 | a hashable value found in the mapping yields its entry; a miss without a mapper falls back to `default`, or raises "No mapping found" when there is no default |
| LeafField.MissFallback | tests/test_value_pipeline.py:78-92 | a lookup miss succeeds exactly when `default` is set |
| LeafField.ApplyMapping | tests/test_value_pipeline.py:51-92 | with no mapping, or on None, the value passes; a mapped list keeps its length |
| LeafField.MapItemsPointwise | tests/test_value_pipeline.py:51-92 | a list is mapped item by item: it fails exactly when one of its items fails, and otherwise item i of the result is item i's own mapping |
| LeafField.ValidateChoices | tests/test_value_pipeline.py:26-48 | with a non-empty choice list, the value passes exactly when it is one of the choices, unchanged; otherwise it fails with "not in allowed choices". The tests do not show what happens to None here; the model checks None against the choices like any other value, unlike the type and mapping stages, which let None through |
| LeafField.Validate | tests/test_field_validators.py:11-60 | the validator is called for its exception only: the value passes unchanged exactly when the validator does not raise, and no validator means no check |
| LeafField.CheckRequired | src/schematix/core/bases/field.py:165-176 | fails exactly when the field is required and the value is None, with the "required" error naming the field; otherwise the value passes |
| LeafField.Pipeline | src/schematix/core/field.py:89-97 | a successful extraction of a required field is never None, and with choices it is one of them |
| LeafField.PipelineOfPlainField | src/schematix/core/field.py:89-97 | a field with no transform, type, mapping, choices or validator yields the raw source value, failing exactly when it is None and the field is required |
| LeafField.PipelineSucceeds | src/schematix/core/field.py:89-97 | a value that passes every stage comes out of the pipeline as the mapping stage left it |
| LeafField.StagesRunInOrder | tests/test_value_pipeline.py:98-108 | `"  3  "` is stripped, cast to 3 and accepted among the choices 1..5; stripping after the cast would raise |
| LeafField.IntFn | tests/test_value_pipeline.py:98-108 | `int(v)`: a success is an int; a failure is a ValueError (malformed string) or a TypeError (any other non-number); `Validation.IntFnOnNumbers` pins the int, bool and None cases |
| LeafField.DependencyValues | src/schematix/core/field.py:26-30 | succeeds exactly when every dependency is among the computed values, giving them in dependency order; otherwise the error names a missing dependency |
| LeafField.EvaluateFrom | src/schematix/core/field.py:32-36 | fails exactly when some evaluator raises, and the error names the field |
| LeafField.EvaluateFromGet | src/schematix/core/field.py:32-36 | with distinct condition keys, each key holds its own evaluator's result, and other keys keep what they had |
| LeafField.EvaluateConditions | src/schematix/core/field.py:17-38 | no dependencies, no conditions or a missing dependency each raise, in that order of checks |
| LeafField.EvaluatedValues | src/schematix/core/field.py:17-38 | each condition key maps to its evaluator applied to the dependency values in order |
| LeafField.RestoredOverride | src/schematix/core/field.py:42-64 | the restore undoes one override of a saved attribute |
| LeafField.Override | src/schematix/core/field.py:42-64 | one `setattr` of an override on the configuration, including a list of names for `dependencies`; no contract of its own, specified through `RestoredOverride`, `DependenciesLeak`, `ValidatorLeaks` and `FieldObject.ExtractWithOverrides` |
| LeafField.RestoredWithoutLeak | src/schematix/core/field.py:42-64 | overrides of the six saved attributes leave the field as it was once restored |
| LeafField.DependenciesLeak | src/schematix/core/field.py:42-64 | an overridden `dependencies` list is not among the saved six, so it stays on the field after the restore and is what the next condition evaluation (core/field.py:27-30) reads |
| LeafField.StrItems | src/schematix/core/field.py:27 | a list converts to dependency names exactly when every item is a string, item by item |
| LeafField.ValidatorLeaks | src/schematix/core/field.py:42-64 | an overridden `validator` is not among the saved six and stays on the field after the restore |
| LeafField.ExtractLeaf | src/schematix/core/field.py:66-97 | a non-conditional field runs the pipeline; a conditional field without computed values raises |
| LeafField.ValueConditionShortCircuits | src/schematix/core/field.py:78-85 | a `'value'` condition decides the result, whatever the data |
| LeafField.AssignLeaf | src/schematix/core/field.py:99-110 | a validator that raises leaves the target untouched; otherwise the value is written at the field's target |
| LeafField.FieldObject.constructor | src/schematix/core/bases/field.py:26-44 | the new field holds the given configuration |
| LeafField.FieldObject.ExtractWithOverrides | src/schematix/core/field.py:40-64 | the result is the pipeline of the overridden field; afterwards the six saved attributes are back and any other override the model represents stays (see the `LeafField.Override` line under "## Left out") |
| LeafField.FieldObject.Extract | src/schematix/core/field.py:66-97 | the result is `ExtractLeaf` of the field as it was, and the new state is what the override path leaves |
| LeafField.FieldObject.ExtractWithFallbacks | src/schematix/core/field.py:693-722 | the result is `FallbackSources`, and the source is restored |
| LeafField.FieldObject.AssignToTarget | src/schematix/core/field.py:809-833 | the write is `TargetWrite` at the given path, so a successful one reads back as `TargetWriteReads` states; the field's own target is restored |
| LeafField.FirstFallback | src/schematix/core/field.py:706-716 | no value exactly when every fallback path raises |
| LeafField.FirstFallbackIsFirst | src/schematix/core/field.py:706-716 | the value found comes from a fallback path, and every path before it raised |
| LeafField.FallbackSources | src/schematix/core/field.py:693-722 | the first fallback that extracts wins; when all raise, a required field raises listing every source, and any other field yields `default` |
| LeafField.SourceExtract | src/schematix/core/field.py:669-691 | a false condition yields `default`; a primary result other than `default` is kept |
| LeafField.CreateStructure | src/schematix/core/field.py:835-861 | a raised error leaves the target unchanged; what it adds is what the write adds anyway (`CreateThenSet`) |
| LeafField.CreateAlong | src/schematix/core/field.py:848-861 | a raised error leaves the target unchanged; a dict stays a dict and an object stays an object |
| LeafField.CreateAlongFresh | src/schematix/core/field.py:848-861 | preparing the structure below a freshly created `{}` never raises |
| LeafField.CreateAlongKeepsSiblings | src/schematix/core/field.py:848-861 | preparing the structure keeps every other key of a dict root |
| LeafField.CreateThenSet | src/schematix/core/field.py:835-861 | preparing the intermediate containers and then writing along the path is the plain nested write; where the preparation raises, the plain write raises the same error on the untouched root |
| LeafField.TargetWrite | src/schematix/core/field.py:809-833 | a None path raises; without structure creation, the write is the plain write at that path |
| LeafField.TargetWriteIsApply | src/schematix/core/field.py:809-833 | with or without `createstructure`, a write at a path is the plain `_applytargetvalue` at that path, on every root |
| LeafField.TargetWriteReads | src/schematix/core/field.py:809-833 | after a successful write at a path, extracting through that path gives the value back (a None under a dotted path reads as the default) |
| LeafField.WriteAll | src/schematix/core/field.py:805-807 | no additional targets writes nothing |
| LeafField.WriteAllUnfold | src/schematix/core/field.py:805-807 | when all the writes succeed, the first one did, and the rest write into its result |
| LeafField.WriteAllFrame | src/schematix/core/field.py:805-807 | writing the additional targets changes nothing that a path diverging from all of them reads |
| LeafField.WriteAllReads | src/schematix/core/field.py:805-807 | each additional target that diverges from every later one reads the value back |
| LeafField.TargetAssign | src/schematix/core/field.py:784-807 | a false condition writes nothing; a missing primary target raises |
| LeafField.TargetAssignWrites | src/schematix/core/field.py:784-807 | with the condition true and the formatter returning `v`, a successful assign had a primary target; that target, when it diverges from every additional one, and each additional target diverging from every later one read `v` back |
| Composites.WithName | src/schematix/core/metas/schema.py:31-33 | the field comes out carrying the given name |
| Composites.AnyRequired | src/schematix/core/field.py:206-210 | true exactly when some child field is required |
| Composites.Extract | src/schematix/core/bases/field.py:45-60 | dispatches `extract` by field kind; no contract of its own, specified by `FallbackSemantics`, `CombinedFailsIffRequiredChildFails`, `NestedSemantics` and `AccumulatedExtract` |
| Composites.FallbackSemantics | src/schematix/core/field.py:142-160 | a fallback field fails only when its fallback fails; a primary value other than None, or any value of a required primary, is kept; otherwise the fallback's extraction is the result |
| Composites.CombineStep | src/schematix/core/field.py:226-243 | a failing optional child changes nothing; a failing required child adds one message; a success adds no error |
| Composites.RequiredFailures | src/schematix/core/field.py:240-243 | empty exactly when no required child fails, and at most one message per child |
| Composites.CombinedFoldErrors | src/schematix/core/field.py:223-246 | the errors the loop collects are exactly the required children's failures, in child order |
| Composites.CombinedFailsIffRequiredChildFails | src/schematix/core/field.py:213-248 | a combined field raises exactly when some required child raises, and the error lists every such failure |
| Composites.CombinedExtract | src/schematix/core/field.py:213-248 | the loop computes the combined field's extraction |
| Composites.NestedSemantics | src/schematix/core/field.py:330-349 | a readable path gives the inner field's extraction on the sub-object; an unreadable one raises when required and otherwise gives the inner default |
| Composites.Collect | src/schematix/core/field.py:493-504 | the collected values never include None, and there is at most one per child |
| Composites.CollectFailsAtFirstRequired | src/schematix/core/field.py:496-504 | collecting fails exactly when a required child raises, and the error is that of the first such child |
| Composites.CollectStep | src/schematix/core/field.py:496-504 | one child of the loop: a required failure aborts, an optional failure or a None is skipped, any other value is kept in order |
| Composites.CollectValues | src/schematix/core/field.py:493-504 | the loop computes `Collect` |
| Composites.AccumulateValues | src/schematix/core/field.py:525-547 | the loop computes the left fold of `_combinevalues` over the values |
| Composites.AccumulatedExtract | src/schematix/core/field.py:483-512 | collecting then combining computes the accumulated field's extraction |
| Composites.AccumulateStrings | src/schematix/core/field.py:575-577 | accumulated strings are joined with the separator |
| Composites.FoldStrings | src/schematix/core/field.py:544-545 | folding strings onto a string accumulator joins them all with the separator |
| Composites.AccumulateInts | src/schematix/core/field.py:571-573 | accumulated integers are summed |
| Composites.FoldInts | src/schematix/core/field.py:544-545 | folding integers onto an integer accumulator adds their sum |
| Composites.AccumulateLists | src/schematix/core/field.py:567-569 | accumulated lists are concatenated in order |
| Composites.FoldLists | src/schematix/core/field.py:544-545 | folding lists onto a list accumulator appends them in order |
| Composites.MergeRightWins | src/schematix/core/field.py:561-565 | merging two dicts: a key of the right dict takes the right value, any other key keeps the left one |
| Composites.CombineValues | src/schematix/core/field.py:549-585 | `_combinevalues`; no contract of its own, specified by `MergeRightWins`, `AccumulateStrings`, `AccumulateInts` and `AccumulateLists` |
| Composites.Assign | src/schematix/core/bases/field.py:63-75 | dispatches `assign` by field kind; specified by `LeafAssignWrites`, `TargetAssignWrites`, the `AssignEach` and `AssignMatching` lemmas and `NestedRoundTrip` |
| Composites.LeafAssignWrites | src/schematix/core/field.py:99-110 | a successful assign of a plain or source field had a target and is the write at it |
| Composites.AssignEach | src/schematix/core/field.py:264-266 | no children writes nothing |
| Composites.AssignEachUnfold | src/schematix/core/field.py:264-266 | when every child's write succeeds, the first one did, and the rest write into its result |
| Composites.AssignEachFrame | src/schematix/core/field.py:264-266 | a scalar written through leaf children changes nothing that a path diverging from every child's target reads |
| Composites.AssignEachReads | src/schematix/core/field.py:264-266 | after a scalar is written through leaf children, each child whose target diverges from every later child's reads the scalar back |
| Composites.AssignMatching | src/schematix/core/field.py:258-262 | no children writes nothing |
| Composites.AssignMatchingUnfold | src/schematix/core/field.py:258-262 | a child named in the dict writes its entry first, and the rest write into the result |
| Composites.AssignMatchingNext | src/schematix/core/field.py:258-262 | a successful dict assign continues from the root the first child leaves behind |
| Composites.AssignMatchingFrame | src/schematix/core/field.py:258-262 | a dict written through leaf children changes nothing that a path diverging from the target of every child named in the dict reads; an unnamed child writes nothing |
| Composites.AssignMatchingReads | src/schematix/core/field.py:258-262 | each child named in the dict whose target diverges from every later child's reads its own entry back |
| Composites.MatchingReadsFirst | src/schematix/core/field.py:258-262 | the first child, when named in the dict and diverging from every later child, reads its entry back |
| Composites.AssignAtKeepsSiblings | src/schematix/core/field.py:403-411 | a dict along a nested path keeps its other keys' values, and gains the first segment only when it was missing |
| Composites.NestedRoundTrip | src/schematix/core/field.py:351-423 | a plain field whose source is its target, written through a nested path, reads the value back from the sub-object at that path |
| Composites.AssignAt | src/schematix/core/field.py:351-423 | `_getorcreatenested` then the inner assign; no contract of its own, specified by `AssignAtKeepsSiblings`, `NestedRoundTrip` and `NestedStep` |
| Composites.NestedStep | src/schematix/core/field.py:403-423 | the inductive step of the nested round trip: the first segment leads to the rewritten child |
| Composites.MakeCombined | src/schematix/core/field.py:185-211 | construction succeeds exactly when there is a child, and the field is required when any child is |
| Composites.MakeAccumulated | src/schematix/core/field.py:452-481 | construction succeeds exactly when there is a child, and the default is None |
| Composites.OrElse | src/schematix/core/bases/field.py:253-264 | the fallback operator is named and required as `a` and defaults as `b` |
| Composites.Both | src/schematix/core/field.py:287-295 | `a & b` is an unnamed combination; a combination on the left is extended, and one on the right is flattened into it only when the left is one too |
| Composites.At | src/schematix/core/field.py:305-328 | `a @ path` copies `a`'s required flag, default, source and target |
| Composites.Plus | src/schematix/core/field.py:626-636 | `a + b` is an unnamed accumulation with separator " ", or the left one's separator when the left is an accumulation, whose children are then extended and flattened |
| Composites.BothFlattensLeft | src/schematix/core/field.py:287-295 | `&` flattens only from the left: `(a & b) & c` has three children, `a & (b & c)` has two |
| Composites.AddField | src/schematix/core/field.py:268-281 | the child list gains the field at its end, and the name (and separator) are kept |
| Composites.WithSeparator | src/schematix/core/field.py:606-620 | only the separator changes |
| Composites.WithPath | src/schematix/core/field.py:425-439 | only the path changes |
| Composites.AddFallback | src/schematix/core/field.py:724-745 | the fallback list gains the path at its end, and the configuration is kept |
| Composites.AddTarget | src/schematix/core/field.py:863-887 | the additional-target list gains the path at its end, and the configuration is kept |
| BoundFields.BindingName | src/schematix/core/field.py:916 | an explicit non-empty name is kept; a missing or empty one gives the source field's name |
| BoundFields.MakeBound | src/schematix/core/field.py:898-928 | construction succeeds exactly when the source field has a source and an explicit target field has a target, each failure with its own error; the binding holds its arguments |
| BoundFields.Bind | src/schematix/core/bases/field.py:240-251 | `a >> b` succeeds exactly when `a` has a source and `b` a target, binding `a` to `b` under `a`'s name |
| BoundFields.FromField | src/schematix/core/field.py:1053-1064 | a field bound to itself needs only a source, and assigns through itself |
| BoundFields.ExtractOnly | src/schematix/core/field.py:952-965 | without a transform the result is the source field's extraction, and a failed extraction is passed on |
| BoundFields.AssignOnly | src/schematix/core/field.py:967-978 | a self-bound field assigns through its source field |
| BoundFields.TransformDataComposes | src/schematix/core/field.py:931-950 | the full transfer is the extraction followed by the assignment, and a failed extraction leaves the target untouched |
| BoundFields.SourcePath | src/schematix/core/field.py:981-983 | the source field's source |
| BoundFields.TargetPath | src/schematix/core/field.py:985-989 | the target field's target, the source field being its own target field when none was given |
| BoundFields.IsRequired | src/schematix/core/field.py:991-995 | required exactly when either side is required |
| BoundFields.MadeBoundHasPaths | src/schematix/core/field.py:921-928 | a validated binding has a source path, and a target path when its target field is explicit |
| BoundFields.WithTransform | src/schematix/core/field.py:997-1012 | a valid binding stays valid with the new transform and keeps everything else |
| BoundFields.WithName | src/schematix/core/field.py:1014-1029 | a valid binding stays valid under the new name, an empty one falling back to the source field's |
| BoundFields.SourceFieldFor | src/schematix/core/field.py:1085-1091 | a path or a pair gives a source field reading that path; anything else is the "Invalid source config" error |
| BoundFields.BindEntry | src/schematix/core/field.py:1084-1095 | an entry binds exactly when its configuration is valid, reading from its path and writing under its name |
| BoundFields.FromMapping | src/schematix/core/field.py:1066-1097 | the result has the mapping's keys in order, each bound from its own entry |
| BoundFields.FromMappingSucceedsIffValid | src/schematix/core/field.py:1084-1097 | building succeeds exactly when every configuration is valid, and otherwise fails at the first invalid one |
| BoundFields.MappedValueLands | src/schematix/core/field.py:1084-1095 | a binding made from an undotted path moves the value at that path to the key named after the entry |
| Deps.GraphOf | src/schematix/core/deps.py:22-24 | one entry per field, in mapping order, holding the dependencies of a conditional field and none for any other field |
| Deps.MissingIn | src/schematix/core/deps.py:24-26 | no error exactly when every dependency is a field; otherwise the error names the field and a dependency that is not a field |
| Deps.FirstMissing | src/schematix/core/deps.py:22-26 | no error exactly when every dependency of every field is a field; otherwise the error names a real dependency that is missing |
| Deps.Validate | src/schematix/core/deps.py:20-26 | passes exactly when every dependency names a field |
| Deps.ZeroDepsFacts | src/schematix/core/deps.py:84 | the initial queue holds, once each and in mapping order, exactly the fields with no dependencies |
| Deps.NoCycleInOrder | src/schematix/core/deps.py:83-102 | an order of all fields with every dependency before its dependent rules out any cycle |
| Deps.BlockedHasCycle | src/schematix/core/deps.py:97-100 | when every leftover field waits on a leftover field, the dependencies contain a cycle |
| Deps.BlockedCycle | src/schematix/core/deps.py:97-100 | the fields Kahn's algorithm leaves out imply a cycle |
| Deps.ZeroDegrees | src/schematix/core/deps.py:72-74 | every field starts with in-degree 0 |
| Deps.AddEdges | src/schematix/core/deps.py:78-81 | one field's dependencies are recorded: each dependency lists the field as a dependent, and the field's in-degree counts them |
| Deps.BuildEdges | src/schematix/core/deps.py:76-81 | each name's dependents are the fields naming it, in mapping order and with repeats, and each field's in-degree is its number of dependencies |
| Deps.Seed | src/schematix/core/deps.py:84 | the queue starts with the fields of in-degree 0, in mapping order |
| Deps.Release | src/schematix/core/deps.py:92-95 | lowering the in-degree of each dependent keeps the queue invariant: a field enters the queue exactly when its last dependency has been output |
| Deps.Visit | src/schematix/core/deps.py:87-95 | one turn of the queue loop outputs one more field and keeps the invariant |
| Deps.Kahn | src/schematix/core/deps.py:83-95 | the output holds distinct field names, each after its dependencies, led by the fields without dependencies; every field left out waits on a field left out |
| Deps.CycleSearch.constructor | src/schematix/core/deps.py:30-31 | the search starts with nothing visited and an empty stack |
| Deps.CycleSearch.Dfs | src/schematix/core/deps.py:33-56 | a cycle it returns is a real cycle of the dependencies; when it returns none, the stack is as before and visited only grows |
| Deps.DependencyResolver.constructor | src/schematix/core/deps.py:12-18 | a resolver holds fields whose dependencies all exist |
| Deps.DependencyResolver.DetectCycle | src/schematix/core/deps.py:28-64 | the result is a real cycle, or the text "unknown cycle" |
| Deps.DependencyResolver.ResolveOrder | src/schematix/core/deps.py:66-102 | succeeds exactly when the dependencies have no cycle, with an order of all fields once each and dependencies first; otherwise the circular-dependency error carries a cycle or "unknown cycle" |
| Deps.NewResolver | src/schematix/core/deps.py:12-26 | fails exactly when a dependency is missing, with the validation error; otherwise the resolver holds the fields |
| SchemaMeta.IsField | src/schematix/core/metas/schema.py:50-60 | an attribute counts as a field exactly when it is one |
| SchemaMeta.InheritedDistinct | src/schematix/core/metas/schema.py:22-25 | the inherited registry never holds a name twice |
| SchemaMeta.InheritedHolds | src/schematix/core/metas/schema.py:22-25 | the inherited registry holds exactly the names some schema base holds |
| SchemaMeta.Inherited | src/schematix/core/metas/schema.py:22-25 | the registries of the bases merged in order; no contract of its own, specified by `InheritedDistinct`, `InheritedHolds` and `LaterBaseWins` |
| SchemaMeta.LaterBaseWins | src/schematix/core/metas/schema.py:22-25 | a name takes its field from the last base holding it |
| SchemaMeta.SkipLast | src/schematix/core/metas/schema.py:23-25 | a last base without the name leaves what is inherited under it unchanged |
| SchemaMeta.MergeRegistries | src/schematix/core/metas/schema.py:22-25 | the loop over the bases computes the inherited registry |
| SchemaMeta.NameDefaulted | src/schematix/core/metas/schema.py:31-33 | an unnamed field is named after its attribute; a named field is left as it is |
| SchemaMeta.DiscoveredEntries | src/schematix/core/metas/schema.py:28-36 | discovery moves exactly the field attributes into the registry, with unnamed ones named, and leaves exactly the other attributes in the namespace |
| SchemaMeta.DiscoveredKeys | src/schematix/core/metas/schema.py:28-36 | the registry's names are attribute names, each once |
| SchemaMeta.Discover | src/schematix/core/metas/schema.py:28-36 | the loop computes the discovered registry and the remaining namespace |
| SchemaMeta.Names | src/schematix/core/metas/schema.py:67 | one name per field, in registry order |
| SchemaMeta.Count | src/schematix/core/metas/schema.py:69 | the count is zero exactly when the name does not occur |
| SchemaMeta.Duplicates | src/schematix/core/metas/schema.py:69 | holds exactly the names that occur more than once |
| SchemaMeta.DuplicatesIffRepeated | src/schematix/core/metas/schema.py:68-70 | the duplicate list is empty exactly when no name repeats |
| SchemaMeta.Mismatch | src/schematix/core/metas/schema.py:72-81 | no error exactly when every field is named after its key; otherwise the error is for the first field that is not |
| SchemaMeta.FieldsErrorIff | src/schematix/core/metas/schema.py:62-81 | a registry with distinct keys passes exactly when every field is named after its key; a duplicate-name error lists real repeats |
| SchemaMeta.ValidateFields | src/schematix/core/metas/schema.py:62-81 | the duplicate check and then the loop compute the validation error |
| SchemaMeta.NewSchema | src/schematix/core/metas/schema.py:20-48 | the class is created, or the validation error raised, and the namespace keeps only the non-field attributes |
| SchemaMeta.CreateOrder | src/schematix/core/metas/schema.py:37-41 | inherited names keep their positions and new names follow in declaration order; `_fieldnames` lists the registry's keys |
| SchemaMeta.CreateOverrides | src/schematix/core/metas/schema.py:37-38 | declared fields override inherited ones; every other name keeps its inherited field |
| SchemaMeta.CreateSucceedsIff | src/schematix/core/metas/schema.py:44-48 | creation succeeds exactly when every field of the merged registry is named after its key |
| SchemaMeta.Create | src/schematix/core/metas/schema.py:20-48 | `SchemaMeta.__new__`; no contract of its own, specified by `CreateOrder`, `CreateOverrides`, `CreateSucceedsIff` and `BaseSchemas.CreatedWellFormed` |
| SchemaMeta.UnnamedFieldsAccepted | src/schematix/core/metas/schema.py:31-47 | a class declaring only unnamed fields over well-formed bases is always accepted |
| SchemaMeta.InheritedNamed | src/schematix/core/metas/schema.py:22-25 | inherited fields are named after their keys when every base's fields are |
| BaseSchemas.CreatedWellFormed | src/schematix/core/metas/schema.py:37-48 | every class the metaclass accepts has a registry with distinct keys, `_fieldnames` equal to its keys, and fields named after their keys |
| BaseSchemas.GetFields | src/schematix/core/bases/schema.py:40-43 | the registry, whose keys are distinct and are `_fieldnames` |
| BaseSchemas.GetFieldNames | src/schematix/core/bases/schema.py:45-48 | the names of the registry, in registry order |
| BaseSchemas.HasField | src/schematix/core/bases/schema.py:50-53 | true exactly when the name is among the field names, equivalently when the registry holds it |
| BaseSchemas.ValidationEntries | src/schematix/core/bases/schema.py:81-99 | the errors are exactly the fields whose extraction raises, each with its message |
| BaseSchemas.ValidationErrors | src/schematix/core/bases/schema.py:81-99 | the failing fields with their messages, in registry order; no contract of its own, specified by `ValidationEntries`, `ValidationEmptyIff` and `ValidationKeys` |
| BaseSchemas.ValidationEmptyIff | src/schematix/core/bases/schema.py:81-99 | no errors exactly when every field extracts |
| BaseSchemas.ValidationKeys | src/schematix/core/bases/schema.py:91-97 | the errors are keyed exactly by the failing fields |
| BaseSchemas.Validate | src/schematix/core/bases/schema.py:81-99 | the loop computes the validation errors |
| BaseSchemas.ValidationStep | src/schematix/core/bases/schema.py:93-97 | one turn of the loop adds the entry for one field in front of the rest |
| Schemas.RunSucceedsIff | src/schematix/core/schema.py:163-169 | the field loop runs to the end exactly when every field succeeds |
| Schemas.RunFailsAtFirst | src/schematix/core/schema.py:165-169 | a loop that stops reports the first failing field with its error |
| Schemas.RunEntries | src/schematix/core/schema.py:163-169 | with distinct names, the loop appends one entry per field, in order |
| Schemas.RunResult | src/schematix/core/schema.py:163-173 | started empty, the loop gives every field's value under its name in registry order, or the first failure |
| Schemas.Extractions | src/schematix/core/schema.py:165-167 | each field's name with the outcome of its extraction, in registry order |
| Schemas.TransformFields | src/schematix/core/schema.py:163-169 | the loop computes the run over the extractions |
| Schemas.AsDict | src/schematix/core/schema.py:163-167 | the result dictionary holds the entries in order, keyed by their names |
| Schemas.TransformSchema | src/schematix/core/schema.py:152-173 | `transform` as written computes `Transform` |
| Schemas.ExtractionsDistinct | src/schematix/core/schema.py:165 | the extractions of a well-formed class have distinct names |
| Schemas.TransformSucceedsIff | src/schematix/core/schema.py:152-173 | `transform` succeeds exactly when every field extracts |
| Schemas.Transform | src/schematix/core/schema.py:152-173 | `transform(data)` without a target type; no contract of its own, specified by `TransformSucceedsIff`, `TransformEntries` and `TransformFailsAtFirst` |
| Schemas.TransformEntries | src/schematix/core/schema.py:163-173 | on success the result has exactly the field names, in order, each holding that field's extraction |
| Schemas.TransformFailsAtFirst | src/schematix/core/schema.py:165-169 | on failure the error names the first field that raised, wrapping its error |
| Schemas.Outcomes | src/schematix/core/schema.py:295-297 | the outcome of `transform` on each item, in order |
| Schemas.TransformEach | src/schematix/core/schema.py:282-302 | the loop computes `transformplural` |
| Schemas.EachFacts | src/schematix/core/schema.py:293-302 | from an item on, the loop succeeds exactly when every later item does, giving one result per item; otherwise it reports the first failing index |
| Schemas.TransformPluralResult | src/schematix/core/schema.py:282-302 | one transformed item per input item, in order, exactly when every item transforms; otherwise the error names the first failing index |
| Schemas.TransformPlural | src/schematix/core/schema.py:282-302 | `transformplural(datalist)`; no contract of its own, specified by `TransformPluralResult` |
| Schemas.AsNamespace | src/schematix/core/schema.py:222-223 | a registry becomes a namespace holding the same fields under the same names |
| Schemas.Renamed | src/schematix/core/metas/schema.py:31-33 | each field keeps its key and gets its key as name when it had none |
| Schemas.DiscoveredNamespace | src/schematix/core/schema.py:222-223 | discovery on a registry's namespace finds the registry again, with unnamed fields named |
| Schemas.RenamedKeys | src/schematix/core/metas/schema.py:31-35 | renaming keeps the keys and their distinctness |
| Schemas.RenamedGet | src/schematix/core/metas/schema.py:31-35 | reading a renamed registry gives the field under that key, named after the key when unnamed |
| Schemas.RenamedWellNamed | src/schematix/core/metas/schema.py:31-33 | a well-named registry is left as it is |
| Schemas.GetNamed | src/schematix/core/metas/schema.py:77-78 | a field read from a well-named registry is named after its key |
| Schemas.UpdateWellNamed | src/schematix/core/metas/schema.py:38 | merging two well-named registries keeps them well named |
| Schemas.DerivedFields | src/schematix/core/schema.py:211-223 | a class derived from a base with a registry as namespace has the base's fields updated by the renamed registry |
| Schemas.Recreate | src/schematix/core/schema.py:272-280 | deriving from `Schema` with a well-named registry gives a class holding exactly that registry |
| Schemas.SubsetResult | src/schematix/core/schema.py:262-280 | `subset` succeeds exactly when some requested name is a field; the new class holds exactly the requested fields, in registry order; otherwise it raises "No valid fields found" |
| Schemas.Subset | src/schematix/core/schema.py:262-280 | `subset(*fieldnames)`; no contract of its own, specified by `SubsetResult` |
| Schemas.MergeSchemas | src/schematix/core/schema.py:226-241 | `Merge` as written computes `Merge` |
| Schemas.MergeResult | src/schematix/core/schema.py:226-241 | merging well-formed schemas is accepted; each name takes the field of the last schema holding it, and the new class's own fields otherwise |
| Schemas.Merge | src/schematix/core/schema.py:226-241 | `Merge(*schemas)`; no contract of its own, specified by `MergeSchemas` and `MergeResult` |
| Schemas.CopyFields | src/schematix/core/schema.py:254-260 | the copied registry has distinct keys, and the new class gets it with unnamed overrides named |
| Schemas.MisnamedOverride | src/schematix/core/schema.py:244-260 | an override named other than its keyword makes the copy fail validation |
| Schemas.AcceptableOverrides | src/schematix/core/schema.py:244-260 | unnamed or correctly named overrides give a well-named registry |
| Schemas.CopySucceedsIff | src/schematix/core/schema.py:244-260 | `Copy` is accepted exactly when every override is unnamed or named after its keyword |
| Schemas.CopyResult | src/schematix/core/schema.py:254-260 | an override replaces the field of the same name or is added after the others; every other field stays |
| Schemas.Copy | src/schematix/core/schema.py:244-260 | `Copy(**overrides)`; no contract of its own, specified by `CopyFields`, `CopySucceedsIff` and `CopyResult` |
| Schemas.EntryFor | src/schematix/core/schema.py:48 | a name absent from the mapping has no entry |
| Schemas.ReboundKeeps | src/schematix/core/schema.py:63-70 | a rebuilt field keeps its name, required flag and default, and reads from the new source |
| Schemas.BindField | src/schematix/core/schema.py:37-71 | no entry keeps the field; an invalid entry raises "Invalid mapping"; a path, pair or callable rebuilds a leaf field with the corresponding source and transform; a composite field cannot be rebuilt and raises TypeError |
| Schemas.Bindings | src/schematix/core/schema.py:81-83 | each field's name with the outcome of binding it, in registry order |
| Schemas.BindFields | src/schematix/core/schema.py:73-84 | the loop computes the run over the bindings |
| Schemas.TransformBound | src/schematix/core/schema.py:87-105 | the loop computes the bound transform |
| Schemas.BindingsDistinct | src/schematix/core/schema.py:80-84 | the bindings of a well-formed class have distinct names |
| Schemas.BindResult | src/schematix/core/schema.py:175-188 | binding succeeds exactly when every field binds, giving the bound fields under the registry's names in order; otherwise it reports the first field that fails |
| Schemas.Bind | src/schematix/core/schema.py:175-188 | `bind(mapping)`; no contract of its own, specified by `BindResult` |
| Schemas.BoundTransformKeys | src/schematix/core/schema.py:87-105 | a bound schema transforms into the registry's names, in order |
| Schemas.BoundTransform | src/schematix/core/schema.py:87-105 | `BoundSchema.transform(data)`; no contract of its own, specified by `TransformBound`, `BoundTransformKeys` and `UnmappedBindingTransformsAlike` |
| Schemas.UnmappedBindingTransformsAlike | src/schematix/core/schema.py:48-50 | with no mapping entry for any field, the bound schema keeps the same fields and transforms as the schema does, its error wrapped differently |
| Transforms.Given | src/schematix/core/bases/transform.py:140 | a missing context becomes the empty dict; a given one is kept |
| Transforms.FieldValues | src/schematix/core/transform.py:110-112 | one value per field name, in order: the context's entry, or None when the key is missing |
| Transforms.Combine | src/schematix/core/bases/transform.py:313 | without a combiner the results are returned as a list; with one, the combiner gets that list |
| Transforms.NoContextIsEmpty | src/schematix/core/bases/transform.py:127-142 | applying a transform with no context is applying it with the empty dict |
| Transforms.Apply | src/schematix/core/bases/transform.py:127-142 | `t.apply(value, context)` by transform kind; no contract of its own, specified by `NoContextIsEmpty`, `PipelineFolds`, `ThenComposes`, `FallbackFailsIffBoth` and `ParallelDefaultList` |
| Transforms.ChainNoContext | src/schematix/core/bases/transform.py:178-194 | a pipeline's loop with no context is its loop with the empty dict |
| Transforms.EachNoContext | src/schematix/core/bases/transform.py:315-332 | a parallel transform's loop with no context is its loop with the empty dict |
| Transforms.ChainAppend | src/schematix/core/bases/transform.py:189-194 | running the children of `a + b` runs `a`'s, then `b`'s on the result; a failure in `a` ends the run |
| Transforms.Chain | src/schematix/core/bases/transform.py:189-194 | the pipeline's loop; no contract of its own, specified by `ChainNoContext`, `ChainAppend` and `ChainSingle` |
| Transforms.ApplyPipeline | src/schematix/core/bases/transform.py:178-194 | the loop reassigning `result` computes the pipeline's application |
| Transforms.NameOr | src/schematix/core/bases/transform.py:174 | a non-empty name is kept; a missing or empty one takes the default |
| Transforms.MakePipeline | src/schematix/core/bases/transform.py:152-176 | construction fails exactly on no children, with the "at least one transform" error; otherwise the pipeline holds the children and is named "Pipeline(n transforms)" unless named |
| Transforms.PipelineFolds | src/schematix/core/bases/transform.py:178-194 | a built pipeline applies its children left to right |
| Transforms.Stages | src/schematix/core/bases/transform.py:212-221 | a pipeline contributes its children; any other transform contributes itself |
| Transforms.Then | src/schematix/core/bases/transform.py:212-221 | `p >> q` builds the pipeline `[p, q]`; a pipeline on the left is extended by the right operand, whose children are spliced in when it is a pipeline; the result has the default name |
| Transforms.ThenComposes | src/schematix/core/bases/transform.py:56-62 | whatever the operands, `p >> q` applies `p`, then `q` to its result, stopping on `p`'s failure |
| Transforms.ChainSingle | src/schematix/core/bases/transform.py:189-194 | a one-child chain is its child |
| Transforms.Add | src/schematix/core/bases/transform.py:196-210 | the child is appended, and a non-empty name and the description are kept |
| Transforms.AddRunsLast | src/schematix/core/bases/transform.py:196-210 | the added child runs last, on the pipeline's result |
| Transforms.MakeFallback | src/schematix/core/bases/transform.py:235-272 | named after both sides unless named; the primary's success is the result, and on its failure the backup's outcome is |
| Transforms.FallbackFailsIffBoth | src/schematix/core/bases/transform.py:257-272 | a fallback fails exactly when both sides fail, with the backup's error |
| Transforms.EachPointwise | src/schematix/core/bases/transform.py:326-330 | the loop succeeds exactly when every child does, giving each child's result in order; otherwise the first failure |
| Transforms.Each | src/schematix/core/bases/transform.py:326-330 | the parallel loop; no contract of its own, specified by `EachPointwise`, `EachAppend` and `EachSingle` |
| Transforms.EachAppend | src/schematix/core/bases/transform.py:326-330 | running the children of `a + b` gives `a`'s results followed by `b`'s, or the first failure |
| Transforms.EachSingle | src/schematix/core/bases/transform.py:326-330 | a single child gives a one-element list of results |
| Transforms.ApplyParallel | src/schematix/core/bases/transform.py:315-332 | the loop appending to `results` computes the parallel application |
| Transforms.MakeParallel | src/schematix/core/bases/transform.py:285-313 | construction fails exactly on no children; otherwise the transform holds the children and combiner and is named "Parallel(n transforms)" unless named |
| Transforms.ParallelDefaultList | src/schematix/core/bases/transform.py:313-332 | without a combiner, the result is the list of every child's result, in order |
| Transforms.Branches | src/schematix/core/bases/transform.py:351-362 | a parallel transform contributes its children; any other transform contributes itself |
| Transforms.And | src/schematix/core/bases/transform.py:351-362 | `p & q` builds `[p, q]`; a parallel transform on the left is extended, keeping its combiner, and one on the right is flattened into it |
| Transforms.AndFlattens | src/schematix/core/bases/transform.py:315-362 | joining two parallel transforms combines, with the left combiner, the results of both children lists |
| Transforms.AddBranch | src/schematix/core/bases/transform.py:334-349 | the child is appended, and the combiner, description and a non-empty name are kept |
| Transforms.AddBranchResultsLast | src/schematix/core/bases/transform.py:334-349 | the added child's result comes last in what the combiner gets |
| Transforms.MakeTransform | src/schematix/core/bases/transform.py:102-142 | the name defaults to the function's when none is given; a context-aware function gets the context or `{}`, any other only the value |
| Transforms.MakeMultiField | src/schematix/core/transform.py:99-118 | named "multifield(a, b)", it ignores its value and calls the function with the context's entries for the fields |
| Transforms.MakeConditional | src/schematix/core/transform.py:121-147 | named after its branches, "identity" standing in for a missing false branch |
| Transforms.ConditionalChoice | src/schematix/core/transform.py:135-141 | a true condition applies the true branch; a false one applies the false branch, or returns the value unchanged without one; a raising condition raises |
| Slicing.Slice | src/schematix/transforms/collections.py:256-263 | `xs[start:stop:step]` is refused exactly when the step is zero |
| Slicing.Adjust | src/schematix/transforms/collections.py:259-261 | a negative bound counts from the end; the result is clamped to `0..n` for a forward walk and `-1..n-1` for a backward one, and an index already in range is kept |
| Slicing.Forward | src/schematix/transforms/collections.py:259-261 | the forward walk of a positive-step slice; no contract of its own, specified by `ForwardPicks` and `ForwardUnit` |
| Slicing.Backward | src/schematix/transforms/collections.py:120 | the backward walk of a negative-step slice; no contract of its own, specified by `BackwardAll` and `SliceReverses` |
| Slicing.ForwardPicks | src/schematix/transforms/collections.py:259-261 | a positive-step slice picks every step-th item from the start, all of them before the stop |
| Slicing.ForwardUnit | src/schematix/transforms/collections.py:259-261 | with a unit step, a slice is the plain contiguous subsequence |
| Slicing.Reversed | src/schematix/transforms/collections.py:117-122 | the reversal has the same length, and its k-th item is the k-th from the end |
| Slicing.ReversedTwice | src/schematix/transforms/collections.py:117-122 | reversing twice gives the sequence back |
| Slicing.BackwardAll | src/schematix/transforms/collections.py:120 | a step -1 walk from the last item down visits every item, last first |
| Slicing.SliceReverses | src/schematix/transforms/collections.py:120 | `xs[::-1]` is the reversal |
| Slicing.Prefix | src/schematix/transforms/text.py:203 | `xs[:n]` is the first n items for a non-negative n (all when n is too large), and drops the last -n items for a negative one |
| Slicing.Suffix | src/schematix/transforms/collections.py:316 | `xs[n:]` drops the first n items for a non-negative n, and keeps the last -n for a negative one |
| Slicing.PrefixSuffix | src/schematix/transforms/collections.py:296-318 | the prefix and the suffix at the same index put the sequence back together |
| Collections.PyIndex | src/schematix/transforms/collections.py:52-57 | Python indexing: a non-negative index in range, or a negative one counting from the end, reaches an item; exactly the others are out of range |
| Collections.Indexed | src/schematix/transforms/collections.py:51-57 | `first`, `last` and `nth` index a dict's values and any other iterable's items |
| Collections.First | src/schematix/transforms/collections.py:12-22 | the first item, None for an empty collection, the value itself when it is not iterable |
| Collections.Last | src/schematix/transforms/collections.py:24-35 | the last item, None for an empty collection, the value itself when it is not iterable |
| Collections.Nth | src/schematix/transforms/collections.py:37-60 | the item at a Python index, the default when it is out of range or the value is not iterable |
| Collections.FirstLastAreNth | src/schematix/transforms/collections.py:12-60 | on a non-empty collection `first` is `nth(0)` and `last` is `nth(-1)`; on an empty one both give None and `nth` its default |
| Collections.NthNegative | src/schematix/transforms/collections.py:52-57 | a negative index reaches the same item as its positive counterpart |
| Collections.Length | src/schematix/transforms/collections.py:62-68 | `len` of a sized value, 0 for an unsized one |
| Collections.IsEmpty | src/schematix/transforms/collections.py:70-76 | empty exactly when `length` is 0, an unsized value included |
| Collections.Flat | src/schematix/transforms/collections.py:83-91 | the recursive walk yields only strings and non-iterable values |
| Collections.FlatAll | src/schematix/transforms/collections.py:88-89 | walking a sequence of items yields only atoms |
| Collections.FlatKeys | src/schematix/transforms/collections.py:88-89 | walking a dict yields only atoms, from its keys |
| Collections.Flatten | src/schematix/transforms/collections.py:80-96 | the result is a list of atoms |
| Collections.FlatAllAppend | src/schematix/transforms/collections.py:88-89 | flattening a concatenation flattens each part in order |
| Collections.FlatAllAtoms | src/schematix/transforms/collections.py:83-91 | a list of atoms is already flat |
| Collections.FlattenIdempotent | src/schematix/transforms/collections.py:80-96 | flattening twice is flattening once |
| Collections.DedupFirsts | src/schematix/transforms/collections.py:104-110 | with the earlier items as the seen set, the loop keeps exactly the items at their first occurrence |
| Collections.DedupFacts | src/schematix/transforms/collections.py:104-110 | what the loop keeps is an ordered subsequence without repeats, holding every unseen item |
| Collections.UniqueKeepsFirsts | src/schematix/transforms/collections.py:98-110 | `unique` keeps each item once, in order of first occurrence, and loses none |
| Collections.UniqueItems | src/schematix/transforms/collections.py:103-112 | the loop over `seen` and `result` raises exactly when some item is unhashable, and otherwise computes the deduplication |
| Collections.Unique | src/schematix/transforms/collections.py:98-112 | a dict gives its keys; a non-iterable gives `[value]`, or `[]` for None |
| Collections.Reverse | src/schematix/transforms/collections.py:114-124 | a list is reversed, a string read backwards, a dict gives its keys reversed, anything else is returned as is |
| Collections.ReverseInvolution | src/schematix/transforms/collections.py:114-124 | reversing a list or a string twice gives it back |
| Collections.Filter | src/schematix/transforms/collections.py:175-193 | a dict keeps the entries whose value satisfies the predicate, an iterable the items that do, a non-iterable is checked whole |
| Collections.KeepItemsFacts | src/schematix/transforms/collections.py:190 | filtering succeeds when the predicate never raises, and keeps in order exactly the items it accepts |
| Collections.Map | src/schematix/transforms/collections.py:195-213 | a dict's values are mapped under the same keys, an iterable's items in order, a non-iterable whole |
| Collections.MapAllPointwise | src/schematix/transforms/collections.py:210 | one result per item, each the function applied to that item, unless the function raises on one |
| Collections.MapEntriesPointwise | src/schematix/transforms/collections.py:209 | mapping a dict keeps its keys in order and maps each value |
| Collections.SliceOf | src/schematix/transforms/collections.py:243-264 | an iterable is sliced, a zero step raising; a string stays a string; a non-iterable is returned as is |
| Collections.Take | src/schematix/transforms/collections.py:285-301 | the first `count` items; a negative count raises; a non-iterable gives `[value]` for a positive count |
| Collections.Skip | src/schematix/transforms/collections.py:303-319 | the items after the first `count`; a negative count raises; a non-iterable gives `[value]` only for count 0 |
| Collections.TakeSkip | src/schematix/transforms/collections.py:285-319 | what is taken followed by what is skipped is the whole collection, and `take` gives at most `count` items |
| Collections.ChunksFacts | src/schematix/transforms/collections.py:280 | the chunks join back into the items, each holds between 1 and `size` items, and all but the last exactly `size` |
| Collections.AsLists | src/schematix/transforms/collections.py:280 | each chunk becomes one list value, in order |
| Collections.Chunk | src/schematix/transforms/collections.py:266-283 | a positive size gives the chunks; size 0 raises; a negative size gives `[]`; a non-iterable gives `[[value]]` |
| Collections.ChunkThenFlatten | src/schematix/transforms/collections.py:80-96 | flattening the chunks of a list of atoms gives the list back |
| Collections.FlatChunks | src/schematix/transforms/collections.py:277-280 | flattening chunks that join into a list of atoms gives that list |
| Collections.KeysOf | src/schematix/transforms/collections.py:323-328 | a dict's keys, in order; `[]` for anything else |
| Collections.ValuesOf | src/schematix/transforms/collections.py:330-335 | a dict's values, in order; `[]` for anything else |
| Collections.KeysValuesZip | src/schematix/transforms/collections.py:323-335 | `keys` and `values` pair up into the dict's entries |
| Collections.GetKey | src/schematix/transforms/collections.py:344-362 | a dict gives the key's entry or the default; an unhashable key, or a non-string key on a non-dict, raises |
| Collections.GetAfterSet | src/schematix/transforms/collections.py:356-358 | reading a key just stored gives the stored value; a missing key gives the default |
| Collections.Singleton | src/schematix/transforms/collections.py:472 | `{value}` succeeds exactly for a hashable value |
| Collections.ToSet | src/schematix/transforms/collections.py:464-472 | an iterable of hashable items gives the set of its items; it raises only for an unhashable value |
| Collections.Union | src/schematix/transforms/collections.py:474-492 | the items of either side; if either conversion raises, `toset(value)` |
| Collections.Intersection | src/schematix/transforms/collections.py:494-512 | never raises: the common items, or the empty set if a conversion raises |
| Collections.Difference | src/schematix/transforms/collections.py:514-532 | the value's items not in the other; if either conversion raises, `toset(value)` |
| Collections.DifferenceIntersectionSplit | src/schematix/transforms/collections.py:505-531 | the difference and the intersection are disjoint and together make the value's set |
| Collections.Append | src/schematix/transforms/collections.py:536-554 | a fresh list of the items with the item last; a non-iterable gives `[value, item]`, None gives `[item]` |
| Collections.Prepend | src/schematix/transforms/collections.py:556-574 | a fresh list with the item first; a non-iterable gives `[item, value]`, None gives `[item]` |
| Collections.Extend | src/schematix/transforms/collections.py:576-597 | the items followed by the other's; each fallback of the nested handlers as written |
| Collections.AppendIsExtend | src/schematix/transforms/collections.py:536-597 | appending is extending by a one-item list, and `append` and `prepend` both add exactly one item |
| Grouping.KeyOf | src/schematix/transforms/collections.py:448-451 | a name reads the object's attribute, else the dict's entry, else None; a function is called on the item |
| Grouping.Outcomes | src/schematix/transforms/collections.py:454-455 | one key outcome per item, in item order |
| Grouping.KeyValues | src/schematix/transforms/collections.py:455 | the computed keys, one per item, in order |
| Grouping.GroupKeyed | src/schematix/transforms/collections.py:453-457 | when every key is computed and hashable, the loop runs to the end |
| Grouping.FoldMembers | src/schematix/transforms/collections.py:453-457 | each group holds exactly the items of its key, in input order, after what it held before |
| Grouping.Group | src/schematix/transforms/collections.py:453-457 | `groupby`'s loop; no contract of its own, specified by `GroupKeyed`, `FoldMembers` and `FoldKeys` |
| Grouping.FoldKeys | src/schematix/transforms/collections.py:453-457 | the groups' keys are the earlier keys, then each new key at its first appearance, with no repeats |
| Grouping.Sizes | src/schematix/transforms/collections.py:426-430 | one count per group, the size of that group |
| Grouping.SizesBump | src/schematix/transforms/collections.py:429 | counting one more item is sizing the group the item joined |
| Grouping.TallySizes | src/schematix/transforms/collections.py:408-460 | `countby` counts what `groupby` collects, and fails with the same error |
| Grouping.Tally | src/schematix/transforms/collections.py:426-430 | `countby`'s loop; no contract of its own, specified by `TallySizes` |
| Grouping.GroupDict | src/schematix/transforms/collections.py:457 | the groups as a dict of lists, keys in order |
| Grouping.CountDict | src/schematix/transforms/collections.py:430 | the counts as a dict of ints, keys in order |
| Grouping.GroupBy | src/schematix/transforms/collections.py:435-460 | a non-iterable gives `{}`; caught errors give `{}`, others propagate |
| Grouping.CountBy | src/schematix/transforms/collections.py:408-433 | a non-iterable gives `{}`; caught errors give `{}`, others propagate |
| Grouping.GroupByFold | src/schematix/transforms/collections.py:408-460 | when every key is usable, `groupby` and `countby` are the dicts of the completed loop |
| Grouping.GroupByKeys | src/schematix/transforms/collections.py:453-457 | when every key is usable, both succeed, keyed by the distinct keys in order of first appearance |
| Grouping.GroupByMembers | src/schematix/transforms/collections.py:426-457 | when every key is usable, each key maps to exactly its items in order, and its count to their number; absent keys are absent |
| Grouping.GroupItems | src/schematix/transforms/collections.py:453-457 | the loop appending to `groups[keyval]` computes the grouping |
| Grouping.CountItems | src/schematix/transforms/collections.py:426-430 | the loop bumping `counter[keyval]` computes the counts |
| Text.Replace | src/schematix/transforms/text.py:44-59 | with a non-empty target absent from the text, the text is unchanged |
| Text.ReplaceIsSplitJoin | src/schematix/transforms/text.py:58 | with a non-empty target, replacing is splitting on the target with the same limit and joining with the replacement |
| Text.ReplaceAll | src/schematix/transforms/text.py:58 | `str.replace`; no contract of its own, specified by `ReplaceIsSplitJoin` and `ReplaceSelf` |
| Text.ReplaceSelf | src/schematix/transforms/text.py:58 | replacing a substring by itself changes nothing |
| Text.RemovePrefix | src/schematix/transforms/text.py:61-75 | a leading prefix is removed, leaving what followed it; otherwise the text is unchanged |
| Text.RemovePrefixAdded | src/schematix/transforms/text.py:72-74 | removing a prefix that was just added gives the text back |
| Text.RemoveSuffix | src/schematix/transforms/text.py:77-91 | a trailing non-empty suffix is removed, leaving what preceded it; otherwise the text is unchanged |
| Text.RemoveSuffixAdded | src/schematix/transforms/text.py:88-90 | removing a suffix that was just added gives the text back, the empty suffix included |
| Text.RemoveSuffixFallback | src/schematix/transforms/text.py:90 | the fallback branch as written agrees with `removesuffix` for a non-empty suffix |
| Text.RemoveSuffixFallbackEmpties | src/schematix/transforms/text.py:90 | for the empty suffix, the fallback branch empties "abc" where `removesuffix` keeps it |
| Text.Truncate | src/schematix/transforms/text.py:187-204 | a text that fits is kept; a longer one, when the length leaves room for the suffix, becomes exactly `length` characters: its start and then the suffix |
| Text.TruncateOverlong | src/schematix/transforms/text.py:203 | truncating "abcdef" to 2 with "..." gives "abcde...", longer than the input |
| Text.TruncateClamped | src/schematix/transforms/text.py:187-204 | with the cut clamped at 0, a text that fits is kept, and a longer one becomes a prefix of it followed by the suffix |
| Text.TruncateClampedBound | src/schematix/transforms/text.py:187-204 | a clamped truncation is never longer than the larger of `length` and the suffix, and it is exactly that long when it cuts |
| Text.PadLeft | src/schematix/transforms/text.py:206-220 | a fill that is not one character raises; otherwise the text is right-aligned in the width, with fill characters in front |
| Text.PadRight | src/schematix/transforms/text.py:222-236 | a fill that is not one character raises; otherwise the text is left-aligned in the width, with fill characters after it |
| Text.Center | src/schematix/transforms/text.py:238-252 | a fill that is not one character raises; otherwise the text sits between two runs of fill that differ by at most one |
| Text.Zfill | src/schematix/transforms/text.py:254-267 | the result has the larger of the width and the text's length; a text already that wide is unchanged |
| Text.ZfillInserts | src/schematix/transforms/text.py:266 | only zeros are inserted, after a leading sign; taking them out gives the text back |
| Text.Split | src/schematix/transforms/text.py:271-285 | an empty separator raises; otherwise a list of strings, split on the separator or on whitespace runs, with the limit |
| Text.Texts | src/schematix/transforms/text.py:335 | each item as its string, in order |
| Text.Join | src/schematix/transforms/text.py:318-339 | a string is returned as is; a list's items are joined as strings; a non-iterable becomes its string |
| Text.JoinAfterSplit | src/schematix/transforms/text.py:271-339 | joining what a split on a non-empty separator produced, with that separator, gives the text back |
| Text.Reverse | src/schematix/transforms/text.py:377-380 | the text read backwards, the same as the `[::-1]` slice |
| Text.ReverseTwice | src/schematix/transforms/text.py:377-380 | reversing the reversed text gives the text back |
| Text.PrefixSplits | src/schematix/transforms/text.py:394 | a prefix test holds exactly when the text is the prefix followed by something |
| Text.SuffixSplits | src/schematix/transforms/text.py:409 | a suffix test holds exactly when the text is something followed by the suffix |
| Text.StartsWith | src/schematix/transforms/text.py:382-395 | true exactly when the text is the prefix followed by something |
| Text.EndsWith | src/schematix/transforms/text.py:397-410 | true exactly when the text is something followed by the suffix |
| Text.ContainsSplits | src/schematix/transforms/text.py:430 | containment holds exactly when the text is something, the substring, then something |
| Text.ContainsText | src/schematix/transforms/text.py:412-431 | true exactly when the substring occurs in the text, both lower-cased when the test is case-insensitive |
| Validation.HasLength | src/schematix/transforms/validation.py:144-162 | the text's length is at least `minlen`, and at most `maxlen` when one is given |
| Validation.HasLengthBounds | src/schematix/transforms/validation.py:156-162 | an upper bound only narrows the check, and on a string it agrees with the collection length checks |
| Validation.HasSubstring | src/schematix/transforms/validation.py:183-203 | true exactly when the substring occurs in the text, both lower-cased when the test is case-insensitive |
| Validation.InRangeInt | src/schematix/transforms/validation.py:238-261 | false when `int(value)` fails; otherwise the number lies in the range, bounds included or excluded as asked |
| Validation.InRangeIntFacts | src/schematix/transforms/validation.py:252-260 | a strict check passes only where the inclusive one does; an int is compared directly, True counts as 1, None is never in range |
| Validation.InRangeIntText | src/schematix/transforms/validation.py:253-260 | a string is in range exactly when it parses as an int that is; an unparsable string never is |
| Validation.CanBeBool | src/schematix/transforms/validation.py:313-321 | bools and ints pass; a string passes exactly when it lowercases to one of the eight words; other values fail |
| Validation.CanBeBoolIgnoresCase | src/schematix/transforms/validation.py:320 | a string passes exactly when its lower-cased form does |
| Validation.NotEmpty | src/schematix/transforms/validation.py:325-335 | None fails; a string needs a non-whitespace character; a sized value needs a positive length; an unsized value passes |
| Validation.NotNull | src/schematix/transforms/validation.py:337-340 | true exactly for a value that is not None |
| Validation.IsBlank | src/schematix/transforms/validation.py:342-347 | None is blank; any other value is blank exactly when its text is only whitespace |
| Validation.ContentChecks | src/schematix/transforms/validation.py:325-347 | whatever is not empty is not null, and on None and strings `notempty` is the negation of `isblank` |
| Validation.MinLength | src/schematix/transforms/validation.py:354-371 | false without a length; otherwise the length is at least `minlen` |
| Validation.MaxLength | src/schematix/transforms/validation.py:373-390 | false without a length; otherwise the length is at most `maxlen` |
| Validation.LengthWindow | src/schematix/transforms/validation.py:354-390 | both checks pass exactly for a sized value whose length lies between the bounds, so never when the bounds cross |
| Validation.CollectionContains | src/schematix/transforms/validation.py:392-409 | list membership; a hashable key among a dict's keys; a substring of a string; false for anything else |
| Validation.AllAnyOf | src/schematix/transforms/validation.py:425-444 | when the predicate decides every item, `all` and `any` are the universal and existential statements over the items |
| Validation.AllItems | src/schematix/transforms/validation.py:411-428 | a non-iterable is judged by the predicate as a whole |
| Validation.AnyItem | src/schematix/transforms/validation.py:430-447 | a non-iterable is judged by the predicate as a whole |
| Validation.ItemChecks | src/schematix/transforms/validation.py:411-447 | on an iterable the predicate decides, `allitems` holds when every item passes and `anyitem` when some item does |
| Validation.ItemChecksEmpty | src/schematix/transforms/validation.py:425-444 | with no items, `allitems` is true and `anyitem` false |
| Validation.Require | src/schematix/transforms/validation.py:517-533 | a true condition lets the value through; a false one raises with the message and the value; a raising condition propagates |
| Validation.RequirePassesThrough | src/schematix/transforms/validation.py:529-532 | `require` never changes the value it lets through, and a failed condition raises a ValueError reading the message, a colon and the value's text |
| Validation.RequireNotEmpty | src/schematix/transforms/validation.py:542-545 | a non-empty value passes; any other raises with the message |
| Validation.RequireLength | src/schematix/transforms/validation.py:547-557 | a value of allowed length passes; any other raises, with the given message or the default one for the bounds |
| Values.StrRepr | src/schematix/core/field.py:718-720 | the repr of a string, as the list of sources in the required-field message shows it: it is wrapped in the quote `ReprQuote` chooses |
| Values.ReprQuote | src/schematix/core/field.py:718-720 | the quote is `"` exactly when the text holds a single quote and no double quote, and `'` otherwise |
| Values.Escape | src/schematix/core/field.py:718-720 | a character stands for itself exactly when it is not the chosen quote, not a backslash and printable; otherwise it becomes an escape |
| Values.PlainStrRepr | src/schematix/core/field.py:718-720 | a string without quotes, backslashes or unprintable characters is shown as itself between single quotes |
| Values.UnescapeEscapeAll | src/schematix/core/field.py:718-720 | the body of a string's repr reads back as the string itself |

## Left out

- Python object identity and aliasing. Field objects are values, except `LeafField.FieldObject`. A bound field whose target field is the source field is marked by an absent target rather than by `is`.
- Thread safety of the attribute swaps in `_extractwithoverrides`, `SourceField` and `TargetField`. The model is sequential.
- Duck-typed fields: `_isfield` is modelled over field values and other namespace entries. An arbitrary object that merely has the five attributes is not representable.
- Floating point, bytes and tuples: there is no float or bytes value, and tuples are lists. This drops the float branches of `_combinevalues`, `canbe.bool` and `inrange.int`, and `flatten`'s bytes atoms.
- User-defined `__add__` in `_combinevalues` (core/field.py:580-585): attribute objects are taken to define no `+`. The same-type branch then raises TypeError for None and objects alike, and falls back to the string join the model uses.
- Python's `True == 1` and `hash(True) == hash(1)`: bools and ints are distinct dict keys and set members in the model.
- Dict equality is insertion-order sensitive in the model, while Python's is not. Every result keeps the order Python produces, so the stated equalities also hold in Python.
- `Schema` type targets: `_typeconvert` and the `typetarget` argument of `transform` (core/schema.py:123-150) use dataclass and pydantic reflection.
- The class objects that `FromFields`, `Merge`, `Copy` and `subset` create with `type(...)`. They are modelled as their field registries, and their generated class names are not.
- `Schema.validate` (core/schema.py:190-208) repeats `BaseSchema.validate` and is modelled by `BaseSchemas.Validate`.
- The dependency-ordered evaluation of conditional fields is not a schema operation in the code, so it is not modelled beyond the resolver's order.
- Dates, numbers, regular expressions, Unicode and encodings: `dates.py`, `numbers.py`, `common.py`, `PATTERNS`, `isa.*`, `clean.*`, `has.pattern`/`uppercase`/`lowercase`/`digits`/`specialchars`, `canbe.int`/`float`, `inrange.float`, `requires.email`, `slug`, `normalizewhitespace`, the case mappings, `rsplit`, `splitlines`, `encode`/`decode`/`html`. All of these are foreign library calls or float arithmetic.
- `sort`, `sortby` and `shuffle` depend on Python's ordering of mixed values or on randomness. `where`, `pluck`, `items` and `sum` are not modelled, and `count` is `length`.
- The `name` strings of the helper transforms and the `Transform` objects the `@transform` decorator wraps around each helper. The helpers are modelled as the functions inside.
- The `__repr__` methods, the "'transforms' must be a list or tuple" type check, and the decorator modules that use `inspect`.
- Predicates return a bool or an error, not an arbitrary truthy value.
- Text.ContainsText and Validation.HasSubstring: the case-insensitive test lowers ASCII letters only, not full Unicode case folding.
- Collections.SliceOf, Collections.Take, Collections.Skip and Collections.GetKey: error messages follow CPython's wording, which can differ between Python versions.
- Deps.DependencyResolver.DetectCycle: does not prove that the depth-first search finds a cycle whenever one exists. When it finds none, `ResolveOrder` reports "unknown cycle", as the code does.
- Deps.DepsOf: a composite field counts as unconditional, with no dependencies. The code reads `field.conditional` for every field (src/schematix/core/deps.py:23 and :78), and the composite classes have no such attribute, so Python raises AttributeError there. The model does not reproduce that crash.
- LeafField.Override: a setting whose shape does not fit the attribute is ignored (a value where a function is expected, or the reverse; a `dependencies` value that is not a list of strings), as is an attribute a leaf field does not have. Overrides of `conditions` and of a function-valued `mapper` are ignored too: a `Setting` holds a plain value or a one-argument function, and it cannot hold a dict of evaluators or a two-argument mapper. Python stores both, and they persist after the restore. Python's `setattr` (src/schematix/core/field.py:49 and :63) stores anything, and an ill-typed value such as `transform=5` raises TypeError only later, when the pipeline calls it.
- Values.Repr: an object's repr is `<object>`. The class-specific `__repr__` of an arbitrary object is not representable.
- Values.StrRepr: non-printable characters above U+00AD are kept as they are. Python escapes them as `\xNN`, `\uNNNN` or `\UNNNNNNNN`, and its test is the Unicode database's printable property.
- Values with attributes are `VObj` records. Builtin values have no attributes, so `hasattr(s, 'removesuffix')` is taken as true and `hasattr(item, key)` on a dict as false.

## Findings

| source | as written | input that shows it | evidently intended | confidence | as-written member | corrected member |
|---|---|---|---|---|---|---|
| src/schematix/transforms/text.py:90 | the branch for strings without `removesuffix` returns `s[:-len(suffix)]`, and `s[:-0]` is the empty string | suffix "" on "abc" gives "" | the text unchanged, as `str.removesuffix` does | not executed | Text.RemoveSuffixFallbackEmpties | Text.RemoveSuffixAdded |
| src/schematix/transforms/text.py:203 | the cut `length - len(suffix)` goes negative when the suffix is longer than `length`, and then counts from the end | `truncate(2, "...")` on "abcdef" gives "abcde...", longer than the input | the cut clamped at 0, so the result is never longer than the larger of `length` and the suffix | not executed | Text.TruncateOverlong | Text.TruncateClampedBound |
